/** Shared vocabulary of the model: bytes, optional values, the Python classes a
    configuration value can have, and the errors the form and the admin view raise. */
module Types {

  newtype byte = x: int | 0 <= x < 256

  datatype Option<+T> = None | Some(value: T) {
    function GetOr(default: T): T {
      match this
      case Some(v) => v
      case None => default
    }
  }

  /** A Python class used as a key of the FIELDS table, as a value's runtime type
      or as a declared config type. The nine built-in classes the FIELDS table
      knows are listed; every other class, and every string key of
      CONSTANCE_ADDITIONAL_FIELDS, is `Named`. */
  datatype TypeTag =
    | BoolType | IntType | DecimalType | StrType | DateTimeType
    | TimeDeltaType | DateType | TimeType | FloatType
    | Named(name: string)

  /** The exceptions raised along the modelled paths. */
  datatype Error =
      // TypeError: Meta.fields or Meta.exclude given as a bare string
    | OptionIsString(option: string, value: string)
      // FieldError: an allow-list names something that is not in CONFIG
    | UnknownField(name: string)
      // ImproperlyConfigured: the default is not an instance of the declared type
    | DefaultTypeMismatch(name: string)
      // ImproperlyConfigured: the resolved type has no FIELDS entry
    | UnsupportedType(name: string, tag: TypeTag)
      // ValidationError from clean_version
    | StaleVersion
      // ValidationError from clean: some CONFIG key is in no fieldset
    | FieldsetsIncomplete
      // PermissionDenied from the admin view
    | PermissionDenied
      // AssertionError: a fieldset lists a name that is not in CONFIG
    | FieldsetUnknownName(title: string)
      // KeyError: the form has no field for a CONFIG name
    | MissingFormField(name: string)

  datatype Result<+T> = Ok(value: T) | Err(error: Error) {
    predicate IsFailure() {
      Err?
    }

    function PropagateFailure<U>(): Result<U>
      requires Err?
    {
      Err(error)
    }

    function Extract(): T
      requires Ok?
    {
      value
    }
  }

  /** A check that either passes or fails with an error. */
  datatype Outcome = Pass | Fail(error: Error)
}
