/** The FIELDS table of constance/forms.py: which form field class, with which
    keyword arguments, renders a configuration value of a given Python type,
    extended at start-up by CONSTANCE_ADDITIONAL_FIELDS. */
module FieldTable {
  import opened Types

  /** Django form field classes. Classes named by an additional-field entry are
      `Imported`, identified by their dotted path. */
  datatype FieldKind =
    | BooleanField | IntegerField | DecimalField | CharField | SplitDateTimeField
    | DurationField | DateField | TimeField | FloatField
    | Imported(path: string)

  /** Widgets handed to a field. `TextInputSize10` is NUMERIC_WIDGET and
      `TextareaRows3` the widget of STRING_LIKE; a widget named by an additional
      field is instantiated from its dotted path with its keyword arguments. */
  datatype Widget =
    | TextInputSize10 | TextareaRows3
    | AdminSplitDateTime | AdminTextInputWidget | AdminDateWidget | AdminTimeWidget
    | ImportedWidget(path: string, kwargs: map<string, string>)

  /** The keyword arguments of a field constructor: `widget`, `required`,
      `widget_kwargs` and any other option, by name. */
  datatype FieldOptions = FieldOptions(
    widget: Option<Widget>,
    required: Option<bool>,
    widgetKwargs: Option<map<string, string>>,
    extra: map<string, string>)

  /** One FIELDS value: a field class and its keyword arguments. */
  datatype FieldSpec = FieldSpec(kind: FieldKind, options: FieldOptions)

  const NoOptions := FieldOptions(None, None, None, map[])

  function WidgetOnly(w: Widget): FieldOptions {
    FieldOptions(Some(w), None, None, map[])
  }

  /** The built-in FIELDS table (Python 3 branch). */
  const BuiltinFields: map<TypeTag, FieldSpec> := map[
    BoolType := FieldSpec(BooleanField, FieldOptions(None, Some(false), None, map[])),
    IntType := FieldSpec(IntegerField, WidgetOnly(TextInputSize10)),
    DecimalType := FieldSpec(DecimalField, WidgetOnly(TextInputSize10)),
    StrType := FieldSpec(CharField, FieldOptions(Some(TextareaRows3), Some(false), None, map[])),
    DateTimeType := FieldSpec(SplitDateTimeField, WidgetOnly(AdminSplitDateTime)),
    TimeDeltaType := FieldSpec(DurationField, WidgetOnly(AdminTextInputWidget)),
    DateType := FieldSpec(DateField, WidgetOnly(AdminDateWidget)),
    TimeType := FieldSpec(TimeField, WidgetOnly(AdminTimeWidget)),
    FloatType := FieldSpec(FloatField, WidgetOnly(TextInputSize10))
  ]

  /** The options dictionary of a CONSTANCE_ADDITIONAL_FIELDS entry, before its
      widget path is resolved. `None` in `widgetKwargs` means the key is absent. */
  datatype RawOptions = RawOptions(
    widget: Option<string>,
    widgetKwargs: Option<map<string, string>>,
    required: Option<bool>,
    extra: map<string, string>)

  /** A CONSTANCE_ADDITIONAL_FIELDS entry: a field class path and, unless the
      entry is a 1-tuple, an options dictionary. */
  datatype RawField = RawField(fieldPath: string, options: Option<RawOptions>)

  /** Shape normalisation of one additional field: a 1-tuple gets empty options;
      a `widget` path becomes a widget built with `widget_kwargs` (or no keyword
      arguments), and `widget_kwargs` is then dropped; without a `widget` the
      options are kept as they are. */
  function ParseAdditionalField(raw: RawField): (spec: FieldSpec)
    ensures spec.kind == Imported(raw.fieldPath)
    ensures raw.options.None? ==> spec.options == NoOptions
    ensures raw.options.Some? ==>
      && spec.options.required == raw.options.value.required
      && spec.options.extra == raw.options.value.extra
    ensures raw.options.Some? && raw.options.value.widget.Some? ==>
      && spec.options.widget.Some?
      && spec.options.widget.value.ImportedWidget?
      && spec.options.widget.value.path == raw.options.value.widget.value
      && spec.options.widget.value.kwargs == raw.options.value.widgetKwargs.GetOr(map[])
      && spec.options.widgetKwargs.None?
    ensures raw.options.Some? && raw.options.value.widget.None? ==>
      && spec.options.widget.None?
      && spec.options.widgetKwargs == raw.options.value.widgetKwargs
  {
    match raw.options
    case None => FieldSpec(Imported(raw.fieldPath), NoOptions)
    case Some(o) =>
      match o.widget
      case None =>
        FieldSpec(Imported(raw.fieldPath), FieldOptions(None, o.required, o.widgetKwargs, o.extra))
      case Some(path) =>
        var w := ImportedWidget(path, o.widgetKwargs.GetOr(map[]));
        FieldSpec(Imported(raw.fieldPath), FieldOptions(Some(w), o.required, None, o.extra))
  }

  /** FIELDS after `FIELDS.update(parse_additional_fields(ADDITIONAL_FIELDS))`:
      every built-in and every additional key, an additional entry replacing a
      built-in one of the same key. */
  function Fields(additional: map<TypeTag, RawField>): (table: map<TypeTag, FieldSpec>)
    ensures table.Keys == BuiltinFields.Keys + additional.Keys
    ensures forall t :: t in additional ==> table[t] == ParseAdditionalField(additional[t])
    ensures forall t :: t in BuiltinFields && t !in additional ==> table[t] == BuiltinFields[t]
  {
    BuiltinFields + map t | t in additional :: ParseAdditionalField(additional[t])
  }
}
