/** constance/forms.py: the metaclass's field selection, the form constructor's
    type resolution and version token, and the form's clean_version, clean and
    save. */
module Forms {
  import opened Types
  import opened FieldTable
  import opened Registry
  import opened Backend

  // ---------------------------------------------------------------------------
  // Field selection (ConstanceMetaclass)
  // ---------------------------------------------------------------------------

  /** A `Meta.fields` or `Meta.exclude` option: unset (or None), a string, or a
      sequence of names. */
  datatype MetaOption = Unset | Text(s: string) | NameList(names: seq<string>)

  /** django.forms.ALL_FIELDS */
  const AllFields: string := "__all__"

  /** A string other than `'__all__'`, most likely `('foo')` written for `('foo',)`. */
  predicate IsBareString(o: MetaOption) {
    o.Text? && o.s != AllFields
  }

  /** Position of the first of `names` that is not in `known`. */
  function FirstUnknown(names: seq<string>, known: set<string>): (r: Option<nat>)
    ensures r.None? <==> forall i :: 0 <= i < |names| ==> names[i] in known
    ensures r.Some? ==> r.value < |names| && names[r.value] !in known
    ensures r.Some? ==> forall j :: 0 <= j < r.value ==> names[j] in known
  {
    if |names| == 0 then None
    else if names[0] !in known then Some(0)
    else
      match FirstUnknown(names[1..], known)
      case None => None
      case Some(k) => Some(k + 1)
  }

  /** The names that become form fields (`base_fields`). Both options are checked
      for a bare string, `fields` first; an allow-list must name CONFIG keys only
      and fails on its first unknown name; otherwise every CONFIG key is taken.
      `exclude` takes no further part. */
  function SelectFields<V>(config: seq<ConfigEntry<V>>, fields: MetaOption, exclude: MetaOption)
    : (r: Result<set<string>>)
    ensures IsBareString(fields) ==> r == Err(OptionIsString("fields", fields.s))
    ensures !IsBareString(fields) && IsBareString(exclude) ==>
      r == Err(OptionIsString("exclude", exclude.s))
    ensures !IsBareString(fields) && !IsBareString(exclude) && !fields.NameList? ==>
      r == Ok(Names(config))
    ensures !IsBareString(fields) && !IsBareString(exclude) && fields.NameList? ==>
      (r.Ok? <==> forall i :: 0 <= i < |fields.names| ==> fields.names[i] in Names(config))
    ensures r.Ok? && fields.NameList? ==> r.value == set n | n in fields.names
    ensures r.Ok? ==> r.value <= Names(config)
    ensures r.Err? && fields.NameList? && !IsBareString(exclude) ==>
      exists i :: 0 <= i < |fields.names| && r.error == UnknownField(fields.names[i])
        && fields.names[i] !in Names(config)
        && forall j :: 0 <= j < i ==> fields.names[j] in Names(config)
  {
    if IsBareString(fields) then Err(OptionIsString("fields", fields.s))
    else if IsBareString(exclude) then Err(OptionIsString("exclude", exclude.s))
    else
      match fields
      case NameList(names) =>
        (match FirstUnknown(names, Names(config))
         case Some(k) => Err(UnknownField(names[k]))
         case None => Ok(set n | n in names))
      case _ => Ok(Names(config))
  }

  /** A list of distinct names has as many elements as its set. */
  lemma {:induction false} DistinctCount(names: seq<string>)
    requires forall i, j :: 0 <= i < j < |names| ==> names[i] != names[j]
    ensures |set n | n in names| == |names|
  {
    if |names| > 0 {
      var tail := names[1..];
      DistinctCount(tail);
      assert (set n | n in names) == (set n | n in tail) + {names[0]};
      assert names[0] !in (set n | n in tail);
    }
  }

  /** An allow-list of k distinct CONFIG keys yields exactly k fields. */
  lemma SelectionCount<V>(config: seq<ConfigEntry<V>>, names: seq<string>, exclude: MetaOption)
    requires !IsBareString(exclude)
    requires forall i :: 0 <= i < |names| ==> names[i] in Names(config)
    requires forall i, j :: 0 <= i < j < |names| ==> names[i] != names[j]
    ensures SelectFields(config, NameList(names), exclude).Ok?
    ensures |SelectFields(config, NameList(names), exclude).value| == |names|
  {
    DistinctCount(names);
  }

  /** `exclude` never removes a name: unless it is a bare string, the selection is
      the same as without it. */
  lemma ExcludeIgnored<V>(config: seq<ConfigEntry<V>>, fields: MetaOption, exclude: MetaOption)
    requires !IsBareString(exclude)
    ensures SelectFields(config, fields, exclude) == SelectFields(config, fields, Unset)
  {
  }

  // ---------------------------------------------------------------------------
  // Type resolution and the version token (BaseConstanceForm.__init__)
  // ---------------------------------------------------------------------------

  /** A constructed form field: its class and keyword arguments, labelled with
      the config name. */
  datatype Field = Field(kind: FieldKind, options: FieldOptions, labelText: string)

  /** The parts of the Python runtime and of Django the model depends on but
      does not define. */
  datatype Runtime<!V> = Runtime(
    typeOf: V -> TypeTag,                       // type(v)
    isInstance: (V, TypeTag) -> bool,           // isinstance(v, t)
    isNone: V -> bool,                          // v is None
    differs: (V, V) -> bool,                    // a != b
    bytesOf: V -> seq<byte>,                    // smart_bytes(v)
    md5Hex: seq<byte> -> string,                // hashlib.md5(b).hexdigest()
    dataKeys: (Field, string) -> set<string>,   // the POST keys the field's widget reads for a name
    cleanField: (Field, map<string, V>) -> Option<V>) // field.clean of what the widget read; None on a field error

  /** `v != v` is False: true of every value but a float NaN. */
  predicate EqualsItself<V>(rt: Runtime<V>, v: V) {
    !rt.differs(v, v)
  }

  /** The type an entry is rendered as: the declared type, else `type(default)`. */
  function ConfigType<V>(rt: Runtime<V>, e: ConfigEntry<V>): TypeTag {
    match e.declared
    case Some(t) => t
    case None => rt.typeOf(e.default)
  }

  /** A declared type that is not an additional-field key must admit the default. */
  predicate DefaultFitsDeclared<V>(rt: Runtime<V>, additionalKeys: set<TypeTag>, e: ConfigEntry<V>) {
    e.declared.Some? ==> e.declared.value in additionalKeys || rt.isInstance(e.default, e.declared.value)
  }

  /** The form field of one CONFIG entry, or the ImproperlyConfigured it raises. */
  function FieldFor<V>(rt: Runtime<V>, table: map<TypeTag, FieldSpec>, additionalKeys: set<TypeTag>,
                       e: ConfigEntry<V>): (r: Result<Field>)
    ensures !DefaultFitsDeclared(rt, additionalKeys, e) ==> r == Err(DefaultTypeMismatch(e.name))
    ensures DefaultFitsDeclared(rt, additionalKeys, e) && ConfigType(rt, e) !in table ==>
      r == Err(UnsupportedType(e.name, ConfigType(rt, e)))
    ensures r.Ok? <==> DefaultFitsDeclared(rt, additionalKeys, e) && ConfigType(rt, e) in table
    ensures r.Ok? ==>
      var spec := table[ConfigType(rt, e)];
      r.value == Field(spec.kind, spec.options, e.name)
  {
    var t :- match e.declared
      case Some(d) =>
        if d !in additionalKeys && !rt.isInstance(e.default, d) then Err(DefaultTypeMismatch(e.name))
        else Ok(d)
      case None => Ok(rt.typeOf(e.default));
    if t !in table then Err(UnsupportedType(e.name, t))
    else Ok(Field(table[t].kind, table[t].options, e.name))
  }

  /** Declaring a default's own runtime type changes nothing (Python makes every
      value an instance of its type): the entry resolves to the same field as
      without a declaration. */
  lemma DeclaringRuntimeTypeIsRedundant<V>(rt: Runtime<V>, table: map<TypeTag, FieldSpec>,
                                           additionalKeys: set<TypeTag>, e: ConfigEntry<V>)
    requires rt.isInstance(e.default, rt.typeOf(e.default))
    requires e.declared == Some(rt.typeOf(e.default))
    ensures FieldFor(rt, table, additionalKeys, e) == FieldFor(rt, table, additionalKeys, e.(declared := None))
  {
  }

  /** Every selected entry resolves to a field. */
  predicate AllResolve<V>(rt: Runtime<V>, table: map<TypeTag, FieldSpec>, additionalKeys: set<TypeTag>,
                          config: seq<ConfigEntry<V>>, selected: set<string>) {
    forall i :: 0 <= i < |config| && config[i].name in selected ==>
      FieldFor(rt, table, additionalKeys, config[i]).Ok?
  }

  /** `err` is the error of the first selected entry, in CONFIG order, that does
      not resolve. */
  predicate FirstFailure<V>(rt: Runtime<V>, table: map<TypeTag, FieldSpec>, additionalKeys: set<TypeTag>,
                            config: seq<ConfigEntry<V>>, selected: set<string>, err: Error) {
    exists i :: 0 <= i < |config| && config[i].name in selected
      && FieldFor(rt, table, additionalKeys, config[i]) == Err(err)
      && forall j :: 0 <= j < i && config[j].name in selected ==>
           FieldFor(rt, table, additionalKeys, config[j]).Ok?
  }

  /** The constructor's loop over CONFIG: a field for every selected entry, or
      the error of the first one that does not resolve. */
  function FormFields<V>(rt: Runtime<V>, table: map<TypeTag, FieldSpec>, additionalKeys: set<TypeTag>,
                         config: seq<ConfigEntry<V>>, selected: set<string>): Result<map<string, Field>>
    decreases |config|
  {
    if |config| == 0 then Ok(map[])
    else
      var e := config[|config| - 1];
      var fields :- FormFields(rt, table, additionalKeys, config[..|config| - 1], selected);
      if e.name !in selected then Ok(fields)
      else
        var f :- FieldFor(rt, table, additionalKeys, e);
        Ok(fields[e.name := f])
  }

  /** The constructor succeeds exactly when every selected entry resolves; it
      then holds one field per selected name, that entry's field; otherwise it
      fails with the error of the first selected entry that does not resolve. */
  lemma {:induction false} FormFieldsSpec<V>(rt: Runtime<V>, table: map<TypeTag, FieldSpec>,
      additionalKeys: set<TypeTag>, config: seq<ConfigEntry<V>>, selected: set<string>)
    requires UniqueNames(config)
    ensures var r := FormFields(rt, table, additionalKeys, config, selected);
      && (r.Ok? <==> AllResolve(rt, table, additionalKeys, config, selected))
      && (r.Ok? ==> r.value.Keys == selected * Names(config))
      && (r.Ok? ==> forall i :: 0 <= i < |config| && config[i].name in selected ==>
            r.value[config[i].name] == FieldFor(rt, table, additionalKeys, config[i]).value)
      && (r.Err? ==> FirstFailure(rt, table, additionalKeys, config, selected, r.error))
    decreases |config|
  {
    if |config| > 0 {
      var init := config[..|config| - 1];
      var last := |config| - 1;
      var e := config[last];
      UniquePrefix(config);
      NamesOfPrefix(config);
      FormFieldsSpec(rt, table, additionalKeys, init, selected);
      assert forall i :: 0 <= i < |init| ==> init[i] == config[i];
      var prev := FormFields(rt, table, additionalKeys, init, selected);
      var r := FormFields(rt, table, additionalKeys, config, selected);
      if prev.Err? {
        assert r == Err(prev.error);
        var i :| 0 <= i < |init| && init[i].name in selected
          && FieldFor(rt, table, additionalKeys, init[i]) == Err(prev.error)
          && forall j :: 0 <= j < i && init[j].name in selected ==>
               FieldFor(rt, table, additionalKeys, init[j]).Ok?;
        assert FirstFailure(rt, table, additionalKeys, config, selected, r.error);
      } else if e.name !in selected {
        assert r == prev;
      } else if FieldFor(rt, table, additionalKeys, e).Err? {
        assert r == Err(FieldFor(rt, table, additionalKeys, e).error);
        assert FirstFailure(rt, table, additionalKeys, config, selected, r.error) by {
          assert config[last].name in selected;
        }
      } else {
        var f := FieldFor(rt, table, additionalKeys, e).value;
        assert r == Ok(prev.value[e.name := f]);
        forall i | 0 <= i < |init| && init[i].name in selected
          ensures r.value[config[i].name] == FieldFor(rt, table, additionalKeys, config[i]).value
        {
          assert init[i].name != e.name;
        }
      }
    }
  }

  /** `smart_bytes(initial.get(name, ''))` */
  function InitialBytes<V>(rt: Runtime<V>, initial: map<string, V>, name: string): seq<byte> {
    if name in initial then rt.bytesOf(initial[name]) else []
  }

  /** The bytes fed to the MD5 digest: the initial values of the selected
      entries, concatenated in CONFIG order. */
  function VersionInput<V>(rt: Runtime<V>, config: seq<ConfigEntry<V>>, selected: set<string>,
                           initial: map<string, V>): seq<byte>
    decreases |config|
  {
    if |config| == 0 then []
    else
      var e := config[|config| - 1];
      VersionInput(rt, config[..|config| - 1], selected, initial)
        + (if e.name in selected then InitialBytes(rt, initial, e.name) else [])
  }

  /** The version token: the hex MD5 digest of the version input. */
  function FormVersion<V>(rt: Runtime<V>, config: seq<ConfigEntry<V>>, selected: set<string>,
                          initial: map<string, V>): string {
    rt.md5Hex(VersionInput(rt, config, selected, initial))
  }

  /** The token depends on the selected names' initial values only. */
  lemma {:induction false} VersionIgnoresUnselected<V>(rt: Runtime<V>, config: seq<ConfigEntry<V>>,
      selected: set<string>, i1: map<string, V>, i2: map<string, V>)
    requires forall n :: n in selected ==> InitialBytes(rt, i1, n) == InitialBytes(rt, i2, n)
    ensures VersionInput(rt, config, selected, i1) == VersionInput(rt, config, selected, i2)
    ensures FormVersion(rt, config, selected, i1) == FormVersion(rt, config, selected, i2)
    decreases |config|
  {
    if |config| > 0 {
      VersionIgnoresUnselected(rt, config[..|config| - 1], selected, i1, i2);
    }
  }

  /** Changing the bytes of one selected value changes the version input, the
      bytes of every other selected value staying the same. */
  lemma {:induction false} SingleChangeAltersVersionInput<V>(rt: Runtime<V>, config: seq<ConfigEntry<V>>,
      selected: set<string>, i1: map<string, V>, i2: map<string, V>, name: string)
    requires UniqueNames(config)
    requires name in selected && name in Names(config)
    requires InitialBytes(rt, i1, name) != InitialBytes(rt, i2, name)
    requires forall n :: n in selected && n != name ==> InitialBytes(rt, i1, n) == InitialBytes(rt, i2, n)
    ensures VersionInput(rt, config, selected, i1) != VersionInput(rt, config, selected, i2)
    decreases |config|
  {
    var init := config[..|config| - 1];
    var e := config[|config| - 1];
    UniquePrefix(config);
    NamesOfPrefix(config);
    var p1 := VersionInput(rt, init, selected, i1);
    var p2 := VersionInput(rt, init, selected, i2);
    if e.name == name {
      VersionUnchangedOutside(rt, init, selected, i1, i2, name);
      var x1 := InitialBytes(rt, i1, name);
      var x2 := InitialBytes(rt, i2, name);
      if |x1| == |x2| {
        assert (p1 + x1)[|p1|..] == x1;
        assert (p2 + x2)[|p2|..] == x2;
      } else {
        assert |p1 + x1| != |p2 + x2|;
      }
    } else {
      SingleChangeAltersVersionInput(rt, init, selected, i1, i2, name);
      var z := if e.name in selected then InitialBytes(rt, i1, e.name) else [];
      assert z == (if e.name in selected then InitialBytes(rt, i2, e.name) else []);
      if |p1| == |p2| {
        assert (p1 + z)[..|p1|] == p1;
        assert (p2 + z)[..|p2|] == p2;
      } else {
        assert |p1 + z| != |p2 + z|;
      }
    }
  }

  /** Over entries other than `name`, a change of `name` is invisible. */
  lemma {:induction false} VersionUnchangedOutside<V>(rt: Runtime<V>, config: seq<ConfigEntry<V>>,
      selected: set<string>, i1: map<string, V>, i2: map<string, V>, name: string)
    requires name !in Names(config)
    requires forall n :: n in selected && n != name ==> InitialBytes(rt, i1, n) == InitialBytes(rt, i2, n)
    ensures VersionInput(rt, config, selected, i1) == VersionInput(rt, config, selected, i2)
    decreases |config|
  {
    if |config| > 0 {
      NamesOfPrefix(config);
      VersionUnchangedOutside(rt, config[..|config| - 1], selected, i1, i2, name);
    }
  }

  /** A constructed form: its fields, its initial values and its version token. */
  datatype Form<V> = Form(fields: map<string, Field>, initial: map<string, V>, version: string)

  /** `BaseConstanceForm(initial)` for a class whose metaclass selected `selected`. */
  function BuildForm<V>(rt: Runtime<V>, s: Settings<V>, selected: set<string>, initial: map<string, V>)
    : (r: Result<Form<V>>)
    requires s.WellFormed()
    requires selected <= Names(s.config)
    ensures r.Ok? <==> AllResolve(rt, Fields(s.additionalFields), s.additionalFields.Keys, s.config, selected)
    ensures r.Ok? ==> r.value.fields.Keys == selected
    ensures r.Ok? ==> forall i :: 0 <= i < |s.config| && s.config[i].name in selected ==>
      r.value.fields[s.config[i].name]
        == FieldFor(rt, Fields(s.additionalFields), s.additionalFields.Keys, s.config[i]).value
    ensures r.Ok? ==> r.value.initial == initial
    ensures r.Ok? ==> r.value.version == FormVersion(rt, s.config, selected, initial)
    ensures r.Err? ==>
      FirstFailure(rt, Fields(s.additionalFields), s.additionalFields.Keys, s.config, selected, r.error)
  {
    FormFieldsSpec(rt, Fields(s.additionalFields), s.additionalFields.Keys, s.config, selected);
    var fields :- FormFields(rt, Fields(s.additionalFields), s.additionalFields.Keys, s.config, selected);
    Ok(Form(fields, initial, FormVersion(rt, s.config, selected, initial)))
  }

  // ---------------------------------------------------------------------------
  // Validation
  // ---------------------------------------------------------------------------

  /** `clean_version`: the submitted token is accepted when the check is switched
      off or when it equals the token computed at construction. */
  function CleanVersion(ignoreCheck: bool, submitted: string, constructed: string): (r: Result<string>)
    ensures r.Ok? <==> ignoreCheck || submitted == constructed
    ensures r.Ok? ==> r.value == submitted
    ensures r.Err? ==> r.error == StaleVersion
  {
    if ignoreCheck then Ok(submitted)
    else if submitted != constructed then Err(StaleVersion)
    else Ok(submitted)
  }

  /** A token issued for some initial values is accepted by a form built later
      whose selected values have the same bytes. */
  lemma UnchangedTokenAccepted<V>(rt: Runtime<V>, config: seq<ConfigEntry<V>>, selected: set<string>,
      ignoreCheck: bool, issued: map<string, V>, now: map<string, V>)
    requires forall n :: n in selected ==> InitialBytes(rt, issued, n) == InitialBytes(rt, now, n)
    ensures CleanVersion(ignoreCheck, FormVersion(rt, config, selected, issued),
                         FormVersion(rt, config, selected, now)).Ok?
  {
    VersionIgnoresUnselected(rt, config, selected, issued, now);
  }

  /** A token issued before another editor changed one selected value is
      rejected as stale, unless the check is switched
      off, provided the digest does not collide on the two inputs. */
  lemma ConcurrentChangeRejected<V>(rt: Runtime<V>, config: seq<ConfigEntry<V>>, selected: set<string>,
      ignoreCheck: bool, issued: map<string, V>, now: map<string, V>, name: string)
    requires UniqueNames(config)
    requires name in selected && name in Names(config)
    requires InitialBytes(rt, issued, name) != InitialBytes(rt, now, name)
    requires forall n :: n in selected && n != name ==> InitialBytes(rt, issued, n) == InitialBytes(rt, now, n)
    requires FormVersion(rt, config, selected, issued) == FormVersion(rt, config, selected, now) ==>
      VersionInput(rt, config, selected, issued) == VersionInput(rt, config, selected, now)
    ensures CleanVersion(ignoreCheck, FormVersion(rt, config, selected, issued),
                         FormVersion(rt, config, selected, now)) ==
      if ignoreCheck then Ok(FormVersion(rt, config, selected, issued)) else Err(StaleVersion)
  {
    SingleChangeAltersVersionInput(rt, config, selected, issued, now, name);
  }

  /** The name is listed by some fieldset. */
  predicate Listed(fieldsets: seq<Fieldset>, name: string) {
    exists i :: 0 <= i < |fieldsets| && name in fieldsets[i].names
  }

  /** All fieldset lists, concatenated. */
  function AllListed(fieldsets: seq<Fieldset>): (r: seq<string>)
    ensures forall n :: n in r <==> Listed(fieldsets, n)
    ensures |r| == 0 <==> forall i :: 0 <= i < |fieldsets| ==> |fieldsets[i].names| == 0
  {
    if |fieldsets| == 0 then []
    else
      var rest := AllListed(fieldsets[1..]);
      assert forall n :: Listed(fieldsets, n) <==> n in fieldsets[0].names || Listed(fieldsets[1..], n) by {
        forall n ensures Listed(fieldsets, n) ==> n in fieldsets[0].names || Listed(fieldsets[1..], n) {
          if Listed(fieldsets, n) && n !in fieldsets[0].names {
            var i :| 0 <= i < |fieldsets| && n in fieldsets[i].names;
            assert fieldsets[1..][i - 1] == fieldsets[i];
          }
        }
      }
      fieldsets[0].names + rest
  }

  /** `clean`: with fieldsets configured and at least one name listed, every
      CONFIG key must be listed by some fieldset. Listed names that are not CONFIG
      keys do no harm. */
  function Clean<V>(config: seq<ConfigEntry<V>>, fieldsets: seq<Fieldset>): (r: Outcome)
    ensures r.Fail? <==>
      && (exists i :: 0 <= i < |fieldsets| && |fieldsets[i].names| > 0)
      && (exists i :: 0 <= i < |config| && !Listed(fieldsets, config[i].name))
    ensures r.Fail? ==> r.error == FieldsetsIncomplete
  {
    if |fieldsets| == 0 then Pass
    else
      var listed := AllListed(fieldsets);
      var missing := Names(config) - (set n | n in listed);
      assert missing != {} <==> exists i :: 0 <= i < |config| && !Listed(fieldsets, config[i].name) by {
        if missing != {} {
          var n :| n in missing;
          var i :| 0 <= i < |config| && config[i].name == n;
        }
        if exists i :: 0 <= i < |config| && !Listed(fieldsets, config[i].name) {
          var i :| 0 <= i < |config| && !Listed(fieldsets, config[i].name);
          assert config[i].name in missing;
        }
      }
      if |listed| > 0 && missing != {} then Fail(FieldsetsIncomplete)
      else Pass
  }

  /** What the widget of field `f`, named `name`, reads from the submitted data:
      `data[name]` for a plain widget, `name_0` and `name_1` for a split one. */
  function Submitted<V>(rt: Runtime<V>, data: map<string, V>, f: Field, name: string): map<string, V> {
    map k | k in data && k in rt.dataKeys(f, name) :: data[k]
  }

  /** A form bound to submitted data, after `full_clean`. */
  datatype BoundForm<V> = BoundForm(
    form: Form<V>,
    data: map<string, V>,
    cleaned: map<string, V>,       // cleaned_data
    fieldErrors: set<string>,      // fields whose value did not clean
    formCheck: Outcome)            // the outcome of clean()
  {
    predicate IsValid() {
      fieldErrors == {} && formCheck.Pass?
    }
  }

  /** `form_cls(data=..., initial=...)` followed by `is_valid()`. Each field
      cleans what its widget reads from the submitted data; then `clean` runs.
      The `version` field is not among the fields (the metaclass replaced
      `base_fields`), so `clean_version` does not run. */
  function Bind<V>(rt: Runtime<V>, s: Settings<V>, form: Form<V>, data: map<string, V>): (b: BoundForm<V>)
    ensures b.form == form && b.data == data
    ensures b.cleaned.Keys + b.fieldErrors == form.fields.Keys
    ensures b.cleaned.Keys !! b.fieldErrors
    ensures forall n :: n in b.cleaned ==>
      rt.cleanField(form.fields[n], Submitted(rt, data, form.fields[n], n)) == Some(b.cleaned[n])
    ensures forall n :: n in b.fieldErrors ==>
      rt.cleanField(form.fields[n], Submitted(rt, data, form.fields[n], n)).None?
    ensures b.formCheck == Clean(s.config, s.fieldsets)
  {
    var cleaned := map n | n in form.fields && rt.cleanField(form.fields[n], Submitted(rt, data, form.fields[n], n)).Some?
                     :: rt.cleanField(form.fields[n], Submitted(rt, data, form.fields[n], n)).value;
    var errors := set n | n in form.fields && rt.cleanField(form.fields[n], Submitted(rt, data, form.fields[n], n)).None?;
    BoundForm(form, data, cleaned, errors, Clean(s.config, s.fieldsets))
  }

  /** Whatever is submitted as `version`, the outcome of validation is the same:
      no stale-token check takes place, as long as no field's widget reads the
      `version` key. */
  lemma VersionTokenNotChecked<V>(rt: Runtime<V>, s: Settings<V>, form: Form<V>, data: map<string, V>, token: V)
    requires forall n :: n in form.fields ==> "version" !in rt.dataKeys(form.fields[n], n)
    ensures Bind(rt, s, form, data["version" := token]).IsValid() == Bind(rt, s, form, data).IsValid()
    ensures Bind(rt, s, form, data["version" := token]).cleaned == Bind(rt, s, form, data).cleaned
  {
    var data2 := data["version" := token];
    forall n | n in form.fields
      ensures Submitted(rt, data2, form.fields[n], n) == Submitted(rt, data, form.fields[n], n)
    {
    }
    var b1 := Bind(rt, s, form, data2);
    var b2 := Bind(rt, s, form, data);
    assert b1.fieldErrors == b2.fieldErrors;
  }

  // ---------------------------------------------------------------------------
  // Save
  // ---------------------------------------------------------------------------

  /** The backend after `save`, and the names written, in order. */
  datatype SaveResult<V> = SaveResult(backend: map<string, V>, writes: seq<string>)

  /** `save` (without file uploads): walk CONFIG in order and write each cleaned
      value for which `getattr(config, name) != value` holds. */
  function Save<V>(rt: Runtime<V>, config: seq<ConfigEntry<V>>, backend: map<string, V>,
                   cleaned: map<string, V>): (r: SaveResult<V>)
    requires UniqueNames(config)
    requires Names(config) <= cleaned.Keys
    ensures forall i :: 0 <= i < |config| ==>
      (config[i].name in r.writes <==> rt.differs(Current(rt.isNone, backend, config[i]), cleaned[config[i].name]))
    ensures forall i :: 0 <= i < |config| && config[i].name in r.writes ==>
      Current(rt.isNone, r.backend, config[i]) == ReadBack(rt.isNone, cleaned[config[i].name], config[i])
    ensures forall k :: k in r.writes ==> k in Names(config) && k in r.backend && r.backend[k] == cleaned[k]
    ensures forall k :: k !in r.writes ==>
      (k in r.backend <==> k in backend) && (k in backend ==> r.backend[k] == backend[k])
    ensures forall i, j :: 0 <= i < j < |r.writes| ==> r.writes[i] != r.writes[j]
    decreases |config|
  {
    if |config| == 0 then SaveResult(backend, [])
    else
      var init := config[..|config| - 1];
      var e := config[|config| - 1];
      UniquePrefix(config);
      NamesOfPrefix(config);
      var prev := Save(rt, init, backend, cleaned);
      assert config == init + [e];
      assert e.name in Names(config);
      if rt.differs(Current(rt.isNone, prev.backend, e), cleaned[e.name]) then
        var r := SaveResult(prev.backend[e.name := cleaned[e.name]], prev.writes + [e.name]);
        SaveStep(rt, config, backend, cleaned, init, e, prev, r);
        r
      else
        SaveStep(rt, config, backend, cleaned, init, e, prev, prev);
        prev
  }

  /** The step of `Save`: the last entry of CONFIG is written exactly when its
      cleaned value differs from what `getattr` reads, and the earlier entries
      keep what the save of the prefix did to them. */
  lemma SaveStep<V>(rt: Runtime<V>, config: seq<ConfigEntry<V>>, backend: map<string, V>,
                   cleaned: map<string, V>, init: seq<ConfigEntry<V>>, e: ConfigEntry<V>,
                   prev: SaveResult<V>, r: SaveResult<V>)
    requires config == init + [e] && UniqueNames(config)
    requires Names(config) <= cleaned.Keys && Names(init) <= cleaned.Keys && e.name in cleaned
    requires forall i :: 0 <= i < |init| ==>
      (init[i].name in prev.writes <==> rt.differs(Current(rt.isNone, backend, init[i]), cleaned[init[i].name]))
    requires forall i :: 0 <= i < |init| && init[i].name in prev.writes ==>
      Current(rt.isNone, prev.backend, init[i]) == ReadBack(rt.isNone, cleaned[init[i].name], init[i])
    requires forall k :: k in prev.writes ==> k in Names(init) && k in prev.backend && prev.backend[k] == cleaned[k]
    requires forall k :: k !in prev.writes ==>
      (k in prev.backend <==> k in backend) && (k in backend ==> prev.backend[k] == backend[k])
    requires forall i, j :: 0 <= i < j < |prev.writes| ==> prev.writes[i] != prev.writes[j]
    requires if rt.differs(Current(rt.isNone, prev.backend, e), cleaned[e.name])
      then r == SaveResult(prev.backend[e.name := cleaned[e.name]], prev.writes + [e.name])
      else r == prev
    ensures forall i :: 0 <= i < |config| ==>
      (config[i].name in r.writes <==> rt.differs(Current(rt.isNone, backend, config[i]), cleaned[config[i].name]))
    ensures forall i :: 0 <= i < |config| && config[i].name in r.writes ==>
      Current(rt.isNone, r.backend, config[i]) == ReadBack(rt.isNone, cleaned[config[i].name], config[i])
    ensures forall k :: k in r.writes ==> k in Names(config) && k in r.backend && r.backend[k] == cleaned[k]
    ensures forall k :: k !in r.writes ==>
      (k in r.backend <==> k in backend) && (k in backend ==> r.backend[k] == backend[k])
    ensures forall i, j :: 0 <= i < j < |r.writes| ==> r.writes[i] != r.writes[j]
  {
    assert init == config[..|config| - 1];
    UniquePrefix(config);
    NamesOfPrefix(config);
    assert e.name !in prev.writes;
    assert Current(rt.isNone, prev.backend, e) == Current(rt.isNone, backend, e);
    forall i | 0 <= i < |config|
      ensures config[i].name in r.writes <==> rt.differs(Current(rt.isNone, backend, config[i]), cleaned[config[i].name])
      ensures config[i].name in r.writes ==>
        Current(rt.isNone, r.backend, config[i]) == ReadBack(rt.isNone, cleaned[config[i].name], config[i])
    {
      if i < |config| - 1 {
        assert init[i] == config[i];
        assert config[i].name != e.name;
      }
    }
  }
}
