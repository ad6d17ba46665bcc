/** Worked instances of the model on a small registry: the cases the form's own
    tests exercise, the type-resolution rules on concrete Python values, and
    the admin view's permission gate. */
module Examples {
  import opened Types
  import opened FieldTable
  import opened Registry
  import opened Forms
  import opened Admin

  /** A few Python values, enough to exercise the type rules. */
  datatype PyValue = PyInt(i: int) | PyBool(b: bool) | PyStr(s: string) | PyDateTime(stamp: int) | PyNone

  function TypeOf(v: PyValue): TypeTag {
    match v
    case PyInt(_) => IntType
    case PyBool(_) => BoolType
    case PyStr(_) => StrType
    case PyDateTime(_) => DateTimeType
    case PyNone => Named("NoneType")
  }

  /** `isinstance`: a value is an instance of its own type, `bool` is a
      subclass of `int`, and `datetime` is a subclass of `date`. */
  function IsInstance(v: PyValue, t: TypeTag): bool {
    t == TypeOf(v) || (v.PyBool? && t == IntType) || (v.PyDateTime? && t == DateType)
  }

  /** One byte per character, enough for the ASCII strings used here. */
  function AsciiBytes(s: string): seq<byte> {
    if |s| == 0 then [] else [(s[0] as int % 256) as byte] + AsciiBytes(s[1..])
  }

  /** `str(n)` for an integer. */
  function IntText(n: int): string
    decreases if n < 0 then 1 - n else n
  {
    if n < 0 then "-" + IntText(-n)
    else if n < 10 then [(48 + n) as char]
    else IntText(n / 10) + [(48 + n % 10) as char]
  }

  /** `smart_bytes(v)`: the text of `str(v)`. A datetime is written as its stamp
      in decimal, which stands in for the ISO text `str` gives it. */
  function BytesOf(v: PyValue): seq<byte> {
    match v
    case PyStr(s) => AsciiBytes(s)
    case PyInt(i) => AsciiBytes(IntText(i))
    case PyBool(b) => if b then AsciiBytes("True") else AsciiBytes("False")
    case PyDateTime(stamp) => AsciiBytes(IntText(stamp))
    case PyNone => AsciiBytes("None")
  }

  /** The POST keys a widget reads: a split date-time widget reads `name_0`
      (the date) and `name_1` (the time), every other widget reads `name`. */
  function DataKeys(f: Field, name: string): set<string> {
    if f.options.widget == Some(AdminSplitDateTime) then {name + "_0", name + "_1"} else {name}
  }

  /** The number a value stands for in arithmetic: an int, or a bool as 0 or 1. */
  function Number(v: PyValue): Option<int> {
    match v
    case PyInt(i) => Some(i)
    case PyBool(b) => Some(if b then 1 else 0)
    case _ => None
  }

  /** `a == b`: numbers compare by value across int and bool (`True == 1`);
      other values are equal only to a value of the same kind and content. */
  function PyEquals(a: PyValue, b: PyValue): bool {
    if Number(a).Some? || Number(b).Some? then Number(a) == Number(b) else a == b
  }

  /** The runtime of these values, for any digest and any field cleaning. */
  function Py(md5: seq<byte> -> string, clean: (Field, map<string, PyValue>) -> Option<PyValue>): Runtime<PyValue> {
    Runtime(TypeOf, IsInstance, (v: PyValue) => v.PyNone?, (a: PyValue, b: PyValue) => !PyEquals(a, b),
            BytesOf, md5, DataKeys, clean)
  }

  const Email := RawField("django.forms.fields.EmailField", None)

  /** A registry like the one the form tests use, cut down to four entries. */
  const Config: seq<ConfigEntry<PyValue>> := [
    ConfigEntry("INT_VALUE", PyInt(1), "some int", None),
    ConfigEntry("BOOL_VALUE", PyBool(true), "true or false", None),
    ConfigEntry("DATETIME_VALUE", PyDateTime(0), "the first release", None),
    ConfigEntry("EMAIL_VALUE", PyStr("test@example.com"), "an email", Some(Named("email")))
  ]

  function Site(superuserOnly: bool): Settings<PyValue> {
    Settings(Config, true, [], true, map[Named("email") := Email], superuserOnly, false)
  }

  lemma ConfigNames()
    ensures UniqueNames(Config)
    ensures Names(Config) == {"INT_VALUE", "BOOL_VALUE", "DATETIME_VALUE", "EMAIL_VALUE"}
  {
    assert Config[0].name == "INT_VALUE" && Config[1].name == "BOOL_VALUE";
    assert Config[2].name == "DATETIME_VALUE" && Config[3].name == "EMAIL_VALUE";
  }

  /** `fields = 'abc'` raises TypeError. */
  lemma BareStringFieldsRejected()
    ensures SelectFields(Config, Text("abc"), Unset) == Err(OptionIsString("fields", "abc"))
  {
  }

  /** `fields = ('john', 'doe', 'INT_VALUE')` raises FieldError on 'john'. */
  lemma UnknownNameRejected()
    ensures SelectFields(Config, NameList(["john", "doe", "INT_VALUE"]), Unset) == Err(UnknownField("john"))
  {
    ConfigNames();
    var names := ["john", "doe", "INT_VALUE"];
    var r := SelectFields(Config, NameList(names), Unset);
    assert names[0] !in Names(Config);
    var i :| 0 <= i < |names| && r.error == UnknownField(names[i]) && names[i] !in Names(Config)
      && forall j :: 0 <= j < i ==> names[j] in Names(Config);
    assert i == 0;
  }

  /** An allow-list of three CONFIG keys gives a form of three fields, and
      `'__all__'` gives every key. */
  lemma AllowListSizes()
    ensures var r := SelectFields(Config, NameList(["INT_VALUE", "DATETIME_VALUE", "EMAIL_VALUE"]), Unset);
      r.Ok? && |r.value| == 3
    ensures SelectFields(Config, Text(AllFields), Unset) == Ok(Names(Config))
  {
    ConfigNames();
    SelectionCount(Config, ["INT_VALUE", "DATETIME_VALUE", "EMAIL_VALUE"], Unset);
  }

  /** The table the site builds: the built-in entries, plus the email field. */
  lemma SiteTable()
    ensures var table := Fields(Site(false).additionalFields);
      && table[IntType].kind == IntegerField
      && table[BoolType].kind == BooleanField
      && table[DateTimeType].kind == SplitDateTimeField
      && table[Named("email")].kind == Imported("django.forms.fields.EmailField")
  {
    var table := Fields(Site(false).additionalFields);
    assert table[IntType] == BuiltinFields[IntType];
    assert table[BoolType] == BuiltinFields[BoolType];
    assert table[DateTimeType] == BuiltinFields[DateTimeType];
  }

  /** Each entry gets the field of its type: `int` an IntegerField, `bool` a
      BooleanField (not an IntegerField, although a bool is an int), `datetime`
      a SplitDateTimeField, and the declared additional type its imported
      field class. */
  lemma FieldTypes(md5: seq<byte> -> string, clean: (Field, map<string, PyValue>) -> Option<PyValue>)
    ensures var rt := Py(md5, clean);
      var keys := Site(false).additionalFields.Keys;
      var table := Fields(Site(false).additionalFields);
      && FieldFor(rt, table, keys, Config[0]).Ok? && FieldFor(rt, table, keys, Config[0]).value.kind == IntegerField
      && FieldFor(rt, table, keys, Config[1]).Ok? && FieldFor(rt, table, keys, Config[1]).value.kind == BooleanField
      && FieldFor(rt, table, keys, Config[2]).Ok? && FieldFor(rt, table, keys, Config[2]).value.kind == SplitDateTimeField
      && FieldFor(rt, table, keys, Config[3]).Ok?
      && FieldFor(rt, table, keys, Config[3]).value.kind == Imported("django.forms.fields.EmailField")
  {
    SiteTable();
  }

  /** Every entry of the site resolves. */
  lemma SiteResolves(md5: seq<byte> -> string, clean: (Field, map<string, PyValue>) -> Option<PyValue>)
    ensures AllResolve(Py(md5, clean), Fields(Site(false).additionalFields), Site(false).additionalFields.Keys,
                       Config, Names(Config))
  {
    FieldTypes(md5, clean);
    var rt := Py(md5, clean);
    var s := Site(false);
    var table := Fields(s.additionalFields);
    forall i | 0 <= i < |Config|
      ensures FieldFor(rt, table, s.additionalFields.Keys, Config[i]).Ok?
    {
      assert i == 0 || i == 1 || i == 2 || i == 3;
    }
  }

  /** The form built for the site has a field for each of its four keys, each
      of the class its type selects. */
  lemma FormOfSite(md5: seq<byte> -> string, clean: (Field, map<string, PyValue>) -> Option<PyValue>,
                   initial: map<string, PyValue>)
    ensures var r := BuildForm(Py(md5, clean), Site(false), Names(Config), initial);
      && r.Ok?
      && r.value.fields.Keys == {"INT_VALUE", "BOOL_VALUE", "DATETIME_VALUE", "EMAIL_VALUE"}
      && r.value.fields["INT_VALUE"].kind == IntegerField
      && r.value.fields["BOOL_VALUE"].kind == BooleanField
      && r.value.fields["DATETIME_VALUE"].kind == SplitDateTimeField
      && r.value.fields["EMAIL_VALUE"].kind == Imported("django.forms.fields.EmailField")
  {
    ConfigNames();
    FieldTypes(md5, clean);
    SiteResolves(md5, clean);
    var rt := Py(md5, clean);
    var s := Site(false);
    var table := Fields(s.additionalFields);
    var r := BuildForm(rt, s, Names(Config), initial);
    assert r.value.fields["INT_VALUE"] == FieldFor(rt, table, s.additionalFields.Keys, Config[0]).value;
    assert r.value.fields["BOOL_VALUE"] == FieldFor(rt, table, s.additionalFields.Keys, Config[1]).value;
    assert r.value.fields["DATETIME_VALUE"] == FieldFor(rt, table, s.additionalFields.Keys, Config[2]).value;
    assert r.value.fields["EMAIL_VALUE"] == FieldFor(rt, table, s.additionalFields.Keys, Config[3]).value;
  }

  /** A declared type is checked against the default with `isinstance`: `True`
      passes as an `int` and is then rendered as one, a number does not pass as
      a `str`, and an undeclared `None` has no field. */
  lemma DeclaredTypes(md5: seq<byte> -> string, clean: (Field, map<string, PyValue>) -> Option<PyValue>)
    ensures FieldFor(Py(md5, clean), BuiltinFields, {}, ConfigEntry("FLAG", PyBool(true), "", Some(IntType)))
         == Ok(Field(IntegerField, WidgetOnly(TextInputSize10), "FLAG"))
    ensures FieldFor(Py(md5, clean), BuiltinFields, {}, ConfigEntry("NAME", PyInt(3), "", Some(StrType)))
         == Err(DefaultTypeMismatch("NAME"))
    ensures FieldFor(Py(md5, clean), BuiltinFields, {}, ConfigEntry("NOTHING", PyNone, "", None))
         == Err(UnsupportedType("NOTHING", Named("NoneType")))
  {
  }

  /** The version input concatenates the values without separators, so moving
      a character from one value to the next gives the same token. */
  lemma ConcatenationCollision(md5: seq<byte> -> string, clean: (Field, map<string, PyValue>) -> Option<PyValue>)
    ensures var cfg := [ConfigEntry("A", PyStr(""), "", None), ConfigEntry("B", PyStr(""), "", None)];
      FormVersion(Py(md5, clean), cfg, {"A", "B"}, map["A" := PyStr("ab"), "B" := PyStr("c")])
      == FormVersion(Py(md5, clean), cfg, {"A", "B"}, map["A" := PyStr("a"), "B" := PyStr("bc")])
  {
    var rt := Py(md5, clean);
    var cfg := [ConfigEntry("A", PyStr(""), "", None), ConfigEntry("B", PyStr(""), "", None)];
    var m1 := map["A" := PyStr("ab"), "B" := PyStr("c")];
    var m2 := map["A" := PyStr("a"), "B" := PyStr("bc")];
    assert cfg[..1] == [cfg[0]] && cfg[..1][..0] == [];
    assert VersionInput(rt, cfg, {"A", "B"}, m1) == AsciiBytes("ab") + AsciiBytes("c");
    assert VersionInput(rt, cfg, {"A", "B"}, m2) == AsciiBytes("a") + AsciiBytes("bc");
    assert AsciiBytes("ab") + AsciiBytes("c") == AsciiBytes("a") + AsciiBytes("bc");
  }

  /** Submitting new values for both entries of a two-entry registry writes
      both, in CONFIG order. */
  lemma TwoEntrySave(md5: seq<byte> -> string, clean: (Field, map<string, PyValue>) -> Option<PyValue>)
    ensures var cfg := [ConfigEntry("INT_VALUE", PyInt(1), "help", None),
                        ConfigEntry("BOOL_VALUE", PyBool(true), "help", None)];
      Save(Py(md5, clean), cfg, map[], map["INT_VALUE" := PyInt(5), "BOOL_VALUE" := PyBool(false)])
      == SaveResult(map["INT_VALUE" := PyInt(5), "BOOL_VALUE" := PyBool(false)], ["INT_VALUE", "BOOL_VALUE"])
  {
    var cfg := [ConfigEntry("INT_VALUE", PyInt(1), "help", None),
                ConfigEntry("BOOL_VALUE", PyBool(true), "help", None)];
    var cleaned := map["INT_VALUE" := PyInt(5), "BOOL_VALUE" := PyBool(false)];
    assert cfg[..1] == [cfg[0]] && cfg[..1][..0] == [];
    assert Save(Py(md5, clean), cfg[..1], map[], cleaned) == SaveResult(map["INT_VALUE" := PyInt(5)], ["INT_VALUE"]);
  }

  /** Submitting `1` for an entry whose default is `True` writes nothing:
      `getattr` reads `True`, and `True != 1` is False. */
  lemma EqualNumberNotWritten(md5: seq<byte> -> string, clean: (Field, map<string, PyValue>) -> Option<PyValue>)
    ensures Save(Py(md5, clean), [ConfigEntry("FLAG", PyBool(true), "", Some(IntType))], map[], map["FLAG" := PyInt(1)])
         == SaveResult(map[], [])
  {
    var cfg := [ConfigEntry("FLAG", PyBool(true), "", Some(IntType))];
    assert cfg[..0] == [];
  }

  /** With fieldsets configured, a CONFIG key missing from every list fails
      validation; fieldsets that list nothing do not. */
  lemma FieldsetCoverage()
    ensures Clean(Config, [Fieldset("Numbers", ["INT_VALUE"])]) == Fail(FieldsetsIncomplete)
    ensures Clean(Config, [Fieldset("Empty", [])]) == Pass
  {
    assert !Listed([Fieldset("Numbers", ["INT_VALUE"])], Config[1].name);
  }

  /** Under SUPERUSER_ONLY, a staff user the host would let change settings is
      turned away before anything is read. */
  lemma StaffDeniedUnderSuperuserOnly(md5: seq<byte> -> string,
                                      clean: (Field, map<string, PyValue>) -> Option<PyValue>,
                                      disp: Display<PyValue>, backend: map<string, PyValue>,
                                      post: Option<map<string, PyValue>>)
    ensures ChangelistView(Py(md5, clean), disp, Site(true), backend, Request(User(false, true), post))
         == Err(PermissionDenied)
  {
    ConfigNames();
  }
}
