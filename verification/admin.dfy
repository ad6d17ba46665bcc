/** constance/admin.py: the initial values, the permission gate, the per-entry
    display record, the change-list context and the GET/POST control flow of
    `changelist_view`. */
module Admin {
  import opened Types
  import opened Registry
  import opened Backend
  import opened Sorting
  import opened Forms

  // ---------------------------------------------------------------------------
  // get_values
  // ---------------------------------------------------------------------------

  /** `dict((name, options[0]) for name, options in CONFIG.items())` */
  function Defaults<V>(config: seq<ConfigEntry<V>>): (r: map<string, V>)
    requires UniqueNames(config)
    ensures r.Keys == Names(config)
    ensures forall i :: 0 <= i < |config| ==> r[config[i].name] == config[i].default
    decreases |config|
  {
    if |config| == 0 then map[]
    else
      var init := config[..|config| - 1];
      var e := config[|config| - 1];
      UniquePrefix(config);
      NamesOfPrefix(config);
      var prev := Defaults(init);
      assert forall i :: 0 <= i < |init| ==> init[i] == config[i] && init[i].name != e.name;
      prev[e.name := e.default]
  }

  /** `get_values()`: every CONFIG name, with the value the backend stores
      where `mget` returned one (None included) and the default otherwise. */
  function GetValues<V>(config: seq<ConfigEntry<V>>, backend: map<string, V>): (r: map<string, V>)
    requires UniqueNames(config)
    ensures r.Keys == Names(config)
    ensures forall i :: 0 <= i < |config| && config[i].name in backend ==>
      r[config[i].name] == backend[config[i].name]
    ensures forall i :: 0 <= i < |config| && config[i].name !in backend ==>
      r[config[i].name] == config[i].default
  {
    Defaults(config) + Mget(backend, Names(config))
  }

  /** The initial value of an entry reads, through `getattr`, as its current
      value: they differ only where the backend stores None. */
  lemma InitialReadsAsCurrent<V>(isNone: V -> bool, config: seq<ConfigEntry<V>>, backend: map<string, V>, i: nat)
    requires UniqueNames(config) && i < |config|
    ensures ReadBack(isNone, GetValues(config, backend)[config[i].name], config[i]) == Current(isNone, backend, config[i])
    ensures GetValues(config, backend)[config[i].name] != Current(isNone, backend, config[i]) <==>
      config[i].name in backend && isNone(backend[config[i].name]) && backend[config[i].name] != config[i].default
  {
  }

  /** Saving values that all compare equal (`==`) to the current ones writes
      nothing and leaves the backend as it was. */
  lemma SaveOfCurrentWritesNothing<V>(rt: Runtime<V>, config: seq<ConfigEntry<V>>, backend: map<string, V>,
                                      cleaned: map<string, V>)
    requires UniqueNames(config)
    requires Names(config) <= cleaned.Keys
    requires forall i :: 0 <= i < |config| ==>
      !rt.differs(Current(rt.isNone, backend, config[i]), cleaned[config[i].name])
    ensures Save(rt, config, backend, cleaned) == SaveResult(backend, [])
  {
    var r := Save(rt, config, backend, cleaned);
    forall k
      ensures k !in r.writes
    {
      if k in Names(config) {
        var i := NameIndex(config, k);
      }
    }
    assert r.writes == [] by {
      if |r.writes| > 0 {
        HeadIsMember(r.writes);
        assert false;
      }
    }
    assert r.backend.Keys == backend.Keys;
  }

  /** Every value `getattr` reads for CONFIG compares equal to itself (no NaN). */
  predicate CurrentEqualsItself<V>(rt: Runtime<V>, config: seq<ConfigEntry<V>>, backend: map<string, V>) {
    forall i :: 0 <= i < |config| ==> EqualsItself(rt, Current(rt.isNone, backend, config[i]))
  }

  /** Saving exactly what `get_values` returned leaves the backend as it was,
      as long as every current value equals itself. It writes only the names
      stored as None whose default compares unequal to None: `getattr` reads
      those as the default, so the None is written back. With no None stored,
      nothing is written. */
  lemma SaveOfInitialValues<V>(rt: Runtime<V>, config: seq<ConfigEntry<V>>, backend: map<string, V>)
    requires UniqueNames(config)
    ensures var r := Save(rt, config, backend, GetValues(config, backend));
      CurrentEqualsItself(rt, config, backend) ==>
      && r.backend == backend
      && (forall i :: 0 <= i < |config| ==>
            (config[i].name in r.writes <==>
             config[i].name in backend && rt.isNone(backend[config[i].name])
             && rt.differs(config[i].default, backend[config[i].name])))
      && ((forall i :: 0 <= i < |config| && config[i].name in backend ==> !rt.isNone(backend[config[i].name]))
          ==> r.writes == [])
  {
    if CurrentEqualsItself(rt, config, backend) {
      InitialSaveWrites(rt, config, backend);
      InitialSaveKeepsBackend(rt, config, backend);
      if forall i :: 0 <= i < |config| && config[i].name in backend ==> !rt.isNone(backend[config[i].name]) {
        var cleaned := GetValues(config, backend);
        forall i | 0 <= i < |config|
          ensures !rt.differs(Current(rt.isNone, backend, config[i]), cleaned[config[i].name])
        {
          InitialWrittenIff(rt, config, backend, i);
        }
        SaveOfCurrentWritesNothing(rt, config, backend, cleaned);
      }
    }
  }

  /** The names a save of the `get_values` values writes. */
  lemma InitialSaveWrites<V>(rt: Runtime<V>, config: seq<ConfigEntry<V>>, backend: map<string, V>)
    requires UniqueNames(config) && CurrentEqualsItself(rt, config, backend)
    ensures var r := Save(rt, config, backend, GetValues(config, backend));
      forall i :: 0 <= i < |config| ==>
        (config[i].name in r.writes <==>
         config[i].name in backend && rt.isNone(backend[config[i].name])
         && rt.differs(config[i].default, backend[config[i].name]))
  {
    var r := Save(rt, config, backend, GetValues(config, backend));
    forall i | 0 <= i < |config|
      ensures config[i].name in r.writes <==>
        config[i].name in backend && rt.isNone(backend[config[i].name])
        && rt.differs(config[i].default, backend[config[i].name])
    {
      InitialWrittenIff(rt, config, backend, i);
    }
  }

  /** A save of the `get_values` values writes back only what is stored. */
  lemma InitialSaveKeepsBackend<V>(rt: Runtime<V>, config: seq<ConfigEntry<V>>, backend: map<string, V>)
    requires UniqueNames(config) && CurrentEqualsItself(rt, config, backend)
    ensures Save(rt, config, backend, GetValues(config, backend)).backend == backend
  {
    var r := Save(rt, config, backend, GetValues(config, backend));
    forall k | k in r.writes
      ensures k in backend && r.backend[k] == backend[k]
    {
      var i := NameIndex(config, k);
      InitialWrittenIff(rt, config, backend, i);
    }
    RewriteKeepsMap(backend, r.backend, r.writes);
  }

  /** Saving what `get_values` returned writes an entry whose current value
      equals itself exactly when it is stored as None and its default compares
      unequal to None. */
  lemma InitialWrittenIff<V>(rt: Runtime<V>, config: seq<ConfigEntry<V>>, backend: map<string, V>, i: nat)
    requires UniqueNames(config) && i < |config|
    requires EqualsItself(rt, Current(rt.isNone, backend, config[i]))
    ensures var initial := GetValues(config, backend);
      rt.differs(Current(rt.isNone, backend, config[i]), initial[config[i].name]) <==>
        config[i].name in backend && rt.isNone(backend[config[i].name])
        && rt.differs(config[i].default, backend[config[i].name])
  {
    InitialReadsAsCurrent(rt.isNone, config, backend, i);
  }

  /** Saving the same cleaned values a second time leaves the backend as the
      first save left it. It writes nothing when every cleaned value is other
      than None and equals itself; a None reads back as the default and so
      compares unequal again. */
  lemma SaveIsIdempotent<V>(rt: Runtime<V>, config: seq<ConfigEntry<V>>, backend: map<string, V>,
                            cleaned: map<string, V>)
    requires UniqueNames(config)
    requires Names(config) <= cleaned.Keys
    ensures var once := Save(rt, config, backend, cleaned).backend;
      && Save(rt, config, once, cleaned).backend == once
      && ((forall i :: 0 <= i < |config| ==>
             !rt.isNone(cleaned[config[i].name]) && EqualsItself(rt, cleaned[config[i].name]))
          ==> Save(rt, config, once, cleaned).writes == [])
  {
    var first := Save(rt, config, backend, cleaned);
    var once := first.backend;
    var second := Save(rt, config, once, cleaned);
    SecondSaveRewritesFirstWrites(rt, config, backend, cleaned);
    RewriteKeepsMap(once, second.backend, second.writes);
    if forall i :: 0 <= i < |config| ==>
         !rt.isNone(cleaned[config[i].name]) && EqualsItself(rt, cleaned[config[i].name]) {
      forall i | 0 <= i < |config|
        ensures !rt.differs(Current(rt.isNone, once, config[i]), cleaned[config[i].name])
      {
        assert EqualsItself(rt, cleaned[config[i].name]);
      }
      SaveOfCurrentWritesNothing(rt, config, once, cleaned);
    }
  }

  /** A second save writes only names the first one wrote: a name the first left
      alone already read as its cleaned value. */
  lemma SecondSaveRewritesFirstWrites<V>(rt: Runtime<V>, config: seq<ConfigEntry<V>>, backend: map<string, V>,
                                         cleaned: map<string, V>)
    requires UniqueNames(config)
    requires Names(config) <= cleaned.Keys
    ensures var first := Save(rt, config, backend, cleaned);
      forall k :: k in Save(rt, config, first.backend, cleaned).writes ==> k in first.writes
  {
    var first := Save(rt, config, backend, cleaned);
    var second := Save(rt, config, first.backend, cleaned);
    forall k | k in second.writes
      ensures k in first.writes
    {
      var i := NameIndex(config, k);
    }
  }

  /** Writing into a map, at each key, the value it already holds leaves it as
      it was. */
  lemma RewriteKeepsMap<V>(before: map<string, V>, after: map<string, V>, writes: seq<string>)
    requires forall k :: k in writes ==> k in before && k in after && after[k] == before[k]
    requires forall k :: k !in writes ==>
      (k in after <==> k in before) && (k in before ==> after[k] == before[k])
    ensures after == before
  {
    assert after.Keys == before.Keys;
  }

  /** The first element of a non-empty list is one of its elements. */
  lemma HeadIsMember(w: seq<string>)
    requires |w| > 0
    ensures w[0] in w
  {
  }

  /** So are the first two of a longer one. */
  lemma FirstTwoAreMembers(w: seq<string>)
    requires |w| > 1
    ensures w[0] in w && w[1] in w
  {
  }

  /** A map that differs from `before` at most at `name`, where it holds `v`,
      is `before[name := v]`. */
  lemma UpdatedAtOneKey<V>(before: map<string, V>, after: map<string, V>, name: string, v: V)
    requires name in after && after[name] == v
    requires forall k :: k != name ==>
      (k in after <==> k in before) && (k in before ==> after[k] == before[k])
    ensures after == before[name := v]
  {
  }

  /** A list of distinct elements, all equal to a member `x`, is `[x]`. */
  lemma OnlyElement(w: seq<string>, x: string)
    requires x in w
    requires forall k :: k in w ==> k == x
    requires forall i, j :: 0 <= i < j < |w| ==> w[i] != w[j]
    ensures w == [x]
  {
    if |w| > 1 {
      FirstTwoAreMembers(w);
      assert false;
    }
  }

  /** Cleaned values that compare equal (`==`) to the current ones except at
      entry `i`, where `!=` holds. */
  predicate ChangedOnlyAt<V>(rt: Runtime<V>, config: seq<ConfigEntry<V>>, backend: map<string, V>,
                             cleaned: map<string, V>, i: nat)
    requires Names(config) <= cleaned.Keys && i < |config|
  {
    && rt.differs(Current(rt.isNone, backend, config[i]), cleaned[config[i].name])
    && forall j :: 0 <= j < |config| && j != i ==>
         !rt.differs(Current(rt.isNone, backend, config[j]), cleaned[config[j].name])
  }

  /** Changing one value, the others equal to the current ones, writes exactly
      that key, with the new value. */
  lemma SaveOfOneChangeWritesOneKey<V>(rt: Runtime<V>, config: seq<ConfigEntry<V>>, backend: map<string, V>,
                                       cleaned: map<string, V>, i: nat)
    requires UniqueNames(config)
    requires Names(config) <= cleaned.Keys && i < |config|
    requires ChangedOnlyAt(rt, config, backend, cleaned, i)
    ensures var r := Save(rt, config, backend, cleaned);
      && r.writes == [config[i].name]
      && r.backend == backend[config[i].name := cleaned[config[i].name]]
  {
    var name := config[i].name;
    var r := Save(rt, config, backend, cleaned);
    OnlyChangedNameWritten(rt, config, backend, cleaned, i);
    OnlyElement(r.writes, name);
    UpdatedAtOneKey(backend, r.backend, name, cleaned[name]);
  }

  /** Changing one value, the others equal to the current ones, writes that
      name and no other. */
  lemma OnlyChangedNameWritten<V>(rt: Runtime<V>, config: seq<ConfigEntry<V>>, backend: map<string, V>,
                                  cleaned: map<string, V>, i: nat)
    requires UniqueNames(config)
    requires Names(config) <= cleaned.Keys && i < |config|
    requires ChangedOnlyAt(rt, config, backend, cleaned, i)
    ensures var r := Save(rt, config, backend, cleaned);
      && config[i].name in r.writes
      && forall k :: k in r.writes ==> k == config[i].name
  {
    var name := config[i].name;
    var r := Save(rt, config, backend, cleaned);
    forall k | k != name
      ensures k !in r.writes
    {
      if k in Names(config) {
        var j := NameIndex(config, k);
      }
    }
  }

  // ---------------------------------------------------------------------------
  // Permissions
  // ---------------------------------------------------------------------------

  /** The requesting user: superuser status, and what the host's own permission
      model answers for "change". */
  datatype User = User(isSuperuser: bool, hostMayChange: bool)

  /** `has_change_permission`: superusers only under SUPERUSER_ONLY, otherwise
      whatever the host's permission model says. */
  function HasChangePermission(superuserOnly: bool, user: User): (r: bool)
    ensures superuserOnly ==> (r <==> user.isSuperuser)
    ensures !superuserOnly ==> (r <==> user.hostMayChange)
  {
    if superuserOnly then user.isSuperuser else user.hostMayChange
  }

  /** `has_add_permission`: never. */
  function HasAddPermission(user: User): (r: bool)
    ensures !r
  {
    false
  }

  /** `has_delete_permission`: never. */
  function HasDeletePermission(user: User): (r: bool)
    ensures !r
  {
    false
  }

  // ---------------------------------------------------------------------------
  // get_config_value
  // ---------------------------------------------------------------------------

  /** The display functions the view relies on: `localize`, `ugettext`, and
      whether a field's widget is a CheckboxInput or a FileInput. */
  datatype Display<!V> = Display(
    localize: V -> string,
    translate: string -> string,
    isCheckbox: Field -> bool,
    isFile: Field -> bool)

  /** One element of the context's `config_values`. */
  datatype ConfigValue<V> = ConfigValue(
    name: string,
    default: string,        // localize(default)
    rawDefault: V,
    helpText: string,
    value: string,          // localize(value)
    modified: bool,
    formField: Field,
    isDate: bool,
    isDatetime: bool,
    isCheckbox: bool,
    isFile: bool)

  /** The value shown for an entry: `initial.get(name)`, or `getattr(config, name)`
      when that is None. */
  function ShownValue<V>(rt: Runtime<V>, backend: map<string, V>, initial: map<string, V>,
                         e: ConfigEntry<V>): (r: V)
    ensures e.name in initial && !rt.isNone(initial[e.name]) ==> r == initial[e.name]
    ensures r == e.default || !rt.isNone(r)
    ensures r != e.default && (e.name !in initial || rt.isNone(initial[e.name])) ==>
      e.name in backend && r == backend[e.name]
  {
    if e.name in initial && !rt.isNone(initial[e.name]) then initial[e.name] else Current(rt.isNone, backend, e)
  }

  /** `get_config_value`: the display record of one entry; `form[name]` raises
      KeyError when the form has no such field. */
  function GetConfigValue<V>(rt: Runtime<V>, disp: Display<V>, backend: map<string, V>, form: Form<V>,
                             e: ConfigEntry<V>): (r: Result<ConfigValue<V>>)
    ensures r.Err? <==> e.name !in form.fields
    ensures r.Err? ==> r.error == MissingFormField(e.name)
    ensures r.Ok? ==>
      && r.value.name == e.name
      && r.value.rawDefault == e.default
      && r.value.formField == form.fields[e.name]
      && r.value.helpText == disp.translate(e.helpText)
    ensures r.Ok? ==>
      && r.value.value == disp.localize(ShownValue(rt, backend, form.initial, e))
      && r.value.default == disp.localize(e.default)
    ensures r.Ok? ==> (r.value.modified <==> r.value.value != r.value.default)
    ensures r.Ok? ==>
      && r.value.isDate == rt.isInstance(e.default, DateType)
      && r.value.isDatetime == rt.isInstance(e.default, DateTimeType)
      && r.value.isCheckbox == disp.isCheckbox(form.fields[e.name])
      && r.value.isFile == disp.isFile(form.fields[e.name])
  {
    if e.name !in form.fields then Err(MissingFormField(e.name))
    else
      var value := ShownValue(rt, backend, form.initial, e);
      var field := form.fields[e.name];
      Ok(ConfigValue(
        e.name, disp.localize(e.default), e.default, disp.translate(e.helpText),
        disp.localize(value), disp.localize(value) != disp.localize(e.default), field,
        rt.isInstance(e.default, DateType), rt.isInstance(e.default, DateTimeType),
        disp.isCheckbox(field), disp.isFile(field)))
  }

  /** With the initial values from `get_values`, every entry shows its current
      value, `getattr(config, name)`. */
  lemma InitialShowsCurrent<V>(rt: Runtime<V>, backend: map<string, V>, config: seq<ConfigEntry<V>>, i: nat)
    requires UniqueNames(config) && i < |config|
    ensures ShownValue(rt, backend, GetValues(config, backend), config[i]) == Current(rt.isNone, backend, config[i])
  {
  }

  /** With the initial values from `get_values`, an entry the backend stores
      None for shows its default and is not marked modified. */
  lemma StoredNoneIsNotModified<V>(rt: Runtime<V>, disp: Display<V>, backend: map<string, V>,
                                   form: Form<V>, config: seq<ConfigEntry<V>>, i: nat)
    requires UniqueNames(config) && i < |config|
    requires form.initial == GetValues(config, backend)
    requires config[i].name in form.fields && config[i].name in backend
    requires rt.isNone(backend[config[i].name])
    ensures GetConfigValue(rt, disp, backend, form, config[i]).value.value
         == disp.localize(config[i].default)
    ensures !GetConfigValue(rt, disp, backend, form, config[i]).value.modified
  {
  }

  /** With the initial values from `get_values`, an entry the backend does not
      hold shows its default and is not marked modified. */
  lemma UnstoredEntryIsNotModified<V>(rt: Runtime<V>, disp: Display<V>, backend: map<string, V>,
                                      form: Form<V>, config: seq<ConfigEntry<V>>, i: nat)
    requires UniqueNames(config) && i < |config|
    requires form.initial == GetValues(config, backend)
    requires config[i].name in form.fields && config[i].name !in backend
    ensures GetConfigValue(rt, disp, backend, form, config[i]).value.value
         == disp.localize(config[i].default)
    ensures !GetConfigValue(rt, disp, backend, form, config[i]).value.modified
  {
  }

  /** With the initial values from `get_values`, an entry the backend holds a
      non-None value for shows that value, and is modified exactly when it
      displays differently from its default. */
  lemma StoredEntryModifiedIff<V>(rt: Runtime<V>, disp: Display<V>, backend: map<string, V>,
                                  form: Form<V>, config: seq<ConfigEntry<V>>, i: nat)
    requires UniqueNames(config) && i < |config|
    requires form.initial == GetValues(config, backend)
    requires config[i].name in form.fields && config[i].name in backend
    requires !rt.isNone(backend[config[i].name])
    ensures GetConfigValue(rt, disp, backend, form, config[i]).value.modified
        <==> disp.localize(backend[config[i].name]) != disp.localize(config[i].default)
  {
  }

  // ---------------------------------------------------------------------------
  // The change-list context
  // ---------------------------------------------------------------------------

  /** The form a context shows: the unbound form of a GET, or the bound form of
      a POST that did not validate. */
  datatype FormState<V> = Unbound(unbound: Form<V>) | Bound(bound: BoundForm<V>) {
    function TheForm(): Form<V> {
      match this
      case Unbound(f) => f
      case Bound(b) => b.form
    }
  }

  /** One element of the context's `fieldsets`. */
  datatype FieldsetView<V> = FieldsetView(title: string, configValues: seq<ConfigValue<V>>)

  /** The template context built by `changelist_view`; `fieldsets` is absent when
      CONFIG_FIELDSETS is not set. */
  datatype Context<V> = Context(
    form: FormState<V>,
    configValues: seq<ConfigValue<V>>,
    fieldsets: Option<seq<FieldsetView<V>>>)

  function NameOf<V>(c: ConfigValue<V>): string {
    c.name
  }

  function TitleOf<V>(f: FieldsetView<V>): string {
    f.title
  }

  /** The display records follow the names, one for one. */
  predicate Follows<V>(values: seq<ConfigValue<V>>, names: seq<string>) {
    |values| == |names| && forall j :: 0 <= j < |names| ==> values[j].name == names[j]
  }

  /** `get_config_value` for each entry, in order; the first entry without a form
      field raises. */
  function ConfigValues<V>(rt: Runtime<V>, disp: Display<V>, backend: map<string, V>, form: Form<V>,
                           entries: seq<ConfigEntry<V>>): (r: Result<seq<ConfigValue<V>>>)
    ensures r.Ok? <==> forall i :: 0 <= i < |entries| ==> entries[i].name in form.fields
    ensures r.Ok? ==> |r.value| == |entries|
    ensures r.Ok? ==> forall i :: 0 <= i < |entries| ==>
      Ok(r.value[i]) == GetConfigValue(rt, disp, backend, form, entries[i])
    ensures r.Err? ==> exists i :: (0 <= i < |entries| && entries[i].name !in form.fields
      && r.error == MissingFormField(entries[i].name)
      && forall j :: 0 <= j < i ==> entries[j].name in form.fields)
  {
    if |entries| == 0 then Ok([])
    else
      var v :- GetConfigValue(rt, disp, backend, form, entries[0]);
      var rest := ConfigValues(rt, disp, backend, form, entries[1..]);
      if rest.Err? then
        assert exists i :: 1 <= i < |entries| && entries[i].name !in form.fields
          && rest.error == MissingFormField(entries[i].name)
          && forall j :: 0 <= j < i ==> entries[j].name in form.fields by {
          var k :| 0 <= k < |entries[1..]| && entries[1..][k].name !in form.fields
            && rest.error == MissingFormField(entries[1..][k].name)
            && forall j :: 0 <= j < k ==> entries[1..][j].name in form.fields;
          assert forall j :: 0 <= j < k + 1 ==> entries[j].name in form.fields by {
            forall j | 0 <= j < k + 1 ensures entries[j].name in form.fields {
              if j > 0 {
                assert entries[j] == entries[1..][j - 1];
              }
            }
          }
          assert entries[k + 1] == entries[1..][k];
        }
        Err(rest.error)
      else
        Ok([v] + rest.value)
  }

  /** The records of one fieldset's list, in list order; a name that is not in
      CONFIG is skipped (`if options:`), and the first listed entry without a
      form field raises. */
  function FieldsetValues<V>(rt: Runtime<V>, disp: Display<V>, backend: map<string, V>, form: Form<V>,
                             config: seq<ConfigEntry<V>>, names: seq<string>): (r: Result<seq<ConfigValue<V>>>)
    ensures r.Ok? <==> forall j :: 0 <= j < |names| && names[j] in Names(config) ==> names[j] in form.fields
    ensures r.Ok? && (forall j :: 0 <= j < |names| ==> names[j] in Names(config)) ==>
      && |r.value| == |names|
      && forall j :: 0 <= j < |names| ==>
           Ok(r.value[j]) == GetConfigValue(rt, disp, backend, form, config[IndexOf(config, names[j]).value])
    ensures r.Err? ==> exists j :: (0 <= j < |names| && names[j] in Names(config) && names[j] !in form.fields
      && r.error == MissingFormField(names[j])
      && forall i :: 0 <= i < j && names[i] in Names(config) ==> names[i] in form.fields)
  {
    if |names| == 0 then Ok([])
    else
      match IndexOf(config, names[0])
      case None =>
        var rest := FieldsetValues(rt, disp, backend, form, config, names[1..]);
        FieldsetValuesShift(rt, disp, backend, form, config, names, rest);
        rest
      case Some(k) =>
        var v :- GetConfigValue(rt, disp, backend, form, config[k]);
        var rest := FieldsetValues(rt, disp, backend, form, config, names[1..]);
        FieldsetValuesShift(rt, disp, backend, form, config, names, rest);
        if rest.Err? then Err(rest.error)
        else
          FieldsetValuesCons(rt, disp, backend, form, config, names, v, rest.value);
          Ok([v] + rest.value)
  }

  /** Putting the record of the first name in front of the records of the
      others lines each record up with its name. */
  lemma FieldsetValuesCons<V>(rt: Runtime<V>, disp: Display<V>, backend: map<string, V>, form: Form<V>,
                              config: seq<ConfigEntry<V>>, names: seq<string>, v: ConfigValue<V>,
                              rest: seq<ConfigValue<V>>)
    requires |names| > 0 && names[0] in Names(config)
    requires Ok(v) == GetConfigValue(rt, disp, backend, form, config[IndexOf(config, names[0]).value])
    requires (forall j :: 0 <= j < |names[1..]| ==> names[1..][j] in Names(config)) ==>
      && |rest| == |names[1..]|
      && forall j :: 0 <= j < |names[1..]| ==>
           Ok(rest[j]) == GetConfigValue(rt, disp, backend, form, config[IndexOf(config, names[1..][j]).value])
    ensures (forall j :: 0 <= j < |names| ==> names[j] in Names(config)) ==>
      && |[v] + rest| == |names|
      && forall j :: 0 <= j < |names| ==>
           Ok(([v] + rest)[j]) == GetConfigValue(rt, disp, backend, form, config[IndexOf(config, names[j]).value])
  {
    if forall j :: 0 <= j < |names| ==> names[j] in Names(config) {
      var tail := names[1..];
      forall j | 0 <= j < |tail|
        ensures tail[j] in Names(config)
      {
        assert tail[j] == names[j + 1];
      }
      var recordOf := (n: string, c: ConfigValue<V>) =>
        n in Names(config) && Ok(c) == GetConfigValue(rt, disp, backend, form, config[IndexOf(config, n).value]);
      ConsPointwise(names, v, rest, recordOf);
    }
  }

  /** What the contract of `FieldsetValues` on the tail of a list says about the
      whole list's tail positions. */
  lemma FieldsetValuesShift<V>(rt: Runtime<V>, disp: Display<V>, backend: map<string, V>, form: Form<V>,
                               config: seq<ConfigEntry<V>>, names: seq<string>, rest: Result<seq<ConfigValue<V>>>)
    requires |names| > 0
    requires rest.Ok? <==> forall j :: 0 <= j < |names[1..]| && names[1..][j] in Names(config) ==> names[1..][j] in form.fields
    requires rest.Err? ==> exists j :: (0 <= j < |names[1..]| && names[1..][j] in Names(config)
      && names[1..][j] !in form.fields && rest.error == MissingFormField(names[1..][j])
      && forall i :: 0 <= i < j && names[1..][i] in Names(config) ==> names[1..][i] in form.fields)
    ensures rest.Ok? <==> forall j :: 1 <= j < |names| && names[j] in Names(config) ==> names[j] in form.fields
    ensures rest.Err? && (names[0] in Names(config) ==> names[0] in form.fields) ==>
      exists j :: (0 <= j < |names| && names[j] in Names(config) && names[j] !in form.fields
        && rest.error == MissingFormField(names[j])
        && forall i :: 0 <= i < j && names[i] in Names(config) ==> names[i] in form.fields)
  {
    assert forall j :: 1 <= j < |names| ==> names[j] == names[1..][j - 1];
    if rest.Err? && (names[0] in Names(config) ==> names[0] in form.fields) {
      var k :| 0 <= k < |names[1..]| && names[1..][k] in Names(config)
        && names[1..][k] !in form.fields && rest.error == MissingFormField(names[1..][k])
        && forall i :: 0 <= i < k && names[1..][i] in Names(config) ==> names[1..][i] in form.fields;
      assert names[k + 1] == names[1..][k];
      assert forall i :: 0 <= i < k + 1 && names[i] in Names(config) ==> names[i] in form.fields;
    }
  }

  /** A relation that holds between the head and its item, and pointwise along
      the tails, holds pointwise along the whole lists. */
  lemma ConsPointwise<A, B>(names: seq<A>, v: B, rest: seq<B>, related: (A, B) -> bool)
    requires |names| > 0 && |rest| == |names| - 1
    requires related(names[0], v)
    requires forall j :: 0 <= j < |rest| ==> related(names[1..][j], rest[j])
    ensures forall j :: 0 <= j < |names| ==> related(names[j], ([v] + rest)[j])
  {
    forall j | 0 <= j < |names|
      ensures related(names[j], ([v] + rest)[j])
    {
      if j > 0 {
        assert names[j] == names[1..][j - 1] && ([v] + rest)[j] == rest[j - 1];
      }
    }
  }

  /** Every name listed by a fieldset is a CONFIG key (the render-time assertion). */
  predicate FieldsetsKnown<V>(config: seq<ConfigEntry<V>>, fieldsets: seq<Fieldset>) {
    forall i, n :: 0 <= i < |fieldsets| && n in fieldsets[i].names ==> n in Names(config)
  }

  /** The fieldset records, in CONFIG_FIELDSETS order; a fieldset listing a name
      that is not a CONFIG key fails the assertion. */
  function FieldsetViews<V>(rt: Runtime<V>, disp: Display<V>, backend: map<string, V>, form: Form<V>,
                            config: seq<ConfigEntry<V>>, fieldsets: seq<Fieldset>)
    : (r: Result<seq<FieldsetView<V>>>)
    ensures r.Ok? ==> FieldsetsKnown(config, fieldsets)
    ensures FieldsetsKnown(config, fieldsets) && Names(config) <= form.fields.Keys ==> r.Ok?
    ensures r.Ok? ==> |r.value| == |fieldsets|
    ensures r.Ok? ==> forall i :: 0 <= i < |fieldsets| ==>
      && r.value[i].title == fieldsets[i].title
      && Follows(r.value[i].configValues, fieldsets[i].names)
      && Ok(r.value[i].configValues) == FieldsetValues(rt, disp, backend, form, config, fieldsets[i].names)
    ensures r.Err? && Names(config) <= form.fields.Keys ==>
      exists i :: 0 <= i < |fieldsets| && r.error == FieldsetUnknownName(fieldsets[i].title)
  {
    if |fieldsets| == 0 then Ok([])
    else
      var f := fieldsets[0];
      if !(forall n :: n in f.names ==> n in Names(config)) then Err(FieldsetUnknownName(f.title))
      else
        var values :- FieldsetValues(rt, disp, backend, form, config, f.names);
        var rest :- FieldsetViews(rt, disp, backend, form, config, fieldsets[1..]);
        FieldsetViewsCons(rt, disp, backend, form, config, fieldsets, values, rest);
        Ok([FieldsetView(f.title, values)] + rest)
  }

  /** Putting the record of the first fieldset in front of the records of the
      others lines each record up with its fieldset. */
  lemma FieldsetViewsCons<V>(rt: Runtime<V>, disp: Display<V>, backend: map<string, V>, form: Form<V>,
                             config: seq<ConfigEntry<V>>, fieldsets: seq<Fieldset>,
                             values: seq<ConfigValue<V>>, rest: seq<FieldsetView<V>>)
    requires |fieldsets| > 0
    requires Ok(values) == FieldsetValues(rt, disp, backend, form, config, fieldsets[0].names)
    requires forall n :: n in fieldsets[0].names ==> n in Names(config)
    requires |rest| == |fieldsets[1..]|
    requires forall i :: 0 <= i < |fieldsets[1..]| ==>
      && rest[i].title == fieldsets[1..][i].title
      && Follows(rest[i].configValues, fieldsets[1..][i].names)
      && Ok(rest[i].configValues) == FieldsetValues(rt, disp, backend, form, config, fieldsets[1..][i].names)
    ensures var r := [FieldsetView(fieldsets[0].title, values)] + rest;
      forall i :: 0 <= i < |fieldsets| ==>
        && r[i].title == fieldsets[i].title
        && Follows(r[i].configValues, fieldsets[i].names)
        && Ok(r[i].configValues) == FieldsetValues(rt, disp, backend, form, config, fieldsets[i].names)
  {
    var r := [FieldsetView(fieldsets[0].title, values)] + rest;
    assert Follows(values, fieldsets[0].names) by {
      forall j | 0 <= j < |fieldsets[0].names|
        ensures fieldsets[0].names[j] in Names(config)
      {
        assert fieldsets[0].names[j] in fieldsets[0].names;
      }
    }
    forall i | 1 <= i < |fieldsets|
      ensures r[i] == rest[i - 1] && fieldsets[i] == fieldsets[1..][i - 1]
    {
    }
  }

  /** The record shows one of the fieldsets, following its list. */
  predicate ViewOfSome<V>(view: FieldsetView<V>, fieldsets: seq<Fieldset>) {
    exists k :: 0 <= k < |fieldsets| && view.title == fieldsets[k].title && Follows(view.configValues, fieldsets[k].names)
  }

  /** `config_values` as rendered: in CONFIG order for an OrderedDict, otherwise
      sorted by name. */
  function OrderConfigValues<V(==)>(ordered: bool, values: seq<ConfigValue<V>>): (r: seq<ConfigValue<V>>)
    ensures multiset(r) == multiset(values)
    ensures ordered ==> r == values
    ensures !ordered ==> SortedBy(r, NameOf)
  {
    if ordered then values else SortBy(values, NameOf)
  }

  /** `fieldsets` as rendered: in CONFIG_FIELDSETS order for an OrderedDict,
      otherwise sorted by title. */
  function OrderFieldsets<V(==)>(ordered: bool, views: seq<FieldsetView<V>>): (r: seq<FieldsetView<V>>)
    ensures multiset(r) == multiset(views)
    ensures ordered ==> r == views
    ensures !ordered ==> SortedBy(r, TitleOf)
  {
    if ordered then views else SortBy(views, TitleOf)
  }

  /** The context's `fieldsets`: absent without CONFIG_FIELDSETS; otherwise one
      record per fieldset, each following its list. */
  function FieldsetsContext<V(==)>(rt: Runtime<V>, disp: Display<V>, s: Settings<V>, backend: map<string, V>,
                                   form: Form<V>): (r: Result<Option<seq<FieldsetView<V>>>>)
    ensures r.Ok? ==> (r.value.Some? <==> |s.fieldsets| > 0)
    ensures |s.fieldsets| > 0 && r.Ok? ==> FieldsetsKnown(s.config, s.fieldsets)
    ensures (|s.fieldsets| > 0 ==> FieldsetsKnown(s.config, s.fieldsets)) && Names(s.config) <= form.fields.Keys
      ==> r.Ok?
    ensures r.Ok? && r.value.Some? ==>
      var views := r.value.value;
      && |views| == |s.fieldsets|
      && (forall i :: 0 <= i < |views| ==> ViewOfSome(views[i], s.fieldsets))
      && (!s.fieldsetsOrdered ==> SortedBy(views, TitleOf))
      && var built := FieldsetViews(rt, disp, backend, form, s.config, s.fieldsets);
         && built.Ok?
         && multiset(views) == multiset(built.value)
         && (s.fieldsetsOrdered ==> views == built.value)
  {
    if |s.fieldsets| == 0 then Ok(None)
    else
      var views :- FieldsetViews(rt, disp, backend, form, s.config, s.fieldsets);
      var shown := OrderFieldsets(s.fieldsetsOrdered, views);
      forall i | 0 <= i < |shown|
        ensures ViewOfSome(shown[i], s.fieldsets)
      {
        assert shown[i] in multiset(views);
        var k :| 0 <= k < |views| && views[k] == shown[i];
        assert shown[i].title == s.fieldsets[k].title;
      }
      Ok(Some(shown))
  }

  /** A permutation of records whose names lie in `names` has its names there too,
      and keeps every record. */
  lemma PermutedRecords<V>(values: seq<ConfigValue<V>>, shown: seq<ConfigValue<V>>, names: set<string>)
    requires multiset(values) == multiset(shown)
    requires forall i :: 0 <= i < |values| ==> values[i].name in names
    ensures forall j :: 0 <= j < |shown| ==> shown[j].name in names
    ensures forall i :: 0 <= i < |values| ==> values[i] in shown
  {
    forall j | 0 <= j < |shown|
      ensures shown[j].name in names
    {
      assert shown[j] in multiset(values);
      var i :| 0 <= i < |values| && values[i] == shown[j];
    }
    forall i | 0 <= i < |values|
      ensures values[i] in shown
    {
      assert values[i] in multiset(shown);
    }
  }

  /** The context's `config_values`: one record per CONFIG entry, in CONFIG order
      for an OrderedDict and sorted by name otherwise. */
  function ConfigValuesContext<V(==)>(rt: Runtime<V>, disp: Display<V>, config: seq<ConfigEntry<V>>,
                                      ordered: bool, backend: map<string, V>, form: Form<V>)
    : (r: Result<seq<ConfigValue<V>>>)
    ensures r.Ok? <==> Names(config) <= form.fields.Keys
    ensures r.Ok? ==> |r.value| == |config|
    ensures r.Ok? ==> forall i :: 0 <= i < |config| ==>
      GetConfigValue(rt, disp, backend, form, config[i]).value in r.value
    ensures r.Ok? ==> forall j :: 0 <= j < |r.value| ==> r.value[j].name in Names(config)
    ensures r.Ok? && ordered ==> forall i :: 0 <= i < |config| ==>
      r.value[i] == GetConfigValue(rt, disp, backend, form, config[i]).value
    ensures r.Ok? && !ordered ==> SortedBy(r.value, NameOf)
  {
    assert Names(config) <= form.fields.Keys <==>
      forall i :: 0 <= i < |config| ==> config[i].name in form.fields;
    var values :- ConfigValues(rt, disp, backend, form, config);
    var shown := OrderConfigValues(ordered, values);
    assert forall i :: 0 <= i < |values| ==> values[i].name == config[i].name;
    PermutedRecords(values, shown, Names(config));
    Ok(shown)
  }

  /** The context of `changelist_view`: the config records and the fieldset
      records, or the first error building them. */
  function BuildContext<V(==)>(rt: Runtime<V>, disp: Display<V>, s: Settings<V>, backend: map<string, V>,
                               state: FormState<V>): (r: Result<Context<V>>)
    ensures r.Ok? <==>
      && Names(s.config) <= state.TheForm().fields.Keys
      && (|s.fieldsets| > 0 ==> FieldsetsKnown(s.config, s.fieldsets))
    ensures r.Ok? ==> r.value.form == state
    ensures r.Ok? ==>
      r.value.configValues == ConfigValuesContext(rt, disp, s.config, s.configOrdered, backend, state.TheForm()).value
    ensures r.Ok? ==> r.value.fieldsets == FieldsetsContext(rt, disp, s, backend, state.TheForm()).value
  {
    var form := state.TheForm();
    var values :- ConfigValuesContext(rt, disp, s.config, s.configOrdered, backend, form);
    var fieldsets :- FieldsetsContext(rt, disp, s, backend, form);
    Ok(Context(state, values, fieldsets))
  }

  // ---------------------------------------------------------------------------
  // changelist_view
  // ---------------------------------------------------------------------------

  /** A request to the change list: the user and, for a POST, the submitted data. */
  datatype Request<V> = Request(user: User, post: Option<map<string, V>>)

  /** A redirect after a successful save, or a rendered page. */
  datatype Response<V> = Redirect(saved: SaveResult<V>) | Render(context: Context<V>)

  /** `changelist_view` for ConstanceForm. Permission comes first; the initial
      values are read and the form built, so a form that cannot be built fails
      a GET and a POST alike; a valid POST is saved and redirected,
      while a GET or an invalid POST renders the context. */
  function ChangelistView<V(==)>(rt: Runtime<V>, disp: Display<V>, s: Settings<V>, backend: map<string, V>,
                                 req: Request<V>): (r: Result<Response<V>>)
    requires s.WellFormed()
    ensures !HasChangePermission(s.superuserOnly, req.user) ==> r == Err(PermissionDenied)
    ensures HasChangePermission(s.superuserOnly, req.user) && ViewForm(rt, s, backend).Err? ==>
      r == Err(ViewForm(rt, s, backend).error)
    ensures r.Ok? ==> HasChangePermission(s.superuserOnly, req.user)
    ensures r.Ok? && r.value.Redirect? ==> req.post.Some?
    ensures r.Ok? && r.value.Render? ==> (r.value.context.form.Bound? <==> req.post.Some?)
    ensures r.Ok? && r.value.Render? && req.post.Some? ==>
      !r.value.context.form.bound.IsValid() && r.value.context.form.bound.data == req.post.value
  {
    if !HasChangePermission(s.superuserOnly, req.user) then Err(PermissionDenied)
    else
      var initial := GetValues(s.config, backend);
      var selected :- SelectFields(s.config, Unset, Unset);
      var form :- BuildForm(rt, s, selected, initial);
      match req.post
      case None =>
        var ctx :- BuildContext(rt, disp, s, backend, Unbound(form));
        Ok(Render(ctx))
      case Some(data) =>
        var bound := Bind(rt, s, form, data);
        if bound.IsValid() then
          Ok(Redirect(Save(rt, s.config, backend, bound.cleaned)))
        else
          var ctx :- BuildContext(rt, disp, s, backend, Bound(bound));
          Ok(Render(ctx))
  }

  /** The form ConstanceForm builds for this backend. */
  function ViewForm<V>(rt: Runtime<V>, s: Settings<V>, backend: map<string, V>): Result<Form<V>>
    requires s.WellFormed()
  {
    BuildForm(rt, s, Names(s.config), GetValues(s.config, backend))
  }

  /** A GET with change permission renders the context of the unbound form
      built from `get_values`. It fails only if CONFIG has an entry that does
      not resolve to a field, or a fieldset lists a name that is not a CONFIG
      key; otherwise the page holds one record per CONFIG entry. */
  lemma GetRendersContext<V>(rt: Runtime<V>, disp: Display<V>, s: Settings<V>,
                                 backend: map<string, V>, req: Request<V>)
    requires s.WellFormed()
    requires HasChangePermission(s.superuserOnly, req.user)
    requires req.post.None?
    ensures var vf := ViewForm(rt, s, backend);
      var r := ChangelistView(rt, disp, s, backend, req);
      && (vf.Err? ==> r == Err(vf.error))
      && (vf.Ok? ==>
            var c := BuildContext(rt, disp, s, backend, Unbound(vf.value));
            r == if c.Ok? then Ok(Render(c.value)) else Err(c.error))
      && (r.Ok? <==> vf.Ok? && (|s.fieldsets| > 0 ==> FieldsetsKnown(s.config, s.fieldsets)))
      && (r.Ok? ==>
            && r.value.Render?
            && r.value.context.form == Unbound(vf.value)
            && vf.value.initial == GetValues(s.config, backend)
            && |r.value.context.configValues| == |s.config|)
  {
  }

  /** A valid POST saves the cleaned values and redirects: the keys written are
      exactly those whose cleaned value differs from the stored one. */
  lemma ValidPostSavesAndRedirects<V>(rt: Runtime<V>, disp: Display<V>, s: Settings<V>,
                                          backend: map<string, V>, req: Request<V>, form: Form<V>)
    requires s.WellFormed()
    requires HasChangePermission(s.superuserOnly, req.user)
    requires req.post.Some?
    requires ViewForm(rt, s, backend) == Ok(form)
    requires Bind(rt, s, form, req.post.value).IsValid()
    ensures var cleaned := Bind(rt, s, form, req.post.value).cleaned;
      && Names(s.config) <= cleaned.Keys
      && ChangelistView(rt, disp, s, backend, req) == Ok(Redirect(Save(rt, s.config, backend, cleaned)))
  {
  }

  /** Submitting the form unchanged redirects and leaves the backend as it was;
      with no None stored, nothing is written. */
  lemma UnchangedPostKeepsBackend<V>(rt: Runtime<V>, disp: Display<V>, s: Settings<V>,
                                          backend: map<string, V>, req: Request<V>, form: Form<V>)
    requires s.WellFormed()
    requires HasChangePermission(s.superuserOnly, req.user)
    requires req.post.Some?
    requires ViewForm(rt, s, backend) == Ok(form)
    requires Bind(rt, s, form, req.post.value).IsValid()
    requires Bind(rt, s, form, req.post.value).cleaned == GetValues(s.config, backend)
    ensures var r := ChangelistView(rt, disp, s, backend, req);
      && r.Ok? && r.value.Redirect?
      && (CurrentEqualsItself(rt, s.config, backend) ==>
            && r.value.saved.backend == backend
            && ((forall n :: n in backend ==> !rt.isNone(backend[n])) ==> r.value.saved.writes == []))
  {
    SaveOfInitialValues(rt, s.config, backend);
  }

  /** A POST that does not validate is not saved: the bound form is rendered. */
  lemma InvalidPostRenders<V>(rt: Runtime<V>, disp: Display<V>, s: Settings<V>,
                                  backend: map<string, V>, req: Request<V>, form: Form<V>)
    requires s.WellFormed()
    requires HasChangePermission(s.superuserOnly, req.user)
    requires req.post.Some?
    requires ViewForm(rt, s, backend) == Ok(form)
    ensures var b := Bind(rt, s, form, req.post.value);
      var c := BuildContext(rt, disp, s, backend, Bound(b));
      !b.IsValid() ==>
        ChangelistView(rt, disp, s, backend, req) == if c.Ok? then Ok(Render(c.value)) else Err(c.error)
  {
  }
}
