/** The process-wide constance settings: the CONFIG registry, the fieldset
    grouping, the additional field table and the two admin flags. */
module Registry {
  import opened Types
  import opened FieldTable

  /** One CONSTANCE_CONFIG item, `name: (default, help_text[, type])`. */
  datatype ConfigEntry<V> = ConfigEntry(
    name: string,
    default: V,
    helpText: string,
    declared: Option<TypeTag>)

  /** One CONSTANCE_CONFIG_FIELDSETS item, `title: [names]`. */
  datatype Fieldset = Fieldset(title: string, names: seq<string>)

  datatype Settings<V> = Settings(
    config: seq<ConfigEntry<V>>,          // CONFIG, in iteration order
    configOrdered: bool,                  // CONFIG is an OrderedDict
    fieldsets: seq<Fieldset>,             // CONFIG_FIELDSETS; [] when unset or empty
    fieldsetsOrdered: bool,               // CONFIG_FIELDSETS is an OrderedDict
    additionalFields: map<TypeTag, RawField>,
    superuserOnly: bool,                  // SUPERUSER_ONLY
    ignoreAdminVersionCheck: bool)        // IGNORE_ADMIN_VERSION_CHECK
  {
    /** CONFIG and CONFIG_FIELDSETS are dictionaries: their keys are distinct.
        No CONFIG key is `version`, the name the form keeps its token under. */
    predicate WellFormed() {
      && UniqueNames(config)
      && "version" !in Names(config)
      && forall i, j :: 0 <= i < j < |fieldsets| ==> fieldsets[i].title != fieldsets[j].title
    }
  }

  predicate UniqueNames<V>(config: seq<ConfigEntry<V>>) {
    forall i, j :: 0 <= i < j < |config| ==> config[i].name != config[j].name
  }

  /** `CONFIG.keys()` */
  function Names<V>(config: seq<ConfigEntry<V>>): set<string> {
    set i | 0 <= i < |config| :: config[i].name
  }

  lemma NamesOfPrefix<V>(config: seq<ConfigEntry<V>>)
    requires |config| > 0
    ensures Names(config) == Names(config[..|config| - 1]) + {config[|config| - 1].name}
  {
    var init := config[..|config| - 1];
    forall n | n in Names(config)
      ensures n in Names(init) + {config[|config| - 1].name}
    {
      var i :| 0 <= i < |config| && config[i].name == n;
      if i < |config| - 1 {
        assert init[i] == config[i];
      }
    }
    forall n | n in Names(init)
      ensures n in Names(config)
    {
      var i :| 0 <= i < |init| && init[i].name == n;
      assert config[i] == init[i];
    }
  }

  /** The position of a CONFIG key. */
  lemma NameIndex<V>(config: seq<ConfigEntry<V>>, name: string) returns (i: nat)
    requires name in Names(config)
    ensures i < |config| && config[i].name == name
  {
    i :| 0 <= i < |config| && config[i].name == name;
  }

  /** Prefixes of a registry keep distinct names, and its last name is not in them. */
  lemma UniquePrefix<V>(config: seq<ConfigEntry<V>>)
    requires |config| > 0 && UniqueNames(config)
    ensures UniqueNames(config[..|config| - 1])
    ensures config[|config| - 1].name !in Names(config[..|config| - 1])
  {
  }

  /** `CONFIG.get(name)`, as the position of the entry with that name. */
  function IndexOf<V>(config: seq<ConfigEntry<V>>, name: string): (r: Option<nat>)
    ensures r.Some? <==> name in Names(config)
    ensures r.Some? ==> r.value < |config| && config[r.value].name == name
  {
    if |config| == 0 then None
    else if config[0].name == name then Some(0)
    else
      match IndexOf(config[1..], name)
      case None => None
      case Some(k) =>
        assert config[1..][k] == config[k + 1];
        Some(k + 1)
  }
}
