# django-constance: the settings form and the admin change list, in Dafny

django-constance stores "live" settings in a key-value backend. A process-wide
registry, `CONSTANCE_CONFIG`, maps each name to a default, a help text and an
optional declared type. Operators edit the values through one Django admin page.
This project models the two files that hold that page's logic, as pure
functions over immutable data:

- `constance/forms.py`. The FIELDS table maps a Python type to a form field
  class and its options. `CONSTANCE_ADDITIONAL_FIELDS` extends it. The
  metaclass selects which CONFIG names become fields. The form constructor
  resolves each entry's type to a field and computes the MD5 version token
  over the initial values. The file also holds `clean_version`, `clean`
  (fieldset coverage) and the diff-write part of `save`.
- `constance/admin.py`. `get_values` overlays the defaults with the backend's
  values. `get_config_value` builds the display record of one entry.
  `changelist_view` is modelled with its permission gate, its GET/POST flow and
  its context, which holds the per-entry records and the fieldset records,
  sorted unless the settings are OrderedDicts. The file also holds the three
  `has_*_permission` methods.

Modules follow the source: `Types` (bytes, Option, Result, the Python classes
and the raised exceptions), `FieldTable` (FIELDS and
`parse_additional_fields`), `Registry` (the settings), `Backend` (the backend
as a finite map, `getattr(config, name)` and `mget`), `Sorting` (`list.sort`
on string keys), `Forms`, `Admin`, and `Examples` (concrete instances,
including the cases of `tests/test_form.py`).

Configuration values have an opaque type `V`. Everything the code asks of
the Python runtime or of Django is a function-valued parameter:

- `Runtime`: `type()`, `isinstance`, `is None`, Python's `!=`, `smart_bytes`, the MD5 hex
  digest, the POST keys a field's widget reads for a name (a split date-time
  widget reads `NAME_0` and `NAME_1`), and a field's `clean` of what its
  widget read.
- `Display`: `localize`, `ugettext`, and whether a field's widget is a
  CheckboxInput or a FileInput.

Every raised exception is an `Err` of a `Result`. `save` returns the new
backend map together with the list of names it wrote.

The stale-form message of `clean_version` (`constance/forms.py:182-184`)
says that a form submitted after someone else changed the settings is
rejected. The code does not do this during validation. The metaclass replaces
`base_fields` (`constance/forms.py:120`), so the declared `version` field is
never a field of the form, and `clean_version` never runs during `is_valid`.
`Forms.Bind` therefore performs no token check, and
`Forms.VersionTokenNotChecked` proves that the submitted token cannot change
the outcome. `Forms.CleanVersion` models `clean_version` on its own, and the
stale-token properties are proved about it.

## Model

| member | source | states |
|---|---|---|
| FieldTable.ParseAdditionalField | constance/forms.py:48-68 | the field class is the configured path; a 1-tuple gets empty options; a `widget` path becomes a widget built with `widget_kwargs` (or none), and `widget_kwargs` is then removed; without `widget` the options are kept |
| FieldTable.Fields | constance/forms.py:31-71 | the table's keys are the nine built-in types plus the additional keys; an additional entry replaces a built-in one, every other built-in entry is kept |
| Registry.IndexOf | constance/admin.py:126-127 | `CONFIG.get(name)` finds an entry exactly when the name is a CONFIG key, and the entry it finds carries that name |
| Backend.Mget | constance/admin.py:33 | `mget` returns exactly the requested keys the backend holds, with the backend's values |
| Sorting.SortBy | constance/admin.py:136-140 | sorting by a string key yields a permutation of the input that is ordered by the key |
| Forms.FirstUnknown | constance/forms.py:108-115 | finds the first listed name that is not a CONFIG key, and finds none exactly when all are keys |
| Forms.SelectFields | constance/forms.py:94-120 | a bare string other than `'__all__'` in `fields` (checked first) or `exclude` is a TypeError; an allow-list succeeds iff every name is a CONFIG key, then selects exactly the listed names, else fails on the first unknown one; unset or `'__all__'` selects every key |
| Forms.SelectionCount | constance/forms.py:108-111 | an allow-list of k distinct CONFIG keys yields exactly k fields |
| Forms.ExcludeIgnored | constance/forms.py:94-118 | apart from the bare-string check, `exclude` never changes the selection |
| Forms.FieldFor | constance/forms.py:136-157 | a declared type that is not an additional key and does not admit the default is ImproperlyConfigured; the type is the declared one, else the default's exact runtime type; a type missing from FIELDS is ImproperlyConfigured; otherwise the field is `FIELDS[type]` labelled with the name |
| Forms.DeclaringRuntimeTypeIsRedundant | constance/forms.py:137-147 | declaring the default's own runtime type resolves to the same field as declaring nothing |
| Forms.FormFieldsSpec | constance/forms.py:132-157 | the constructor loop succeeds iff every selected entry resolves; it then has one field per selected key, that entry's field; otherwise its error is the first failing selected entry's, in CONFIG order |
| Forms.BuildForm | constance/forms.py:128-160 | the constructed form has exactly the selected fields, each resolved from its entry, keeps the initial values, and carries the digest of the selected initial values in CONFIG order as its version |
| Forms.VersionIgnoresUnselected | constance/forms.py:130-160 | the version token depends only on the bytes of the selected names' initial values (a missing value counts as empty) |
| Forms.SingleChangeAltersVersionInput | constance/forms.py:132-159 | changing the bytes of one selected value, of any length, the others staying the same, changes the digest input |
| Forms.VersionUnchangedOutside | constance/forms.py:132-159 | a change to a name that is not among the entries leaves the digest input as it was |
| Forms.CleanVersion | constance/forms.py:175-185 | the token is accepted iff the override flag is set or it equals the construction-time token, and is returned unchanged; otherwise it is a stale-form ValidationError |
| Forms.UnchangedTokenAccepted | constance/forms.py:175-185 | a token issued for values whose selected bytes are unchanged is accepted by a later form |
| Forms.ConcurrentChangeRejected | constance/forms.py:175-185 | a token issued before another editor changed the bytes of one selected value (to any length) is rejected as stale unless the override flag is set, assuming the digest does not collide |
| Forms.AllListed | constance/forms.py:193-196 | the concatenated fieldset lists contain exactly the listed names, and are empty iff every list is empty |
| Forms.Clean | constance/forms.py:187-201 | validation fails iff some fieldset lists a name and some CONFIG key is listed by no fieldset; names that are not CONFIG keys never make it fail |
| Forms.Bind | constance/admin.py:92-95 | every field of the form either cleans what its widget reads from the POST data or is in error, never both; the cleaned data are those clean results; the form-wide check is `clean` |
| Forms.VersionTokenNotChecked | constance/forms.py:118-126 | whatever is submitted as `version`, validity and cleaned data are unchanged, as long as no field's widget reads the `version` key |
| Forms.Save | constance/forms.py:171-173 | a name is written iff `getattr(config, name) != cleaned` holds under Python's `!=` (so `True` over `1` is not written); a written name then reads, through `getattr`, its cleaned value (the default for a cleaned None); written keys hold their cleaned value, all other keys are untouched, and no key is written twice |
| Backend.Current | constance/forms.py:172 | `getattr(config, name)` reads the entry's default or a stored value that is not None; anything other than the default is the stored value, and a stored value that is not None is what it reads |
| Backend.CurrentReadsBack | constance/forms.py:172 | a value read through `getattr`, stored back, reads as itself |
| Admin.Defaults | constance/admin.py:30-31 | the defaults map has exactly the CONFIG names, each with its default |
| Admin.GetValues | constance/admin.py:23-35 | the initial map has exactly the CONFIG names; each holds the backend's value where `mget` returns one (None included) and the default otherwise |
| Admin.InitialReadsAsCurrent | constance/admin.py:23-35 | an initial value reads through `getattr` as the current value, and differs from it exactly where the backend stores a None that is not the default |
| Admin.SaveOfCurrentWritesNothing | constance/forms.py:171-173 | saving values that compare equal (`==`) to the current ones performs no write and leaves the backend as it was |
| Admin.InitialWrittenIff | constance/forms.py:171-173 | saving the `get_values` value of an entry whose current value equals itself writes it iff it is stored as None and its default compares unequal to None |
| Admin.SaveOfInitialValues | constance/forms.py:171-173 | when every current value equals itself, saving exactly what `get_values` returned leaves the backend as it was, writes exactly the names stored as None whose default compares unequal to None, and so writes nothing when no None is stored |
| Admin.SaveIsIdempotent | constance/forms.py:171-173 | saving the same cleaned values twice leaves the backend as the first save left it, and the second save writes nothing when every cleaned value is other than None and equals itself |
| Admin.SecondSaveRewritesFirstWrites | constance/forms.py:171-173 | a second save of the same cleaned values writes only names the first save wrote |
| Admin.OnlyChangedNameWritten | constance/forms.py:171-173 | when one cleaned value compares unequal (`!=`) to the current one and all others compare equal, that name is written and no other |
| Admin.SaveOfOneChangeWritesOneKey | constance/forms.py:171-173 | when one cleaned value compares unequal to the current one and all others compare equal, exactly that key is written, and the backend becomes the old one updated at that key |
| Admin.HasChangePermission | constance/admin.py:150-153 | under SUPERUSER_ONLY permission is `is_superuser`; otherwise it is the host's answer |
| Admin.HasAddPermission | constance/admin.py:144-145 | adding is never permitted |
| Admin.HasDeletePermission | constance/admin.py:147-148 | deleting is never permitted |
| Admin.ShownValue | constance/admin.py:56-59 | the value shown is the initial value when that is not None; otherwise it is what `getattr` reads, so it is never None unless the default is |
| Admin.GetConfigValue | constance/admin.py:53-74 | a name without a form field is a KeyError; otherwise the record shows the initial value, or the current value when that is None, with `modified` iff value and default display differently, and date/datetime/checkbox/file flags taken from the default and the widget |
| Admin.InitialShowsCurrent | constance/admin.py:56-59 | with the `get_values` initial map, every entry shows what `getattr` reads |
| Admin.StoredNoneIsNotModified | constance/admin.py:56-66 | with the `get_values` initial map, an entry stored as None shows its default and is not modified |
| Admin.UnstoredEntryIsNotModified | constance/admin.py:56-66 | with the `get_values` initial map, an entry the backend does not hold shows its default and is not modified |
| Admin.StoredEntryModifiedIff | constance/admin.py:56-66 | with the `get_values` initial map, a stored non-None value is modified iff it displays differently from the default |
| Admin.ConfigValues | constance/admin.py:113-116 | one record per entry, in order, each that entry's `get_config_value`; otherwise the KeyError of the first entry without a field |
| Admin.FieldsetValues | constance/admin.py:123-130 | succeeds iff every listed CONFIG key has a form field; when all listed names are keys, record j is `get_config_value` of the entry named j-th; otherwise the KeyError of the first listed key the form lacks |
| Admin.FieldsetViews | constance/admin.py:118-135 | succeeds only if every listed name is a CONFIG key (the assertion), and does so when the form has every key; one record per fieldset, in order, titled, following its list, and holding that list's `get_config_value` records |
| Admin.OrderConfigValues | constance/admin.py:139-140 | the records are a permutation of the input, unchanged for an OrderedDict and sorted by name otherwise |
| Admin.OrderFieldsets | constance/admin.py:136-137 | the fieldset records are a permutation of the input, unchanged for an OrderedDict and sorted by title otherwise |
| Admin.FieldsetsContext | constance/admin.py:118-137 | no `fieldsets` without CONFIG_FIELDSETS; otherwise a permutation of the fieldset records built in CONFIG_FIELDSETS order, each showing some fieldset and following its list, equal to the built records for an OrderedDict and sorted by title otherwise |
| Admin.ConfigValuesContext | constance/admin.py:113-140 | `config_values` has one record per CONFIG entry, each entry's record present, only CONFIG names, in CONFIG order when ordered and sorted by name otherwise |
| Admin.BuildContext | constance/admin.py:103-140 | the context exists iff the form has every CONFIG key and, with fieldsets, every listed name is a key; it carries the form, the config records and the fieldset records |
| Admin.ChangelistView | constance/admin.py:85-142 | without change permission it is PermissionDenied, whatever the backend; with permission, a form that cannot be built (`form_cls(initial=initial)` raising) fails a GET and a POST alike with that error; a redirect only follows a POST; a render shows the bound form exactly for a POST, and then the form is invalid and bound to the submitted data |
| Admin.ValidPostSavesAndRedirects | constance/admin.py:91-102 | a valid POST saves the cleaned data and redirects |
| Admin.GetRendersContext | constance/admin.py:88-142 | a permitted GET renders the context of the unbound form built from `get_values`, or fails with that form's or that context's error; it succeeds iff every entry resolves and the fieldset assertion holds, and then shows one record per CONFIG entry |
| Admin.UnchangedPostKeepsBackend | constance/admin.py:88-102 | a valid POST whose cleaned data equal the initial values redirects; when every current value equals itself it leaves the backend as it was, writing nothing when no None is stored |
| Admin.InvalidPostRenders | constance/admin.py:91-116 | an invalid POST renders the bound form's context |
| Examples.BareStringFieldsRejected | tests/test_form.py:29-39 | `fields = 'abc'` is a TypeError |
| Examples.UnknownNameRejected | tests/test_form.py:41-51 | `fields = ('john', 'doe', 'INT_VALUE')` is a FieldError naming 'john' |
| Examples.AllowListSizes | tests/test_form.py:53-70 | three listed keys give three fields; `'__all__'` gives every key |
| Examples.FieldTypes | tests/test_form.py:9-27 | int, bool, datetime and the additional email type resolve to IntegerField, BooleanField, SplitDateTimeField and the imported EmailField |
| Examples.FormOfSite | tests/test_form.py:9-27 | the site's form has exactly its four keys as fields: IntegerField, BooleanField, SplitDateTimeField and the imported EmailField |
| Examples.DeclaredTypes | constance/forms.py:136-157 | `True` declared as int becomes an IntegerField, a number declared as str is ImproperlyConfigured, and an undeclared None is unsupported |
| Examples.ConcatenationCollision | constance/forms.py:159-160 | moving a character from one value to the next leaves the version token unchanged |
| Examples.TwoEntrySave | constance/forms.py:171-173 | new values for both entries are both written, in CONFIG order |
| Examples.EqualNumberNotWritten | constance/forms.py:172 | submitting `1` over a default of `True` writes nothing, since `True != 1` is False |
| Examples.FieldsetCoverage | constance/forms.py:187-201 | a key missing from a non-empty fieldset listing fails validation; lists that are all empty pass |
| Examples.StaffDeniedUnderSuperuserOnly | constance/admin.py:150-153 | under SUPERUSER_ONLY a non-superuser is denied whatever the host allows |

## Left out

- File uploads in `save` (`constance/forms.py:163-169`) write to the filesystem. They are not modelled, and a file field's cleaned value is taken as it is.
- `import_string` in `parse_additional_fields` is a foreign call. Field classes and widgets are identified by their dotted path. Only the shape normalisation is modelled.
- MD5 and `smart_bytes` are the `Runtime` parameters `md5Hex` and `bytesOf`. No property of MD5 is assumed. `Forms.ConcurrentChangeRejected` names the absence of a collision as a precondition.
- `localize`, `ugettext` and the widget class tests are the `Display` parameters.
- Django's field cleaning (`full_clean` per field) is the `Runtime` parameter `cleanField`.
- The Python 2 branch that adds `long` and `unicode` to FIELDS (`constance/forms.py:73-77`) is left out. The model is of the Python 3 code.
- The backend and `LazyConfig` are a finite map. `constance/base.py` is not part of this model. `getattr(config, name)` is taken to read the stored value when it is not None and the default otherwise, with no side effect (no write-back of the default).
- Settings.WellFormed: a CONFIG key named `version` is excluded. The form would overwrite its initial value with the version token (`constance/forms.py:160`), and Django would run `clean_version` on its field. That aliasing is not modelled.
- Forms.Bind: `request.FILES` is not passed to the fields. A file field cleans only what its widget reads from the POST data, because file uploads are left out (see above).
- `changelist_view` always uses ConstanceForm, which selects every CONFIG key. `get_changelist_form` returning a customised class is not modelled.
- These parts of the view are left out: the flash message, the redirect target, `request.current_app`, CSRF, TemplateResponse, the context keys other than `form`, `config_values` and `fieldsets`, and `media`.
- Also left out: `get_urls`, the `Config.Meta` shim and `admin.site.register`. They are routing and registration glue.
- Admin.SaveOfInitialValues: what a save of the `get_values` values writes is stated only when every current value equals itself. A float NaN does not: the source then writes it again on every save, and the model does the same through `!=`, but no lemma describes that case.
- Admin.SaveIsIdempotent: that the second save writes nothing is stated only when no cleaned value is a NaN, for the same reason.
- Admin.UnchangedPostKeepsBackend: the unchanged backend is stated only when every current value equals itself, for the same reason.
- Admin.ChangelistView: `assert` statements are modelled as always active. Under `python -O` the fieldset assertion (`constance/admin.py:122`) would be skipped. An unknown listed name would then be skipped silently.
- Forms.FieldFor: `isinstance(default, config_type)` with a `config_type` that is not a class raises TypeError in Python. The model treats `isInstance` as total.
- FieldTable.ParseAdditionalField: `widget_kwargs` must be a dictionary. A falsy non-dict value, which `or {}` also accepts, is modelled as absent.
- Forms.SelectFields: Django's own `DeclarativeFieldsMetaclass` step is left out. Declared fields are dropped when `base_fields` is replaced, so it has no visible effect.
