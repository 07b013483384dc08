# joaogrilo: settings registry and comment feature gate, in Dafny

This project models two deterministic pieces of the joaogrilo WordPress plugin.
The WordPress runtime is replaced by finite maps.

1. **The settings registry of `JoaoGrilo_Settings_API`.** The model keeps an
   ordered list of section records and an ordered table from section id to
   field records. It covers the operations on them:
   - `set_sections`, `add_section`, `set_fields`, `add_field`;
   - `get_sanitize_callback`, where the first field with the name decides;
   - `sanitize_options`;
   - the class's `get_option`;
   - the two loops of `admin_init`: default seeding and field registration;
   - the tab order of `show_navigation`.
2. **The comment feature gate of `classes/comment.php`.** This is the
   decision from the stored `joaogrilo_comments` option and the
   `page_comments` flag to the set of enabled comment features. It comes with
   the transforms those features install.

Modules:

- `Php` (`php.dfy`) holds PHP values (`Null | Bool | Int | Str | Arr`),
  truthiness, `isset` on array offsets, the loose comparison of a bool with
  another value, and `wp_parse_args`.
- `WordPress` (`php.dfy`) holds the options table as
  `map<string, Value>` and `get_option` with a default. A section's option
  is a `Value`, and usually an `Arr`. This is richer than a map of maps, so
  the scalar `page_comments` option and the `'Nothing Found'` fallback string
  both fit.
- `SettingsRegistry` (`settings_registry.dfy`) holds sections, field records
  and the field table. The field table is a sequence of (section key, field
  list) pairs with distinct keys, because PHP arrays keep insertion order.
  The module also has the set/add operations and the navigation tabs.
- `SettingsSanitize` (`settings_sanitize.dfy`) holds the callback lookup and
  `sanitize_options`. `callable` stands for `is_callable` and `apply` stands
  for `call_user_func`. Both are uninterpreted function parameters.
- `SettingsInit` (`settings_init.dfy`) covers default seeding, the emitted
  `add_option` / `add_settings_section` / `add_settings_field` /
  `register_setting` records, the class's `get_option`, and the
  `section[name]` id rule.
- `CommentGate` (`comment.dfy`) holds the feature decision, the comment
  filters, the redirect test, and the removal of post-type support.

The PHP semantics follow PHP 5.4 through 7.x. The source needs at least
5.4 for `isset` on a string offset with a non-numeric key to be false, and
at most 7.x because `admin_init` calls `create_function`, which PHP 8
removed.

Some PHP details are modelled as the code behaves:

- `empty($slug)` is also true for `"0"`. So `get_sanitize_callback("0")`
  answers `false`.
- `isset` ignores a key whose value is null.
- `false == get_option(id)` is true for every falsy stored value, not only
  for a missing option.
- `isset($v[k]) == 'on'` is the same as `isset($v[k])`.

## Model

| member | source | states |
|---|---|---|
| `Php.ParseArgs` | settings/class-settings-api.php:139 | the merged array has every key of both arrays; where both have a key, the caller's value wins |
| `WordPress.GetOption` | classes/comment.php:11 | returns the stored value when the option exists and the given default otherwise |
| `SettingsRegistry.SetSections` | settings/class-settings-api.php:103-107 | the section list becomes exactly the argument; the field table is unchanged |
| `SettingsRegistry.AddSection` | settings/class-settings-api.php:114-118 | exactly one section is appended; the old sections keep their order as a prefix; the field table is unchanged |
| `SettingsRegistry.SetFields` | settings/class-settings-api.php:125-129 | the field table becomes exactly the argument; the sections are unchanged |
| `SettingsRegistry.WithDefaults` | settings/class-settings-api.php:132-139 | the stored record has every caller key with the caller's value; a missing `name`, `label` or `desc` becomes `''` and a missing `type` becomes `'text'` |
| `SettingsRegistry.AppendField` | settings/class-settings-api.php:140 | the keys stay distinct; an existing key keeps its position, and a new key goes at the end; the target list gains the record at its end; every other section's list is unchanged |
| `SettingsRegistry.AddField` | settings/class-settings-api.php:131-143 | the defaulted record is appended to the end of that section's list; other sections' lists and the sections are unchanged |
| `SettingsRegistry.NavigationTabs` | settings/class-settings-api.php:510-520 | one tab per section, so the tab count equals the section count |
| `SettingsRegistry.NavigationTabsAt` | settings/class-settings-api.php:510-520 | the i-th tab is the i-th section's tab (`#id`, `id-tab`, title) |
| `SettingsRegistry.AddSectionAppendsTab` | settings/class-settings-api.php:513-515 | after `add_section` the tabs are the old tabs in order, followed by one tab for the new section |
| `SettingsSanitize.CallbackOf` | settings/class-settings-api.php:473 | a matching field yields its callback exactly when `sanitize_callback` is set and callable, otherwise `false` |
| `SettingsSanitize.FindInFields` | settings/class-settings-api.php:467-475 | the inner loop yields a field of the section with the slug as name, or reports that no field of the section has that name |
| `SettingsSanitize.FindInTable` | settings/class-settings-api.php:466-476 | the outer loop yields a registered field with the slug as name, or reports that no section holds such a field |
| `SettingsSanitize.GetSanitizeCallback` | settings/class-settings-api.php:460-478 | an empty slug (`''` or `'0'`) yields `false`; any callback returned is callable |
| `SettingsSanitize.FindInTableIsFirst` | settings/class-settings-api.php:466-475 | the nested loops find the same field as the first field with that name in the flattened order (sections in key order, then fields in order) |
| `SettingsSanitize.FirstMatchDecides` | settings/class-settings-api.php:466-474 | for a non-empty slug, the result is the first same-named field's callback if it is set and callable, and `false` otherwise |
| `SettingsSanitize.UnknownSlugHasNoCallback` | settings/class-settings-api.php:477 | when no registered field has the name, the result is `false` |
| `SettingsSanitize.LaterCallbackIsShadowed` | settings/class-settings-api.php:466-474 | a first match without a callback yields `false` even when a later field with that name has a callable callback |
| `SettingsSanitize.Sanitized` | settings/class-settings-api.php:439-444 | a value is replaced by the callback applied to it exactly when a truthy callback was found; otherwise it stays as submitted |
| `SettingsSanitize.SanitizeOptions` | settings/class-settings-api.php:436-448 | the result has exactly the submitted keys; a key with no callback keeps its value |
| `SettingsSanitize.SanitizeKeepsUnregistered` | settings/class-settings-api.php:436-448 | a submitted key that no field is named after comes back unchanged |
| `SettingsSanitize.SanitizeAppliesFirstCallback` | settings/class-settings-api.php:436-448 | a key whose first field has a callable, truthy callback comes back as that callback applied to the submitted value |
| `SettingsInit.FieldDefault` | settings/class-settings-api.php:166 | the seeded value is the field's `default` when that is set and `''` otherwise, so it is never null |
| `SettingsInit.SectionDefaults` | settings/class-settings-api.php:163-167 | the seeded array has one key per field name of the section; each value is the default of the last field with that name, or `''`; no value is null |
| `SettingsInit.NeedsSeedingExactly` | settings/class-settings-api.php:160 | the seeding test `NeedsSeeding` holds exactly when the section's option is missing or stored with a falsy value |
| `SettingsInit.SeedDefaults` | settings/class-settings-api.php:159-170 | each emitted `add_option` belongs to a listed section whose stored option is missing or falsy, and carries that section's default array; every such section gets one |
| `SettingsInit.GetFieldOption` | settings/class-settings-api.php:491-500 | returns the stored value when the key is set in the section's stored array; returns the default when the section option is missing, is not an array, or lacks the key |
| `SettingsInit.SeededDefaultsReadBack` | settings/class-settings-api.php:491-500 | once a section's seeded defaults are stored, reading a field back gives the default of the last field with that name, whatever fallback is passed |
| `SettingsInit.FieldId` | settings/class-settings-api.php:201 | the id is the section key, `[`, the field name and `]`, in that order and nothing else |
| `SettingsInit.FieldIdRoundTrip` | settings/class-settings-api.php:201 | when the section has no `[` and the name no `]`, PHP's split of the posted name `section[name]` gives back the section and the name when both are non-empty; an empty name is appended to the section's array instead, and an empty section drops the value |
| `SettingsInit.FieldArgs` | settings/class-settings-api.php:190-199 | the renderer arguments have exactly eight keys: `id` is the field's name, `name` its label, `section` the section key, `std` its default; `desc`, `size`, `options` and `sanitize_callback` are the field's own when set, else `''`, null, `''` and `''` |
| `SettingsInit.RegisterField` | settings/class-settings-api.php:186-201 | the id is `section[name]`; the title is the field's label; a set type is used as is and an unset one registers as `'text'`; page and section are the section key; the arguments are the field's renderer arguments |
| `SettingsInit.AddedFieldRegistration` | settings/class-settings-api.php:188-201 | a field added through `add_field` registers with the caller's label or `''` as title, and with the caller's type or `'text'` |
| `SettingsInit.RegisterSectionFields` | settings/class-settings-api.php:186-202 | the inner loop registers the section's fields one for one, in order |
| `SettingsInit.FieldRegistrations` | settings/class-settings-api.php:185-203 | one registration per field; registration i belongs to the i-th field in the flattened order, with that field's section |
| `SettingsInit.RegisterSection` | settings/class-settings-api.php:172-181 | the section registers under its id; it echoes its description exactly when the description is set and non-empty, and uses `__return_false` otherwise |
| `SettingsInit.AdminInit` | settings/class-settings-api.php:156-209 | `add_option` is emitted exactly for the listed sections whose option is missing or falsy, each with that section's default array; registration i is the i-th section's registration, and `register_setting` i uses the i-th section id; field registration i is the registration of the i-th field in flattened order |
| `CommentGate.Decide` | classes/comment.php:13-67 | feature N is on exactly when box N is considered on; `page_comments` also closes comments and pings; boxes 4 and 7 also need `remove_menu` to exist and the admin bar to show |
| `CommentGate.CheckedAsWrittenIsIsset` | classes/comment.php:13 | the written test `GateAsWritten` (the key's `isset` compared loosely with `'on'`) holds exactly when the key is set |
| `CommentGate.EnabledFeatures` | classes/comment.php:8-68 | each of features 1, 3, 5 and 6 is on exactly when its `comments-checkbox-N` key is set, whatever the value; 4 and 7 also need the host condition; the closed filters are on exactly when `page_comments` is truthy or checkbox 2 is set |
| `CommentGate.MissingOptionOnlyPageComments` | classes/comment.php:11-13 | with no stored option the `'Nothing Found'` fallback enables nothing, except the closed filters when `page_comments` is truthy |
| `CommentGate.StoredOffStillEnables` | classes/comment.php:13-57 | a checkbox key stored as `'off'` still switches its feature on (for boxes 4 and 7, when the host condition holds) |
| `CommentGate.CheckboxSubmission` | settings/class-settings-api.php:242-243 | a saved checkbox stores `'on'` exactly when checked, and the hidden input's `'off'` otherwise |
| `CommentGate.SavedFormEnablesEveryBox` | classes/comment.php:13-57 | as written, once the checkbox form is saved, every box counts as on, whichever boxes were checked |
| `CommentGate.UncheckedFormStillDisables` | classes/comment.php:13-49 | a form saved with every box unchecked still strips comment support and redirects the comments page |
| `CommentGate.IntendedFeatures` | classes/comment.php:8-68 | the corrected gate: with no stored option, at most the closed filters are on |
| `CommentGate.IntendedFeaturesFollowForm` | classes/comment.php:13-57 | with the corrected gate, a saved form switches on exactly the features of the checked boxes |
| `CommentGate.CommentsStatusFilter` | classes/comment.php:98-100 | the `comments_open`/`pings_open` filter always answers false |
| `CommentGate.HideCommentsFilter` | classes/comment.php:107-112 | the `comments_array` filter returns the empty list for every input |
| `CommentGate.CommentsClosedExactly` | classes/comment.php:19-24 | after the filters, a post reads as open exactly when WordPress says open and neither `page_comments` nor checkbox 2 is set |
| `CommentGate.CommentsHiddenExactly` | classes/comment.php:26-30 | after the filters, the comment list is empty when checkbox 3 is set and unchanged otherwise |
| `CommentGate.AdminRedirectExactly` | classes/comment.php:119-129 | the redirect fires exactly when checkbox 5 is set and the current page is `edit-comments.php`, which is the page test `RedirectsFrom` |
| `CommentGate.WithoutCommentSupport` | classes/comment.php:78-91 | no post type supports `comments` afterwards; a type that had it loses exactly `comments` and `trackbacks`; other types are unchanged; the same post types remain |
| `CommentGate.WithoutCommentSupportIdempotent` | classes/comment.php:78-91 | stripping comment support a second time changes nothing |
| `CommentGate.DisablePostTypesSupport` | classes/comment.php:78-91 | the loop strips `comments` and `trackbacks` from exactly the listed types that supported comments; when every registered type is listed, it agrees with `WithoutCommentSupport` |

## Left out

- Script and style enqueueing, `script()`, `show_forms` and the HTML bodies of the `callback_*` renderers are browser and markup plumbing. The model keeps only the `section[name]` naming rule (`FieldId`) and the value a checkbox posts.
- The singleton `instance()` and the constructor's hook registration are global-state plumbing.
- `add_action`, `add_filter`, `add_settings_section`, `add_settings_field`, `register_setting` and `add_option` are modelled as emitted records or as a feature set. What WordPress does with them is not modelled. In particular, `add_option` refusing to overwrite an existing option is not modelled; `SeededDefaultsReadBack` describes the store after the option was written.
- `wp_redirect`/`exit`, `remove_menu`, `remove_meta_box`, `remove_action` and `joaogrilo_disable_comments_dashboard` are host side effects. `function_exists('remove_menu')` and `is_admin_bar_showing()` enter as the `Host` parameter.
- What sanitize callbacks do is not modelled; they are uninterpreted (`callable`, `apply`).
- `SettingsSanitize.NameOf`: a field's name counts only when it is a string. A missing or null name reads as `''`, as in PHP. A non-string name such as an integer also reads as `''`, which is not what PHP does. PHP's loose comparison of numeric strings (`'1' == '01'`) is modelled as exact string equality.
- `wp_parse_args` also accepts a query string such as `'name=x&type=text'` as the field. Fields are modelled as arrays only, so that form of `add_field` is not modelled.
- `Php.Isset`: the model treats `isset` on any value that is not an array as false. In PHP 5.4 and later this matches a string offset with a non-numeric key. Before 5.4 such an offset counted as set, and `MissingOptionOnlyPageComments` would not hold. PHP also treats an integer-like key within the string's length as set (`isset('abc'['1'])`). The `comments-checkbox-N` keys are never integer-like, so the comment gate is unaffected.
- `SettingsInit.GetFieldOption`: when a section's stored option is a non-empty string and the field name is integer-like and within its length, PHP returns that character of the string; the model returns the default. Field names come from the settings pages that register them, which are not part of this model.
- Array keys are strings only. Floats and objects are not among the modelled values.
- `SettingsInit.RegisterSection`: the description callback is the wrapped description text. PHP's interpolation of `$` and backslash escapes inside the `create_function` body is not modelled.
- `SettingsInit.SeedDefaults`: each section is checked against the store as it was before seeding. If two sections share an id, PHP may see the first section's `add_option` when it checks the second.
- `SettingsInit.FieldIdRoundTrip`: PHP's rewriting of `.` and spaces to `_` in posted names is not modelled. Posted names of other shapes than `base[key]` (no closing bracket, text after it, nested brackets) are rejected by `ParseFieldId` rather than split as PHP would.
- `SettingsSanitize.SanitizeOptions`: a submitted value that is not an array is not modelled. PHP would warn and return it as is.
- `SettingsRegistry.Section`: a section is assumed to carry a string `id` and `title`; the source reads both without checking. When a section id has no entry in the field table (a PHP warning at line 165), its field list is read as empty.
- `SettingsRegistry.NavigationTabsAt`: only the tab order, anchors, element ids and titles are modelled, not the HTML.

## Findings

| source | as written | input that shows it | evidently intended | confidence | as-written member | corrected member |
|---|---|---|---|---|---|---|
| classes/comment.php:13-57 | `isset( $comments_value['comments-checkbox-N'] ) == 'on'` compares a bool with `'on'`, so it only tests whether the key is set | the checkbox form saved with every box unchecked stores `'off'` under each key (the hidden input of settings/class-settings-api.php:242), and every gated feature is then on | `$comments_value['comments-checkbox-N'] == 'on'` behind an `isset` guard | medium, not executed; it assumes the plugin's comment settings page renders these boxes with `callback_checkbox`, and that page is not part of this model | `CommentGate.SavedFormEnablesEveryBox` | `CommentGate.IntendedFeaturesFollowForm` |

The transforms (`CommentsOpenAfterGate`, `CommentsShownAfterGate`, `AdminRedirects`) take the set of enabled features as a parameter. They therefore work with either gate. The lemmas about them are stated for the gate as written, because that is how the plugin behaves.
