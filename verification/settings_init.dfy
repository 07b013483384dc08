/**
  What `admin_init` derives from the registry: the default option array
  seeded for each section that has no truthy stored option, the records
  handed to `add_settings_section`, `add_settings_field` and
  `register_setting`, and the class's own `get_option` reader.
 */
module SettingsInit {
  import opened Php
  import opened WordPress
  import opened SettingsRegistry
  import opened SettingsSanitize

  /** The value a field seeds and shows before anything is saved: its
      `default` entry when that is set, the empty string otherwise. */
  function FieldDefault(f: Field): (v: Value)
    ensures v != Null
    ensures IssetKey(f, "default") ==> v == f["default"]
    ensures !IssetKey(f, "default") ==> v == Str("")
  {
    IssetOr(f, "default", Str(""))
  }

  /** Field `i` is the last field of `fs` carrying its name. */
  predicate LastOfName(fs: seq<Field>, i: int)
  {
    && 0 <= i < |fs|
    && forall j :: i < j < |fs| ==> NameOf(fs[j]) != NameOf(fs[i])
  }

  /** The default option array of one section: one key per field name, and
      for a repeated name the later field's default. */
  function SectionDefaults(fs: seq<Field>): (d: PhpArray)
    ensures d.Keys == set f | f in fs :: NameOf(f)
    ensures forall i :: LastOfName(fs, i) ==> d[NameOf(fs[i])] == FieldDefault(fs[i])
    ensures forall k :: k in d ==> d[k] != Null
    decreases |fs|
  {
    if |fs| == 0 then map[]
    else
      var init := fs[..|fs| - 1];
      var last := fs[|fs| - 1];
      assert fs == init + [last];
      var d := SectionDefaults(init);
      DefaultsSnoc(init, last, d);
      d[NameOf(last) := FieldDefault(last)]
  }

  /** One step of the seeding loop: the entry for the next field is written
      over whatever an earlier field of the same name left. */
  lemma DefaultsSnoc(init: seq<Field>, last: Field, d: PhpArray)
    requires d.Keys == set f | f in init :: NameOf(f)
    requires forall i :: LastOfName(init, i) ==> d[NameOf(init[i])] == FieldDefault(init[i])
    requires forall k :: k in d ==> d[k] != Null
    ensures var fs := init + [last]; var d' := d[NameOf(last) := FieldDefault(last)];
            && d'.Keys == (set f | f in fs :: NameOf(f))
            && (forall i :: LastOfName(fs, i) ==> d'[NameOf(fs[i])] == FieldDefault(fs[i]))
            && (forall k :: k in d' ==> d'[k] != Null)
  {
    var fs := init + [last];
    var d' := d[NameOf(last) := FieldDefault(last)];
    assert d'.Keys == (set f | f in fs :: NameOf(f)) by {
      assert forall f :: f in fs <==> f in init || f == last;
    }
    forall i | LastOfName(fs, i)
      ensures d'[NameOf(fs[i])] == FieldDefault(fs[i])
    {
      if i < |init| {
        assert fs[i] == init[i];
        assert NameOf(fs[|fs| - 1]) != NameOf(fs[i]);
        forall j | i < j < |init|
          ensures NameOf(init[j]) != NameOf(init[i])
        {
          assert fs[j] == init[j];
        }
        assert LastOfName(init, i);
      }
    }
  }

  /** The seeding test of `admin_init`: the section's option is missing or
      stored with a falsy value (a loose comparison with `false`). */
  predicate NeedsSeeding(store: OptionsTable, id: string)
  {
    LooseEqualsBool(false, GetOption(store, id, Bool(false)))
  }

  /** The seeding test holds exactly when the option is missing or falsy:
      a stored `'0'`, `''`, `0` or empty array gets an `add_option` call as well. */
  lemma NeedsSeedingExactly(store: OptionsTable, id: string)
    ensures NeedsSeeding(store, id) <==> id !in store || !Truthy(store[id])
  {
  }

  /** One `add_option` call: the option name and the array stored under it. */
  datatype AddOption = AddOption(option: string, value: PhpArray)

  function SectionIds(sections: seq<Section>): set<string>
  {
    set s | s in sections :: s.id
  }

  /** The first loop of `admin_init`: one `add_option` per section whose
      stored option is falsy, carrying that section's default array. */
  function SeedDefaults(store: OptionsTable, sections: seq<Section>, t: seq<SectionFields>): (adds: seq<AddOption>)
    ensures |adds| <= |sections|
    ensures forall a :: a in adds ==>
              && a.option in SectionIds(sections)
              && (a.option !in store || !Truthy(store[a.option]))
              && a.value == SectionDefaults(FieldsOf(t, a.option))
    ensures forall s :: s in sections && (s.id !in store || !Truthy(store[s.id])) ==>
              AddOption(s.id, SectionDefaults(FieldsOf(t, s.id))) in adds
    decreases |sections|
  {
    if |sections| == 0 then []
    else
      var s := sections[0];
      var rest := SeedDefaults(store, sections[1..], t);
      assert SectionIds(sections) == {s.id} + SectionIds(sections[1..]) by {
        assert sections == [s] + sections[1..];
      }
      assert forall x :: x in sections && x != s ==> x in sections[1..] by {
        assert sections == [s] + sections[1..];
      }
      if NeedsSeeding(store, s.id) then [AddOption(s.id, SectionDefaults(FieldsOf(t, s.id)))] + rest
      else rest
  }

  /** The class's `get_option($option, $section, $default)`: the stored value
      when `$option` is set in the section's option array, else `$default`. */
  function GetFieldOption(store: OptionsTable, option: string, section: string, default: Value): (r: Value)
    ensures section in store && Isset(store[section], option) ==> r == store[section].entries[option]
    ensures section !in store ==> r == default
    ensures section in store && !Isset(store[section], option) ==> r == default
  {
    var options := GetOption(store, section, Bool(false));
    if Isset(options, option) then options.entries[option] else default
  }

  /** Once a section's seeded defaults are stored, reading any of its fields
      back gives the default of the last field with that name, whatever
      fallback the caller passes. */
  lemma SeededDefaultsReadBack(store: OptionsTable, sec: string, fs: seq<Field>, i: int, fallback: Value)
    requires LastOfName(fs, i)
    ensures GetFieldOption(store[sec := Arr(SectionDefaults(fs))], NameOf(fs[i]), sec, fallback) == FieldDefault(fs[i])
  {
    assert fs[i] in fs;
  }

  /** The id a field registers under, which is also its form input name:
      the section key, then the field name in brackets. */
  function FieldId(sec: string, name: string): (id: string)
    ensures |id| == |sec| + |name| + 2
    ensures id[..|sec|] == sec && id[|sec|] == '['
    ensures id[|sec| + 1..|id| - 1] == name && id[|id| - 1] == ']'
  {
    sec + "[" + name + "]"
  }

  /** The first position of `c` in `s`. */
  function IndexOf(s: string, c: char): (r: Option<nat>)
    ensures r.Some? ==> r.value < |s| && s[r.value] == c && c !in s[..r.value]
    ensures r.None? ==> c !in s
  {
    if |s| == 0 then None
    else if s[0] == c then Some(0)
    else
      match IndexOf(s[1..], c)
      case None => None
      case Some(i) => assert s[..i + 1] == [s[0]] + s[1..][..i]; Some(i + 1)
  }

  /** Where PHP files a submitted value named `base[key]`: under `key` of the
      array `base`, or appended to `base` when the brackets are empty. */
  datatype InputName = Keyed(base: string, key: string) | Appended(base: string)

  /** How PHP splits a submitted input name of the shape `base[key]`. A name
      whose base is empty is dropped; other shapes are not modelled and are
      rejected. */
  function ParseFieldId(id: string): (r: Option<InputName>)
    ensures r.Some? ==> r.value.base != "" && '[' !in r.value.base
    ensures r.Some? && r.value.Keyed? ==> r.value.key != "" && ']' !in r.value.key
  {
    match IndexOf(id, '[')
    case None => None
    case Some(i) =>
      if i == 0 then None
      else
        match IndexOf(id[i + 1..], ']')
        case None => None
        case Some(j) =>
          if i + 1 + j != |id| - 1 then None
          else if j == 0 then Some(Appended(id[..i]))
          else Some(Keyed(id[..i], id[i + 1..i + 1 + j]))
  }

  /** `IndexOf` finds a position once nothing before it matches. */
  lemma IndexOfAt(s: string, c: char, k: nat)
    requires k < |s| && s[k] == c && c !in s[..k]
    ensures IndexOf(s, c) == Some(k)
  {
    assert s[k] in s;
  }

  /** The naming rule `section[name]` loses nothing when both parts are
      non-empty: the submitted input name gives back the section and the
      field name. An empty name is appended to the section's array instead,
      and an empty section drops the value. */
  lemma FieldIdRoundTrip(sec: string, name: string)
    requires '[' !in sec && ']' !in name
    ensures sec != "" && name != "" ==> ParseFieldId(FieldId(sec, name)) == Some(Keyed(sec, name))
    ensures sec != "" && name == "" ==> ParseFieldId(FieldId(sec, name)) == Some(Appended(sec))
    ensures sec == "" ==> ParseFieldId(FieldId(sec, name)) == None
  {
    var id := FieldId(sec, name);
    IndexOfAt(id, '[', |sec|);
    var tail := id[|sec| + 1..];
    assert tail == name + "]";
    assert tail[..|name|] == name;
    IndexOfAt(tail, ']', |name|);
  }

  /** One `add_settings_field` call: id, title, field type (the renderer is
      `callback_<type>`), page, section and the renderer's arguments. */
  datatype FieldRegistration =
    FieldRegistration(id: string, title: Value, kind: Value, page: string, section: string, args: PhpArray)

  /** The argument array handed to a field's renderer: its name as `id`, its
      label as `name`, its section, and `desc`, `size`, `options`, `std` and
      `sanitize_callback` from the field when set, each with its own fallback. */
  function FieldArgs(sec: string, f: Field): (a: PhpArray)
    ensures a.Keys == {"id", "desc", "name", "section", "size", "options", "std", "sanitize_callback"}
    ensures a["id"] == Read(f, "name") && a["name"] == Read(f, "label") && a["section"] == Str(sec)
    ensures a["std"] == FieldDefault(f)
    ensures a["desc"] == if IssetKey(f, "desc") then f["desc"] else Str("")
    ensures a["size"] == if IssetKey(f, "size") then f["size"] else Null
    ensures a["options"] == if IssetKey(f, "options") then f["options"] else Str("")
    ensures a["sanitize_callback"] == if IssetKey(f, "sanitize_callback") then f["sanitize_callback"] else Str("")
  {
    map[
      "id" := Read(f, "name"),
      "desc" := IssetOr(f, "desc", Str("")),
      "name" := Read(f, "label"),
      "section" := Str(sec),
      "size" := IssetOr(f, "size", Null),
      "options" := IssetOr(f, "options", Str("")),
      "std" := FieldDefault(f),
      "sanitize_callback" := IssetOr(f, "sanitize_callback", Str(""))
    ]
  }

  /** The registration of one field of section `sec`. */
  function RegisterField(sec: string, f: Field): (reg: FieldRegistration)
    ensures reg.id == FieldId(sec, NameOf(f))
    ensures reg.page == sec && reg.section == sec
    ensures reg.title == Read(f, "label")
    ensures IssetKey(f, "type") ==> reg.kind == f["type"]
    ensures !IssetKey(f, "type") ==> reg.kind == Str("text")
    ensures reg.args == FieldArgs(sec, f)
  {
    FieldRegistration(FieldId(sec, NameOf(f)), Read(f, "label"), IssetOr(f, "type", Str("text")), sec, sec, FieldArgs(sec, f))
  }

  /** A field that went through `add_field` registers with the caller's
      label or `''` as title, and with the caller's type or `'text'`. */
  lemma AddedFieldRegistration(sec: string, f: Field)
    ensures RegisterField(sec, WithDefaults(f)).title == if "label" in f then f["label"] else Str("")
    ensures RegisterField(sec, WithDefaults(f)).kind == if IssetKey(f, "type") then f["type"] else Str("text")
    ensures RegisterField(sec, WithDefaults(f)).id == FieldId(sec, NameOf(f))
  {
  }

  /** `regs` registers the placed fields `ps` one for one, in order. */
  predicate RegistersAll(ps: seq<Placed>, regs: seq<FieldRegistration>)
  {
    && |regs| == |ps|
    && forall i :: 0 <= i < |ps| ==> regs[i] == RegisterField(ps[i].section, ps[i].field)
  }

  lemma RegistersAllConcat(a: seq<Placed>, x: seq<FieldRegistration>, b: seq<Placed>, y: seq<FieldRegistration>)
    requires RegistersAll(a, x) && RegistersAll(b, y)
    ensures RegistersAll(a + b, x + y)
  {
    forall i | 0 <= i < |a + b|
      ensures (x + y)[i] == RegisterField((a + b)[i].section, (a + b)[i].field)
    {
      if i < |a| {
        assert (x + y)[i] == x[i] && (a + b)[i] == a[i];
      } else {
        assert (x + y)[i] == y[i - |a|] && (a + b)[i] == b[i - |a|];
      }
    }
  }

  /** The inner registration loop over one section's fields. */
  function RegisterSectionFields(sec: string, fs: seq<Field>): (regs: seq<FieldRegistration>)
    ensures |regs| == |fs|
    ensures forall i :: 0 <= i < |fs| ==> regs[i] == RegisterField(sec, fs[i])
  {
    if |fs| == 0 then [] else [RegisterField(sec, fs[0])] + RegisterSectionFields(sec, fs[1..])
  }

  /** The second loop of `admin_init`: one registration per field, in the
      flattened order (section keys in order, then fields in order). */
  function FieldRegistrations(t: seq<SectionFields>): (regs: seq<FieldRegistration>)
    ensures |regs| == |AllFields(t)|
    ensures forall i :: 0 <= i < |regs| ==>
              regs[i] == RegisterField(AllFields(t)[i].section, AllFields(t)[i].field)
  {
    if |t| == 0 then []
    else
      var head := RegisterSectionFields(t[0].section, t[0].fields);
      var rest := FieldRegistrations(t[1..]);
      var ps := PlaceAll(t[0].section, t[0].fields);
      assert RegistersAll(ps, head);
      assert RegistersAll(AllFields(t[1..]), rest);
      RegistersAllConcat(ps, head, AllFields(t[1..]), rest);
      head + rest
  }

  /** The section description callback: the description wrapped in an
      `inside` block when it is set and non-empty, else `__return_false`. */
  datatype SectionCallback = EchoDescription(html: string) | ReturnFalse

  /** One `add_settings_section` call: id, title, callback and page. */
  datatype SectionRegistration = SectionRegistration(id: string, title: string, callback: SectionCallback, page: string)

  function RegisterSection(s: Section): (reg: SectionRegistration)
    ensures reg.id == s.id && reg.page == s.id && reg.title == s.title
    ensures reg.callback.EchoDescription? <==> s.desc.Some? && !EmptyString(s.desc.value)
  {
    var callback :=
      if s.desc.Some? && !EmptyString(s.desc.value) then
        EchoDescription("<div class=\"inside\">" + s.desc.value + "</div>")
      else
        ReturnFalse;
    SectionRegistration(s.id, s.title, callback, s.id)
  }

  /** Everything `admin_init` hands to WordPress. */
  datatype AdminInitCalls = AdminInitCalls(
    addOptions: seq<AddOption>,
    sections: seq<SectionRegistration>,
    fields: seq<FieldRegistration>,
    settings: seq<string>)

  /** `admin_init`: seeding and section registration per section, field
      registration per field, and one `register_setting` per section id
      (option group and option name alike, sanitized by `sanitize_options`). */
  function AdminInit(store: OptionsTable, r: Registry): (calls: AdminInitCalls)
    ensures forall a :: a in calls.addOptions ==>
              && a.option in SectionIds(r.sections)
              && (a.option !in store || !Truthy(store[a.option]))
              && a.value == SectionDefaults(FieldsOf(r.fields, a.option))
    ensures forall s :: s in r.sections && (s.id !in store || !Truthy(store[s.id])) ==>
              AddOption(s.id, SectionDefaults(FieldsOf(r.fields, s.id))) in calls.addOptions
    ensures |calls.sections| == |r.sections| && |calls.settings| == |r.sections|
    ensures forall i :: 0 <= i < |r.sections| ==>
              calls.sections[i] == RegisterSection(r.sections[i]) && calls.settings[i] == r.sections[i].id
    ensures |calls.fields| == |AllFields(r.fields)|
    ensures forall i :: 0 <= i < |calls.fields| ==>
              calls.fields[i] == RegisterField(AllFields(r.fields)[i].section, AllFields(r.fields)[i].field)
  {
    AdminInitCalls(
      SeedDefaults(store, r.sections, r.fields),
      seq(|r.sections|, i requires 0 <= i < |r.sections| => RegisterSection(r.sections[i])),
      FieldRegistrations(r.fields),
      seq(|r.sections|, i requires 0 <= i < |r.sections| => r.sections[i].id))
  }
}
