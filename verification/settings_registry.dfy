/**
  The in-memory registry of `JoaoGrilo_Settings_API`: an ordered list of
  section records and an ordered table from section id to that section's
  field records, with the operations that replace or extend them.
 */
module SettingsRegistry {
  import opened Php

  /** A settings section: its id doubles as the option name it is stored
      under; `desc` is absent when the caller gave none. */
  datatype Section = Section(id: string, title: string, desc: Option<string>)

  /** A field definition is a plain PHP array (`name`, `label`, `desc`,
      `type`, `default`, `sanitize_callback`, `size`, `options`, ...). */
  type Field = PhpArray

  /** One key of `settings_fields` with the list of fields stored under it. */
  datatype SectionFields = SectionFields(section: string, fields: seq<Field>)

  /** The keys of a PHP array are distinct. */
  predicate DistinctSections(t: seq<SectionFields>)
  {
    forall i, j :: 0 <= i < j < |t| ==> t[i].section != t[j].section
  }

  /** `settings_fields`: an ordered PHP array from section id to field list. */
  type FieldTable = t: seq<SectionFields> | DistinctSections(t)

  datatype Registry = Registry(sections: seq<Section>, fields: FieldTable)

  /** The defaults `add_field` merges under every field. */
  const FieldDefaults: PhpArray :=
    map["name" := Str(""), "label" := Str(""), "desc" := Str(""), "type" := Str("text")]

  /** The section keys of the field table, in iteration order. */
  function Keys(t: seq<SectionFields>): (ks: seq<string>)
    ensures |ks| == |t|
    ensures forall i :: 0 <= i < |t| ==> ks[i] == t[i].section
  {
    seq(|t|, i requires 0 <= i < |t| => t[i].section)
  }

  /** The field list stored under a section key, read as the empty list
      when the section has no entry. */
  function FieldsOf(t: seq<SectionFields>, sec: string): seq<Field>
  {
    if |t| == 0 then []
    else if t[0].section == sec then t[0].fields
    else FieldsOf(t[1..], sec)
  }

  /** A field as it sits in the flattened iteration order, with its section key. */
  datatype Placed = Placed(section: string, field: Field)

  function PlaceAll(sec: string, fs: seq<Field>): (ps: seq<Placed>)
    ensures |ps| == |fs|
    ensures forall i :: 0 <= i < |fs| ==> ps[i] == Placed(sec, fs[i])
  {
    seq(|fs|, i requires 0 <= i < |fs| => Placed(sec, fs[i]))
  }

  /** Every field in the order the nested `foreach` loops visit them:
      section keys in order, then each section's fields in order. */
  function AllFields(t: seq<SectionFields>): seq<Placed>
  {
    if |t| == 0 then [] else PlaceAll(t[0].section, t[0].fields) + AllFields(t[1..])
  }

  /** `set_sections`: the section list becomes exactly the argument. */
  function SetSections(r: Registry, sections: seq<Section>): (r': Registry)
    ensures r'.sections == sections
    ensures r'.fields == r.fields
  {
    r.(sections := sections)
  }

  /** `add_section`: one section appended after the existing ones. */
  function AddSection(r: Registry, s: Section): (r': Registry)
    ensures |r'.sections| == |r.sections| + 1
    ensures r'.sections[..|r.sections|] == r.sections
    ensures r'.sections[|r.sections|] == s
    ensures r'.fields == r.fields
  {
    r.(sections := r.sections + [s])
  }

  /** `set_fields`: the field table becomes exactly the argument. */
  function SetFields(r: Registry, t: FieldTable): (r': Registry)
    ensures r'.fields == t
    ensures r'.sections == r.sections
  {
    r.(fields := t)
  }

  /** The record `add_field` stores: the caller's keys over `FieldDefaults`. */
  function WithDefaults(f: Field): (a: Field)
    ensures a.Keys == f.Keys + FieldDefaults.Keys
    ensures forall k :: k in f ==> a[k] == f[k]
    ensures forall k :: k in FieldDefaults && k !in f ==> a[k] == FieldDefaults[k]
  {
    ParseArgs(f, FieldDefaults)
  }

  /** Looking a key up in a table that starts with `x`. */
  lemma FieldsOfCons(x: SectionFields, rest: seq<SectionFields>, s: string)
    ensures FieldsOf([x] + rest, s) == if x.section == s then x.fields else FieldsOf(rest, s)
  {
  }

  /** A table that starts with `x` has distinct keys exactly when the rest
      does and does not contain `x`'s key. */
  lemma DistinctCons(x: SectionFields, rest: seq<SectionFields>)
    ensures DistinctSections([x] + rest) <==> x.section !in Keys(rest) && DistinctSections(rest)
  {
    var t := [x] + rest;
    if DistinctSections(t) {
      forall i | 0 <= i < |rest|
        ensures Keys(rest)[i] != x.section
      {
        assert t[0] == x && t[i + 1] == rest[i];
      }
      forall i, j | 0 <= i < j < |rest|
        ensures rest[i].section != rest[j].section
      {
        assert t[i + 1] == rest[i] && t[j + 1] == rest[j];
      }
    }
    if x.section !in Keys(rest) && DistinctSections(rest) {
      forall i, j | 0 <= i < j < |t|
        ensures t[i].section != t[j].section
      {
        assert t[j] == rest[j - 1];
        if i > 0 {
          assert t[i] == rest[i - 1];
        } else {
          assert Keys(rest)[j - 1] == rest[j - 1].section;
        }
      }
    }
  }

  /** Pushing a field onto a section's list: appends to an existing key's
      list, or adds the key at the end with a one-element list. */
  function AppendField(t: seq<SectionFields>, sec: string, f: Field): (t': seq<SectionFields>)
    requires DistinctSections(t)
    ensures DistinctSections(t')
    ensures Keys(t') == if sec in Keys(t) then Keys(t) else Keys(t) + [sec]
    ensures FieldsOf(t', sec) == FieldsOf(t, sec) + [f]
    ensures forall s :: s != sec ==> FieldsOf(t', s) == FieldsOf(t, s)
    decreases |t|
  {
    if |t| == 0 then [SectionFields(sec, [f])]
    else if t[0].section == sec then
      var t' := [t[0].(fields := t[0].fields + [f])] + t[1..];
      AppendHereFacts(t, sec, f, t');
      t'
    else
      var rest := AppendField(t[1..], sec, f);
      var t' := [t[0]] + rest;
      AppendLaterFacts(t, sec, f, rest, t');
      t'
  }

  /** The case of `AppendField` where the first key is the target. */
  lemma AppendHereFacts(t: seq<SectionFields>, sec: string, f: Field, t': seq<SectionFields>)
    requires DistinctSections(t) && |t| > 0 && t[0].section == sec
    requires t' == [t[0].(fields := t[0].fields + [f])] + t[1..]
    ensures DistinctSections(t')
    ensures sec in Keys(t) && Keys(t') == Keys(t)
    ensures FieldsOf(t', sec) == FieldsOf(t, sec) + [f]
    ensures forall s :: s != sec ==> FieldsOf(t', s) == FieldsOf(t, s)
  {
  }

  /** Keys and distinctness in the case where the target lies past the first key. */
  lemma AppendLaterKeys(t: seq<SectionFields>, sec: string, rest: seq<SectionFields>, t': seq<SectionFields>)
    requires DistinctSections(t) && |t| > 0 && t[0].section != sec
    requires DistinctSections(rest)
    requires Keys(rest) == if sec in Keys(t[1..]) then Keys(t[1..]) else Keys(t[1..]) + [sec]
    requires t' == [t[0]] + rest
    ensures DistinctSections(t')
    ensures Keys(t') == if sec in Keys(t) then Keys(t) else Keys(t) + [sec]
  {
  }

  /** The case of `AppendField` where the target lies past the first key. */
  lemma AppendLaterFacts(t: seq<SectionFields>, sec: string, f: Field, rest: seq<SectionFields>, t': seq<SectionFields>)
    requires DistinctSections(t) && |t| > 0 && t[0].section != sec
    requires DistinctSections(rest)
    requires Keys(rest) == if sec in Keys(t[1..]) then Keys(t[1..]) else Keys(t[1..]) + [sec]
    requires FieldsOf(rest, sec) == FieldsOf(t[1..], sec) + [f]
    requires forall s :: s != sec ==> FieldsOf(rest, s) == FieldsOf(t[1..], s)
    requires t' == [t[0]] + rest
    ensures DistinctSections(t')
    ensures Keys(t') == if sec in Keys(t) then Keys(t) else Keys(t) + [sec]
    ensures FieldsOf(t', sec) == FieldsOf(t, sec) + [f]
    ensures forall s :: s != sec ==> FieldsOf(t', s) == FieldsOf(t, s)
  {
    var x := t[0];
    assert t == [x] + t[1..];
    AppendLaterKeys(t, sec, rest, t');
    forall s
      ensures FieldsOf(t', s) == if s == x.section then x.fields else FieldsOf(rest, s)
      ensures FieldsOf(t, s) == if s == x.section then x.fields else FieldsOf(t[1..], s)
    {
      FieldsOfCons(x, rest, s);
      FieldsOfCons(x, t[1..], s);
    }
  }

  /** `add_field`: the defaulted record goes to the end of its section's list. */
  function AddField(r: Registry, sec: string, f: Field): (r': Registry)
    ensures r'.sections == r.sections
    ensures Keys(r'.fields) == if sec in Keys(r.fields) then Keys(r.fields) else Keys(r.fields) + [sec]
    ensures FieldsOf(r'.fields, sec) == FieldsOf(r.fields, sec) + [WithDefaults(f)]
    ensures forall s :: s != sec ==> FieldsOf(r'.fields, s) == FieldsOf(r.fields, s)
  {
    r.(fields := AppendField(r.fields, sec, WithDefaults(f)))
  }

  /** One navigation tab: the anchor `#id`, the element id `id-tab` and the label. */
  datatype Tab = Tab(href: string, id: string, title: string)

  function TabFor(s: Section): Tab
  {
    Tab("#" + s.id, s.id + "-tab", s.title)
  }

  /** `show_navigation`: one tab per section, in section order. */
  function NavigationTabs(sections: seq<Section>): (tabs: seq<Tab>)
    ensures |tabs| == |sections|
  {
    if |sections| == 0 then [] else [TabFor(sections[0])] + NavigationTabs(sections[1..])
  }

  /** The tab of the `i`-th section is the `i`-th tab. */
  lemma {:induction false} NavigationTabsAt(sections: seq<Section>, i: int)
    requires 0 <= i < |sections|
    ensures NavigationTabs(sections)[i] == TabFor(sections[i])
    decreases |sections|
  {
    if i > 0 {
      NavigationTabsAt(sections[1..], i - 1);
    }
  }

  /** Tabs of a list with one more section at the end gain one tab at the end. */
  lemma {:induction false} NavigationTabsAppend(sections: seq<Section>, s: Section)
    ensures NavigationTabs(sections + [s]) == NavigationTabs(sections) + [TabFor(s)]
    decreases |sections|
  {
    if |sections| == 0 {
      assert sections + [s] == [s];
    } else {
      assert (sections + [s])[1..] == sections[1..] + [s];
      NavigationTabsAppend(sections[1..], s);
    }
  }

  /** After `add_section` the navigation shows the old tabs in the old order,
      followed by exactly one tab for the new section. */
  lemma AddSectionAppendsTab(r: Registry, s: Section)
    ensures NavigationTabs(AddSection(r, s).sections) == NavigationTabs(r.sections) + [TabFor(s)]
  {
    NavigationTabsAppend(r.sections, s);
  }
}
