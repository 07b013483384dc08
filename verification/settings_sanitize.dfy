/**
  Finding the sanitize callback of a submitted option and applying the
  callbacks across a submitted option array (`get_sanitize_callback` and
  `sanitize_options`). Callbacks are uninterpreted: `callable` stands for
  PHP's `is_callable` and `apply` for `call_user_func`.
 */
module SettingsSanitize {
  import opened Php
  import opened SettingsRegistry

  /** A field's name as a string: a missing or null name reads as `""`. */
  function NameOf(f: Field): string
  {
    if "name" in f && f["name"].Str? then f["name"].s else ""
  }

  /** What a matching field yields: its `sanitize_callback` when that is set
      and callable, otherwise nothing (PHP's `false`). */
  function CallbackOf(f: Field, callable: Value -> bool): (r: Option<Value>)
    ensures r.Some? <==> IssetKey(f, "sanitize_callback") && callable(f["sanitize_callback"])
    ensures r.Some? ==> r.value == f["sanitize_callback"]
  {
    if IssetKey(f, "sanitize_callback") && callable(f["sanitize_callback"]) then
      Some(f["sanitize_callback"])
    else
      None
  }

  /** The inner loop: the first field of one section named `slug`. */
  function FindInFields(fs: seq<Field>, slug: string): (r: Option<Field>)
    ensures r.Some? ==> r.value in fs && NameOf(r.value) == slug
    ensures r.None? ==> forall f :: f in fs ==> NameOf(f) != slug
  {
    if |fs| == 0 then None
    else if NameOf(fs[0]) == slug then Some(fs[0])
    else FindInFields(fs[1..], slug)
  }

  /** The outer loop: sections in key order, stopping at the first hit. */
  function FindInTable(t: seq<SectionFields>, slug: string): (r: Option<Field>)
    ensures r.Some? ==> NameOf(r.value) == slug && exists k :: 0 <= k < |t| && r.value in t[k].fields
    ensures r.None? ==> forall k, f :: 0 <= k < |t| && f in t[k].fields ==> NameOf(f) != slug
  {
    if |t| == 0 then None
    else
      match FindInFields(t[0].fields, slug)
      case Some(f) => Some(f)
      case None => FindInTable(t[1..], slug)
  }

  /** `get_sanitize_callback($slug)`: `None` stands for `false`. */
  function GetSanitizeCallback(t: seq<SectionFields>, slug: string, callable: Value -> bool): (r: Option<Value>)
    ensures EmptyString(slug) ==> r.None?
    ensures r.Some? ==> callable(r.value)
  {
    if EmptyString(slug) then None
    else
      match FindInTable(t, slug)
      case None => None
      case Some(f) => CallbackOf(f, callable)
  }

  /** Field `i` is the first one in `ps` whose name is `slug`. */
  predicate FirstNamedAt(ps: seq<Placed>, slug: string, i: int)
  {
    && 0 <= i < |ps|
    && NameOf(ps[i].field) == slug
    && forall j :: 0 <= j < i ==> NameOf(ps[j].field) != slug
  }

  /** Reference definition of "first match": the position of the first field
      named `slug` in the flattened iteration order. */
  function FirstNamed(ps: seq<Placed>, slug: string): (r: Option<nat>)
    ensures r.Some? ==> FirstNamedAt(ps, slug, r.value)
    ensures r.None? ==> forall j :: 0 <= j < |ps| ==> NameOf(ps[j].field) != slug
  {
    if |ps| == 0 then None
    else if NameOf(ps[0].field) == slug then Some(0)
    else
      match FirstNamed(ps[1..], slug)
      case None => None
      case Some(i) => Some(i + 1)
  }

  /** The field at an optional position of `ps`. */
  function FieldAt(ps: seq<Placed>, o: Option<nat>): Option<Field>
  {
    match o
    case Some(i) => if i < |ps| then Some(ps[i].field) else None
    case None => None
  }

  /** The first match is unique. */
  lemma FirstNamedUnique(ps: seq<Placed>, slug: string, i: int)
    requires FirstNamedAt(ps, slug, i)
    ensures FirstNamed(ps, slug) == Some(i)
  {
  }

  /** The first match in `a + b` is the first in `a`, or else the first in `b`
      shifted past `a`. */
  lemma FirstNamedConcat(a: seq<Placed>, b: seq<Placed>, slug: string)
    ensures FieldAt(a + b, FirstNamed(a + b, slug)) ==
            match FirstNamed(a, slug)
            case Some(i) => Some(a[i].field)
            case None => FieldAt(b, FirstNamed(b, slug))
  {
    var ab := a + b;
    match FirstNamed(a, slug)
    case Some(i) =>
      assert ab[i] == a[i];
      FirstNamedUnique(ab, slug, i);
    case None =>
      match FirstNamed(b, slug)
      case Some(j) =>
        assert ab[|a| + j] == b[j];
        assert forall k :: 0 <= k < |a| + j ==> NameOf(ab[k].field) != slug by {
          forall k | 0 <= k < |a| + j
            ensures NameOf(ab[k].field) != slug
          {
            if k < |a| { assert ab[k] == a[k]; } else { assert ab[k] == b[k - |a|]; }
          }
        }
        FirstNamedUnique(ab, slug, |a| + j);
      case None =>
        assert forall k :: 0 <= k < |ab| ==> NameOf(ab[k].field) != slug by {
          forall k | 0 <= k < |ab|
            ensures NameOf(ab[k].field) != slug
          {
            if k < |a| { assert ab[k] == a[k]; } else { assert ab[k] == b[k - |a|]; }
          }
        }
  }

  /** The inner loop finds the first field of the section named `slug`. */
  lemma {:induction false} FindInFieldsIsFirst(sec: string, fs: seq<Field>, slug: string)
    ensures FindInFields(fs, slug) == FieldAt(PlaceAll(sec, fs), FirstNamed(PlaceAll(sec, fs), slug))
    decreases |fs|
  {
    var ps := PlaceAll(sec, fs);
    if |fs| == 0 {
    } else if NameOf(fs[0]) == slug {
      FirstNamedUnique(ps, slug, 0);
    } else {
      FindInFieldsIsFirst(sec, fs[1..], slug);
      assert ps == [ps[0]] + PlaceAll(sec, fs[1..]);
      FirstNamedConcat([ps[0]], PlaceAll(sec, fs[1..]), slug);
    }
  }

  /** The nested loops find the first field named `slug` in the flattened
      order: sections in key order, then fields in order. */
  lemma {:induction false} FindInTableIsFirst(t: seq<SectionFields>, slug: string)
    ensures FindInTable(t, slug) == FieldAt(AllFields(t), FirstNamed(AllFields(t), slug))
    decreases |t|
  {
    if |t| > 0 {
      var head := PlaceAll(t[0].section, t[0].fields);
      FindInFieldsIsFirst(t[0].section, t[0].fields, slug);
      FindInTableIsFirst(t[1..], slug);
      FirstNamedConcat(head, AllFields(t[1..]), slug);
      match FirstNamed(head, slug)
      case Some(i) =>
      case None =>
    }
  }

  /** The first field named `slug` decides the result: its callback when that
      is set and callable, and `false` otherwise, whatever later fields of the
      same name carry. */
  lemma FirstMatchDecides(t: seq<SectionFields>, slug: string, callable: Value -> bool, i: int)
    requires !EmptyString(slug)
    requires FirstNamedAt(AllFields(t), slug, i)
    ensures GetSanitizeCallback(t, slug, callable) == CallbackOf(AllFields(t)[i].field, callable)
  {
    FirstNamedUnique(AllFields(t), slug, i);
    FindInTableIsFirst(t, slug);
  }

  /** No registered field has the name: the result is `false`. */
  lemma UnknownSlugHasNoCallback(t: seq<SectionFields>, slug: string, callable: Value -> bool)
    requires forall j :: 0 <= j < |AllFields(t)| ==> NameOf(AllFields(t)[j].field) != slug
    ensures GetSanitizeCallback(t, slug, callable) == None
  {
    FindInTableIsFirst(t, slug);
  }

  /** The ordering rule in its sharpest form: a first match without a
      callback hides a later field of the same name that has one. */
  lemma LaterCallbackIsShadowed(t: seq<SectionFields>, slug: string, callable: Value -> bool, i: int, j: int)
    requires !EmptyString(slug)
    requires FirstNamedAt(AllFields(t), slug, i)
    requires !IssetKey(AllFields(t)[i].field, "sanitize_callback")
    requires i < j < |AllFields(t)| && NameOf(AllFields(t)[j].field) == slug
    requires CallbackOf(AllFields(t)[j].field, callable).Some?
    ensures GetSanitizeCallback(t, slug, callable) == None
  {
    FirstMatchDecides(t, slug, callable, i);
  }

  /** One submitted value after its callback was applied: only a found,
      truthy callback replaces the value; otherwise the value stays as sent. */
  function Sanitized(cb: Option<Value>, v: Value, apply: (Value, Value) -> Value): (r: Value)
    ensures cb.Some? && Truthy(cb.value) ==> r == apply(cb.value, v)
    ensures cb.None? || !Truthy(cb.value) ==> r == v
  {
    match cb
    case Some(c) => if Truthy(c) then apply(c, v) else v
    case None => v
  }

  /** `sanitize_options($options)`: every submitted key is kept, and each
      value passes through the callback `get_sanitize_callback` finds for it. */
  function SanitizeOptions(t: seq<SectionFields>, options: PhpArray, callable: Value -> bool,
                           apply: (Value, Value) -> Value): (r: PhpArray)
    ensures r.Keys == options.Keys
    ensures forall k :: k in options && GetSanitizeCallback(t, k, callable).None? ==> r[k] == options[k]
  {
    map k | k in options :: Sanitized(GetSanitizeCallback(t, k, callable), options[k], apply)
  }

  /** A submitted key that no field is named after comes back unchanged. */
  lemma SanitizeKeepsUnregistered(t: seq<SectionFields>, options: PhpArray, callable: Value -> bool,
                                  apply: (Value, Value) -> Value, k: string)
    requires k in options
    requires forall j :: 0 <= j < |AllFields(t)| ==> NameOf(AllFields(t)[j].field) != k
    ensures SanitizeOptions(t, options, callable, apply)[k] == options[k]
  {
    UnknownSlugHasNoCallback(t, k, callable);
  }

  /** A submitted key whose first field carries a callable, truthy callback
      comes back as that callback applied to the submitted value. */
  lemma SanitizeAppliesFirstCallback(t: seq<SectionFields>, options: PhpArray, callable: Value -> bool,
                                     apply: (Value, Value) -> Value, k: string, i: int)
    requires k in options && !EmptyString(k)
    requires FirstNamedAt(AllFields(t), k, i)
    requires IssetKey(AllFields(t)[i].field, "sanitize_callback")
    requires callable(AllFields(t)[i].field["sanitize_callback"])
    requires Truthy(AllFields(t)[i].field["sanitize_callback"])
    ensures SanitizeOptions(t, options, callable, apply)[k]
            == apply(AllFields(t)[i].field["sanitize_callback"], options[k])
  {
    FirstMatchDecides(t, k, callable, i);
  }
}
