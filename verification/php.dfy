/**
  The slice of PHP value semantics the plugin relies on: truthiness, `isset`
  on array offsets, loose comparison of a bool with another value, and the
  key-merging of `wp_parse_args`.
 */
module Php {

  datatype Option<T> = None | Some(value: T)

  /** A PHP value as it can sit in the WordPress options table.
      Floats and objects are not modelled; arrays have string keys. */
  datatype Value =
    | Null
    | Bool(b: bool)
    | Int(i: int)
    | Str(s: string)
    | Arr(entries: map<string, Value>)

  /** An associative PHP array with string keys. */
  type PhpArray = map<string, Value>

  /** PHP's conversion to bool: `false`, `0`, `""`, `"0"`, `null` and the
      empty array are falsy, everything else is truthy. */
  predicate Truthy(v: Value)
  {
    match v
    case Null => false
    case Bool(b) => b
    case Int(i) => i != 0
    case Str(s) => s != "" && s != "0"
    case Arr(m) => |m| > 0
  }

  /** `empty($s)` for a string: true for `""` and for `"0"`. */
  predicate EmptyString(s: string)
  {
    !Truthy(Str(s))
  }

  /** `isset($a[$k])` on an array: the key is present and its value is not null. */
  predicate IssetKey(a: PhpArray, k: string)
  {
    k in a && a[k] != Null
  }

  /** `isset` on an offset of any value: only an array is taken to have
      offsets. A string offset under an integer-like key is not modelled. */
  predicate Isset(v: Value, k: string)
  {
    v.Arr? && IssetKey(v.entries, k)
  }

  /** The entry under `k` when it is set, else the fallback `d`. */
  function IssetOr(a: PhpArray, k: string, d: Value): Value
  {
    if IssetKey(a, k) then a[k] else d
  }

  /** Reading an entry: a missing key yields null (PHP also raises a notice). */
  function Read(a: PhpArray, k: string): Value
  {
    if k in a then a[k] else Null
  }

  /** The loose comparison `$b == $v` of a bool with any value: PHP converts
      the other operand to bool. */
  predicate LooseEqualsBool(b: bool, v: Value)
  {
    b == Truthy(v)
  }

  /** `wp_parse_args($args, $defaults)` on arrays: every key of either array,
      with the caller's value winning over the default. */
  function ParseArgs(args: PhpArray, defaults: PhpArray): (r: PhpArray)
    ensures r.Keys == args.Keys + defaults.Keys
    ensures forall k :: k in args ==> r[k] == args[k]
    ensures forall k :: k in defaults && k !in args ==> r[k] == defaults[k]
  {
    defaults + args
  }
}

/**
  The WordPress options table, seen as a finite map from option name to the
  stored value.
 */
module WordPress {
  import opened Php

  type OptionsTable = map<string, Value>

  /** `get_option($name, $default)`: the stored value, or `$default` when the
      option does not exist. */
  function GetOption(store: OptionsTable, name: string, default: Value): (r: Value)
    ensures name in store ==> r == store[name]
    ensures name !in store ==> r == default
  {
    if name in store then store[name] else default
  }
}
