/** JavaScript values as the converter sees them, and the few lodash helpers it relies on
    (`_.isEmpty`, `_.filter`, property access and truthiness). */
module JsValues {

  datatype Option<+T> = None | Some(value: T)

  /** A JavaScript value. `Undef` is `undefined`: a key assigned `undefined` is still a key,
      which is what `schema.maximum = rule.arg` does when a rule carries no argument.
      Numbers are opaque to the converter (they are only copied), so `int` stands for them. */
  datatype Value =
    | Undef
    | Null
    | Bool(b: bool)
    | Num(n: int)
    | Str(s: string)
    | Arr(elems: seq<Value>)
    | Obj(fields: map<string, Value>)

  /** A JSON Schema fragment under construction: the mutable `schema` object. */
  type Schema = map<string, Value>

  predicate IsNullish(v: Value) {
    v.Undef? || v.Null?
  }

  /** JavaScript truthiness (`if (v)`, `a && b`). */
  predicate Truthy(v: Value) {
    match v
    case Undef => false
    case Null => false
    case Bool(b) => b
    case Num(n) => n != 0
    case Str(s) => s != ""
    case Arr(_) => true
    case Obj(_) => true
  }

  /** lodash `_.isEmpty`: null, undefined, booleans and numbers are empty; strings and arrays
      when their length is zero; objects when they have no own key. */
  predicate IsEmpty(v: Value) {
    match v
    case Undef => true
    case Null => true
    case Bool(_) => true
    case Num(_) => true
    case Str(s) => |s| == 0
    case Arr(a) => |a| == 0
    case Obj(m) => |m| == 0
  }

  /** Where truthiness and lodash emptiness agree and where they part: they agree on strings
      and on null and undefined; an empty array or object is truthy, while `true` and every
      number are lodash-empty. Only strings, arrays and objects can be non-empty. */
  lemma TruthyVersusEmpty(v: Value)
    ensures IsNullish(v) ==> !Truthy(v) && IsEmpty(v)
    ensures v.Str? ==> (Truthy(v) <==> !IsEmpty(v))
    ensures (v.Arr? || v.Obj?) ==> Truthy(v)
    ensures v == Bool(true) || v.Num? ==> IsEmpty(v)
    ensures !IsEmpty(v) ==> v.Str? || v.Arr? || v.Obj?
  {
  }

  /** Property read `v.key`. Reading a property of null or undefined throws, hence the
      precondition; on other non-objects the keys read by the converter are never defined. */
  function Prop(v: Value, key: string): (r: Value)
    requires !IsNullish(v)
    ensures v.Obj? && key in v.fields ==> r == v.fields[key]
    ensures !(v.Obj? && key in v.fields) ==> r == Undef
  {
    if v.Obj? && key in v.fields then v.fields[key] else Undef
  }

  /** The value stored under `key`, or `undefined` when the key is absent (`schema.type`). */
  function Lookup(s: Schema, key: string): (r: Value)
    ensures key !in s ==> r == Undef
    ensures key in s ==> r == s[key]
  {
    if key in s then s[key] else Undef
  }

  /** Presence and value of a key in one observation: `Get(s, k) == Get(t, k)` says the two
      fragments agree on `k`, including on whether it is there at all. */
  function Get(s: Schema, key: string): (r: Option<Value>)
    ensures r.Some? <==> key in s
    ensures r.Some? ==> r.value == s[key]
  {
    if key in s then Some(s[key]) else None
  }

  /** lodash `_.filter(valids, item => !_.isEmpty(item))`: the entries `_.isEmpty` keeps,
      in their original order. */
  function NonEmptyEntries(s: seq<Value>): (r: seq<Value>)
    ensures |r| <= |s|
    ensures forall i :: 0 <= i < |r| ==> !IsEmpty(r[i])
    ensures forall x :: x in r ==> x in s
    ensures forall x :: x in s && !IsEmpty(x) ==> x in r
  {
    if s == [] then []
    else if IsEmpty(s[|s| - 1]) then NonEmptyEntries(s[..|s| - 1])
    else NonEmptyEntries(s[..|s| - 1]) + [s[|s| - 1]]
  }

  /** The filter keeps relative order: filtering a concatenation concatenates the filtered parts. */
  lemma {:induction false} NonEmptyEntriesAppend(a: seq<Value>, b: seq<Value>)
    ensures NonEmptyEntries(a + b) == NonEmptyEntries(a) + NonEmptyEntries(b)
    decreases |b|
  {
    if b == [] {
      assert a + b == a;
    } else {
      var b' := b[..|b| - 1];
      assert (a + b)[..|a + b| - 1] == a + b';
      assert (a + b)[|a + b| - 1] == b[|b| - 1];
      NonEmptyEntriesAppend(a, b');
    }
  }

  /** Every null entry is dropped by the filter, so removing the nulls first changes nothing. */
  lemma {:induction false} NonEmptyEntriesIgnoresNull(s: seq<Value>)
    ensures NonEmptyEntries(s) == NonEmptyEntries(WithoutNull(s))
    decreases |s|
  {
    if s != [] {
      var s' := s[..|s| - 1];
      NonEmptyEntriesIgnoresNull(s');
      if s[|s| - 1] != Null {
        NonEmptyEntriesAppend(WithoutNull(s'), [s[|s| - 1]]);
        assert NonEmptyEntries([s[|s| - 1]]) == if IsEmpty(s[|s| - 1]) then [] else [s[|s| - 1]] by {
          assert [s[|s| - 1]][..0] == [];
        }
      }
    }
  }

  /** `valids` with its null entries removed. */
  function WithoutNull(s: seq<Value>): (r: seq<Value>)
    ensures Null !in r
    ensures forall x :: x in r <==> x in s && x != Null
  {
    if s == [] then []
    else if s[|s| - 1] == Null then WithoutNull(s[..|s| - 1])
    else WithoutNull(s[..|s| - 1]) + [s[|s| - 1]]
  }
}
