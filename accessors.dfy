/** Facts read off a raw description node, and the base shell every non-forbidden node
    starts from (lib/parser_base.js, `_getPresence` … `_setBasicProperties`). */
module Accessors {
  import opened JsValues
  import opened Describe

  /** `flags.presence` when it is defined, otherwise `options.presence`. */
  function Presence(n: Node): (p: Value)
    ensures n.flags.presence != Undef ==> p == n.flags.presence
    ensures n.flags.presence == Undef ==> p == n.options.presence
  {
    if n.flags.presence != Undef then n.flags.presence else n.options.presence
  }

  predicate Forbidden(n: Node) {
    Presence(n) == Str("forbidden")
  }

  predicate IsRequired(n: Node) {
    Presence(n) == Str("required")
  }

  /** `_isRequired`: the node's own presence flag decides when it is set; the options'
      presence is consulted only when the flag is undefined. A required node is never
      forbidden. */
  lemma RequiredPresence(n: Node)
    ensures IsRequired(n) <==> || n.flags.presence == Str("required")
                               || (n.flags.presence == Undef && n.options.presence == Str("required"))
    ensures IsRequired(n) ==> !Forbidden(n)
  {
  }

  /** The emitted `type`: the node's kind, except that a number whose FIRST rule is
      `integer` becomes `integer` (later rules are not looked at). */
  function FieldType(n: Node): (t: Value)
    ensures t != n.kind <==> IsKind(n, "number") && |n.rules| > 0 && n.rules[0].name == "integer"
    ensures t != n.kind ==> t == Str("integer")
  {
    if IsKind(n, "number") && |n.rules| > 0 && n.rules[0].name == "integer" then Str("integer")
    else n.kind
  }

  /** The filtered `valids`: absent when the raw list is empty or when `_.isEmpty` drops every
      entry; otherwise the surviving entries in their original order. */
  function Enum(n: Node): (r: Option<seq<Value>>)
    ensures r.Some? <==> exists i :: 0 <= i < |n.valids| && !IsEmpty(n.valids[i])
    ensures r.Some? ==> r.value == NonEmptyEntries(n.valids) && r.value != []
  {
    if |n.valids| == 0 then None
    else
      var kept := NonEmptyEntries(n.valids);
      if |kept| == 0 then
        None
      else
        assert kept[0] in n.valids;
        Some(kept)
  }

  /** `_setIfNotEmpty`: store `v` under `field` unless it is null or undefined. */
  function SetIfNotEmpty(s: Schema, field: string, v: Value): (r: Schema)
    ensures IsNullish(v) ==> r == s
    ensures !IsNullish(v) ==> r == s[field := v]
  {
    if IsNullish(v) then s else s[field := v]
  }

  const BasicKeys: set<string> := {"type", "examples", "description", "default", "enum"}

  /** `_setBasicProperties` on a fresh `{}`: the shell before any kind refiner runs. */
  function BasicProperties(n: Node): (r: Schema)
    ensures r.Keys <= BasicKeys
    ensures Get(r, "type") == if IsNullish(FieldType(n)) then None else Some(FieldType(n))
    ensures Get(r, "examples") == if IsNullish(n.examples) then None else Some(n.examples)
    ensures Get(r, "description") == if IsNullish(n.description) then None else Some(n.description)
    ensures Get(r, "default") == if IsNullish(n.flags.defaultValue) then None else Some(n.flags.defaultValue)
    ensures Get(r, "enum") == if Enum(n).None? then None else Some(Arr(Enum(n).value))
  {
    var s0 := SetIfNotEmpty(map[], "type", FieldType(n));
    var s1 := SetIfNotEmpty(s0, "examples", n.examples);
    var s2 := SetIfNotEmpty(s1, "description", n.description);
    var s3 := SetIfNotEmpty(s2, "default", n.flags.defaultValue);
    if Enum(n).None? then s3 else s3["enum" := Arr(Enum(n).value)]
  }
}
