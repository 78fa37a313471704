/** The recursive conversion `_convertSchema` as a function: the forbidden short-circuit,
    the base shell, the refiners in their fixed order (number, binary, string, date, array,
    object, alternatives, any) and the final null widening. The array, object and
    alternatives refiners convert sub-descriptions by calling `Convert` again. */
module Conversion {
  import opened JsValues
  import opened Describe
  import opened Accessors
  import opened Refiners

  /** The `is`/`then`/`otherwise` form: a single conditional branch with at least one part. */
  predicate SingleConditional(alts: seq<Alt>) {
    && |alts| == 1
    && alts[0].Conditional?
    && (alts[0].condition.Some? || alts[0].whenTrue.Some? || alts[0].otherwise.Some?)
  }

  /** Every sub-description the conversion of `n` reaches can be read without throwing.
      Only the parts the code actually evaluates are constrained: nothing of a forbidden
      node, string rules only on `string`/`binary` nodes, sub-descriptions only of the
      container kind that converts them. */
  predicate Convertible(n: Node)
    decreases n, 1
  {
    || Forbidden(n)
    || (&& ((IsKind(n, "string") || IsKind(n, "binary")) ==> StringRefinable(n))
        && (IsKind(n, "array") ==> ItemsConvertible(n))
        && (IsKind(n, "object") ==> ObjectConvertible(n))
        && (IsKind(n, "alternatives") ==> BranchesConvertible(n)))
  }

  predicate ItemsConvertible(n: Node)
    decreases n, 0
  {
    n.items.ItemList? ==> forall i :: 0 <= i < |n.items.nodes| ==> Convertible(n.items.nodes[i])
  }

  /** The children of an object node (or of a pattern rule) that it converts. */
  ghost predicate ChildrenConvertible(n: Node, cs: seq<(string, Node)>)
    decreases n, 0
  {
    forall i :: 0 <= i < |cs| ==> cs[i].1 < n && Convertible(cs[i].1)
  }

  /** The pattern rules of an object node whose children the conversion reaches. */
  ghost predicate PatternsConvertible(n: Node, ps: seq<Pattern>)
    decreases n, 0
  {
    forall p :: 0 <= p < |ps| && ps[p].rule.Described? ==> ChildrenConvertible(n, PatternChildren(ps[p].rule))
  }

  predicate ObjectConvertible(n: Node)
    decreases n, 0
  {
    && (forall i :: 0 <= i < |n.children| ==> Convertible(n.children[i].1))
    && (forall p, j ::
          (0 <= p < |n.patterns| && n.patterns[p].rule.Described? &&
           0 <= j < |PatternChildren(n.patterns[p].rule)|) ==>
          Convertible(PatternChildren(n.patterns[p].rule)[j].1))
  }

  predicate BranchesConvertible(n: Node)
    decreases n, 0
  {
    if SingleConditional(n.alternatives) then
      && (n.alternatives[0].whenTrue.Some? ==> Convertible(n.alternatives[0].whenTrue.value))
      && (n.alternatives[0].otherwise.Some? ==> Convertible(n.alternatives[0].otherwise.value))
    else
      forall i :: 0 <= i < |n.alternatives| && n.alternatives[i].Plain? ==>
        Convertible(n.alternatives[i].node)
  }

  /** `_convertSchema`. */
  function Convert(n: Node): (r: Schema)
    requires Convertible(n)
    decreases n, 3
  {
    if Forbidden(n) then map["not" := Obj(map[])]
    else WithNullType(Refined(n), n)
  }

  /** The shell after every refiner, before the null widening. */
  function Refined(n: Node): (r: Schema)
    requires Convertible(n) && !Forbidden(n)
    decreases n, 2
  {
    var s4 := Scalars(n);
    var s5 := RefineArray(s4, n);
    var s6 := RefineObject(s5, n);
    var s7 := RefineAlternatives(s6, n);
    RefineAny(s7)
  }

  /** The base shell and the refiners that do not recurse (number, binary, string, date).
      None of them produces or removes a container kind, so the container refiners that
      follow fire exactly on nodes of their own kind. */
  function Scalars(n: Node): (r: Schema)
    requires (IsKind(n, "string") || IsKind(n, "binary")) ==> StringRefinable(n)
    ensures Lookup(r, "type") == ScalarType(n)
  {
    var s0 := BasicProperties(n);
    var s1 := RefineNumber(s0, n);
    var s2 := RefineBinary(s1, n);
    assert Lookup(s2, "type") == (if IsKind(n, "binary") then Str("string") else Lookup(s0, "type"));
    var s3 := RefineString(s2, n);
    assert Lookup(s3, "type") == Lookup(s2, "type");
    RefineDate(s3, n)
  }

  /** The `type` after the non-recursive refiners: `binary` became `string`, `date` became
      `integer` or `string`, every other kind is as the base shell set it. */
  function ScalarType(n: Node): Value {
    if IsNullish(FieldType(n)) then Undef
    else if IsKind(n, "binary") then Str("string")
    else if IsKind(n, "date") then (if Truthy(n.flags.timestamp) then Str("integer") else Str("string"))
    else FieldType(n)
  }

  // ---------------------------------------------------------------- array

  const ArrayKeys: set<string> := ArrayRuleKeys + {"items"}

  /** `_setArrayFieldProperties`: the rule scan, then `items`. */
  function RefineArray(s: Schema, n: Node): (r: Schema)
    requires TypeIs(s, "array") ==> ItemsConvertible(n)
    ensures !TypeIs(s, "array") ==> r == s
    ensures Get(r, "type") == Get(s, "type")
    decreases n, 1
  {
    if !TypeIs(s, "array") then s
    else
      assert Get(ArrayRules(s, n.rules), "type") == Get(s, "type") by {
        ArrayRulesLastWins(s, n.rules);
      }
      ArrayRules(s, n.rules)["items" := Obj(ArrayItems(n))]
  }

  /** The array refiner writes only the item bounds, `uniqueItems` and `items`. */
  lemma RefineArrayFrame(s: Schema, n: Node)
    requires TypeIs(s, "array") ==> ItemsConvertible(n)
    ensures var r := RefineArray(s, n);
      && r.Keys <= s.Keys + ArrayKeys
      && forall k :: k !in ArrayKeys ==> Get(r, k) == Get(s, k)
  {
    ArrayRulesLastWins(s, n.rules);
  }

  /** `items`: `{}` when the node has none, the conversion of the single item, or `anyOf`
      over the conversions of all items (also when the list is empty). */
  function ArrayItems(n: Node): Schema
    requires ItemsConvertible(n)
    decreases n, 0
  {
    match n.items
    case NoItems => map[]
    case ItemList(nodes) =>
      if |nodes| == 1 then Convert(nodes[0])
      else map["anyOf" := Arr(seq(|nodes|, i requires 0 <= i < |nodes| => Obj(Convert(nodes[i]))))]
  }

  // ---------------------------------------------------------------- object

  const ObjectKeys: set<string> := {"properties", "required", "additionalProperties"}

  /** `additionalProperties`: the node flag when defined, else the option, else false. */
  function AdditionalProperties(n: Node): (v: Value)
    ensures n.flags.allowUnknown != Undef ==> v == n.flags.allowUnknown
    ensures n.flags.allowUnknown == Undef && n.options.allowUnknown != Undef ==> v == n.options.allowUnknown
    ensures n.flags.allowUnknown == Undef && n.options.allowUnknown == Undef ==> v == Bool(false)
  {
    var fromOptions := if n.options.allowUnknown == Undef then Bool(false) else n.options.allowUnknown;
    if n.flags.allowUnknown != Undef then n.flags.allowUnknown else fromOptions
  }

  /** The names pushed onto `required`: the keys of required children, in child order. */
  function RequiredNames(cs: seq<(string, Node)>): (r: seq<Value>)
    ensures forall i :: 0 <= i < |cs| && IsRequired(cs[i].1) ==> Str(cs[i].0) in r
    ensures forall x :: x in r ==> exists i :: 0 <= i < |cs| && IsRequired(cs[i].1) && x == Str(cs[i].0)
  {
    if cs == [] then []
    else
      var last := cs[|cs| - 1];
      RequiredNames(cs[..|cs| - 1]) + if IsRequired(last.1) then [Str(last.0)] else []
  }

  /** `properties[key] = convert(child)` for every child in order; a repeated key keeps the
      last conversion. */
  function ChildProperties(ghost n: Node, cs: seq<(string, Node)>): (props: map<string, Value>)
    requires ChildrenConvertible(n, cs)
    ensures props.Keys == set i | 0 <= i < |cs| :: cs[i].0
    decreases n, 0, 0, |cs|
  {
    if cs == [] then map[]
    else
      var last := cs[|cs| - 1];
      var props := ChildProperties(n, cs[..|cs| - 1]);
      assert (set i | 0 <= i < |cs| :: cs[i].0) == (set i | 0 <= i < |cs| - 1 :: cs[i].0) + {last.0} by {
        forall i | 0 <= i < |cs| - 1 ensures cs[..|cs| - 1][i] == cs[i] { }
      }
      props[last.0 := Obj(Convert(last.1))]
  }

  /** The property synthesised for one object-shaped pattern rule; its `required` is kept
      even when empty. */
  function PatternProperty(ghost n: Node, rule: PatternRule): (v: Value)
    requires rule.Described? && ChildrenConvertible(n, PatternChildren(rule))
    decreases n, 0, 1
  {
    var cs := PatternChildren(rule);
    Obj(map["type" := rule.node.kind,
            "properties" := Obj(ChildProperties(n, cs)),
            "required" := Arr(RequiredNames(cs))])
  }

  /** The `patterns` loop: each object-shaped rule adds a property keyed by its regex text. */
  function PatternProperties(ghost n: Node, ps: seq<Pattern>, props: map<string, Value>): (r: map<string, Value>)
    requires PatternsConvertible(n, ps)
    decreases n, 0, 2, |ps|
  {
    if ps == [] then props
    else
      var p := ps[|ps| - 1];
      var r := PatternProperties(n, ps[..|ps| - 1], props);
      if p.rule.Described? then r[p.regex := PatternProperty(n, p.rule)] else r
  }

  /** The object refiner's view of `ObjectConvertible`: children and pattern children are
      strictly smaller than the node and convertible. */
  lemma ObjectNodeConvertible(n: Node)
    requires ObjectConvertible(n)
    ensures ChildrenConvertible(n, n.children) && PatternsConvertible(n, n.patterns)
  {
    forall p | 0 <= p < |n.patterns| && n.patterns[p].rule.Described?
      ensures ChildrenConvertible(n, PatternChildren(n.patterns[p].rule))
    {
      var cs := PatternChildren(n.patterns[p].rule);
      forall j | 0 <= j < |cs| ensures cs[j].1 < n {
        assert n.patterns[p] in n.patterns;
      }
    }
  }

  /** `_setObjectProperties`. */
  function RefineObject(s: Schema, n: Node): (r: Schema)
    requires TypeIs(s, "object") ==> ObjectConvertible(n)
    ensures !TypeIs(s, "object") ==> r == s
    ensures Get(r, "type") == Get(s, "type")
    decreases n, 1
  {
    if !TypeIs(s, "object") then s
    else
      ObjectNodeConvertible(n);
      var props := PatternProperties(n, n.patterns, ChildProperties(n, n.children));
      var required := RequiredNames(n.children);
      var s1 := s["properties" := Obj(props)]["additionalProperties" := AdditionalProperties(n)];
      if required == [] then s1 - {"required"} else s1["required" := Arr(required)]
  }

  /** The object refiner writes only `properties`, `additionalProperties` and `required`. */
  lemma RefineObjectFrame(s: Schema, n: Node)
    requires TypeIs(s, "object") ==> ObjectConvertible(n)
    ensures var r := RefineObject(s, n);
      && r.Keys <= s.Keys + ObjectKeys
      && forall k :: k !in ObjectKeys ==> Get(r, k) == Get(s, k)
  {
  }

  // ---------------------------------------------------------------- alternatives

  /** `oneOf` of an alternatives node. A conditional entry met in the general branch is
      converted as a description without fields, which gives `{}`. */
  function OneOf(n: Node): seq<Value>
    requires BranchesConvertible(n)
    decreases n, 0
  {
    var alts := n.alternatives;
    if SingleConditional(alts) then
      (if alts[0].whenTrue.Some? then [Obj(Convert(alts[0].whenTrue.value))] else [])
      + (if alts[0].otherwise.Some? then [Obj(Convert(alts[0].otherwise.value))] else [])
    else
      seq(|alts|, i requires 0 <= i < |alts| =>
        match alts[i]
        case Plain(m) => Obj(Convert(m))
        case Conditional(_, _, _) => Obj(map[]))
  }

  /** `_setAlternativesProperties`: `oneOf`, then `delete schema.type`. */
  function RefineAlternatives(s: Schema, n: Node): (r: Schema)
    requires TypeIs(s, "alternatives") ==> BranchesConvertible(n)
    ensures !TypeIs(s, "alternatives") ==> r == s
    ensures TypeIs(s, "alternatives") ==> "type" !in r && "oneOf" in r
    decreases n, 1
  {
    if !TypeIs(s, "alternatives") then s
    else s["oneOf" := Arr(OneOf(n))] - {"type"}
  }
}
