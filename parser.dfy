/** `JoiJsonSchemaParser._convertSchema` and its `_set*` helpers as the code runs them: one
    `schema` object threaded through the refiners, each refiner a loop over the node's rules
    (or children, patterns, branches) whose `switch` overwrites keys. Every method is proved
    to compute exactly the corresponding function of the Conversion and Refiners modules. */
module Parser {
  import opened JsValues
  import opened Describe
  import opened Accessors
  import opened Refiners
  import opened Conversion

  /** `_convertSchema`: a fresh `schema`, `{not: {}}` for a forbidden node, otherwise the
      base shell, the eight refiners in their fixed order and the null widening. */
  method ConvertSchema(n: Node) returns (schema: Schema)
    requires Convertible(n)
    ensures schema == Convert(n)
    decreases n, 3
  {
    schema := map[];
    if Presence(n) == Str("forbidden") {
      schema := schema["not" := Obj(map[])];
      return;
    }
    schema := SetScalarProperties(schema, n);
    schema := SetArrayFieldProperties(schema, n);
    schema := SetObjectProperties(schema, n);
    schema := SetAlternativesProperties(schema, n);
    schema := SetAnyProperties(schema);
    schema := AddNullTypeIfNullable(schema, n);
  }

  /** The first five steps of `_convertSchema` on the fresh `schema`: the base shell and the
      refiners that do not recurse. */
  method SetScalarProperties(schema: Schema, n: Node) returns (r: Schema)
    requires schema == map[] && Convertible(n) && !Forbidden(n)
    ensures r == Scalars(n)
  {
    r := SetBasicProperties(schema, n);
    assert r == BasicProperties(n);
    r := SetNumberFieldProperties(r, n);
    r := SetBinaryFieldProperties(r, n);
    r := SetStringFieldProperties(r, n);
    r := SetDateFieldProperties(r, n);
  }

  /** `_setBasicProperties`: type, examples, description, default and enum, each only when
      neither null nor undefined. */
  method SetBasicProperties(schema: Schema, n: Node) returns (r: Schema)
    ensures r == schema + BasicProperties(n)
  {
    ghost var shell: Schema := map[];
    assert schema == schema + shell;
    r := SetIfNotEmpty(schema, "type", FieldType(n));
    SetIfNotEmptyUnion(schema, shell, "type", FieldType(n));
    shell := SetIfNotEmpty(shell, "type", FieldType(n));
    r := SetIfNotEmpty(r, "examples", n.examples);
    SetIfNotEmptyUnion(schema, shell, "examples", n.examples);
    shell := SetIfNotEmpty(shell, "examples", n.examples);
    r := SetIfNotEmpty(r, "description", n.description);
    SetIfNotEmptyUnion(schema, shell, "description", n.description);
    shell := SetIfNotEmpty(shell, "description", n.description);
    r := SetIfNotEmpty(r, "default", n.flags.defaultValue);
    SetIfNotEmptyUnion(schema, shell, "default", n.flags.defaultValue);
    shell := SetIfNotEmpty(shell, "default", n.flags.defaultValue);
    var values := Enum(n);
    if values.Some? {
      r := r["enum" := Arr(values.value)];
      SetIfNotEmptyUnion(schema, shell, "enum", Arr(values.value));
      shell := shell["enum" := Arr(values.value)];
    }
    assert shell == BasicProperties(n);
  }

  /** Storing into `a + b` is storing into `b` under the union. */
  lemma SetIfNotEmptyUnion(a: Schema, b: Schema, field: string, v: Value)
    ensures SetIfNotEmpty(a + b, field, v) == a + SetIfNotEmpty(b, field, v)
  {
  }

  /** `_setNumberFieldProperties`. */
  method SetNumberFieldProperties(schema: Schema, n: Node) returns (r: Schema)
    ensures r == RefineNumber(schema, n)
  {
    r := schema;
    if !TypeIs(r, "number") && !TypeIs(r, "integer") {
      return;
    }
    var i := 0;
    while i < |n.rules|
      invariant 0 <= i <= |n.rules|
      invariant r == NumberRules(schema, n.rules[..i])
    {
      var rule := n.rules[i];
      var value := rule.arg;
      match rule.name {
        case "max" => r := r["maximum" := value];
        case "min" => r := r["minimum" := value];
        case "greater" =>
          r := r["exclusiveMinimum" := Bool(true)];
          r := r["minimum" := value];
        case "less" =>
          r := r["exclusiveMaximum" := Bool(true)];
          r := r["maximum" := value];
        case "multiple" => r := r["multipleOf" := value];
        case _ =>
      }
      assert n.rules[..i + 1][..i] == n.rules[..i];
      i := i + 1;
    }
    assert n.rules[..i] == n.rules;
  }

  /** `_setBinaryFieldProperties`. */
  method SetBinaryFieldProperties(schema: Schema, n: Node) returns (r: Schema)
    ensures r == RefineBinary(schema, n)
  {
    r := schema;
    if !TypeIs(r, "binary") {
      return;
    }
    r := r["type" := Str("string")];
    if Truthy(n.flags.encoding) {
      r := r["contentEncoding" := n.flags.encoding];
    }
    r := r["format" := Str("binary")];
  }

  /** `_.map(versions, version => ({format: version}))` of an `ip` rule with several versions. */
  method VersionAlternatives(versions: seq<Value>) returns (alternatives: seq<Value>)
    ensures alternatives == FormatAlternatives(versions)
  {
    alternatives := [];
    var i := 0;
    while i < |versions|
      invariant 0 <= i <= |versions|
      invariant alternatives == FormatAlternatives(versions[..i])
    {
      alternatives := alternatives + [Obj(map["format" := versions[i]])];
      i := i + 1;
    }
    assert versions[..i] == versions;
  }

  /** `_setStringFieldProperties`: the encoding, the `meta` scan, then the rule scan. */
  method SetStringFieldProperties(schema: Schema, n: Node) returns (r: Schema)
    requires TypeIs(schema, "string") ==> StringRefinable(n)
    ensures r == RefineString(schema, n)
  {
    r := schema;
    if !TypeIs(r, "string") {
      return;
    }
    if Truthy(n.flags.encoding) {
      r := r["contentEncoding" := n.flags.encoding];
    }
    var i := 0;
    while i < |n.meta|
      invariant 0 <= i <= |n.meta|
      invariant r == MetaMediaType(CopyEncoding(schema, n), n.meta[..i])
    {
      var m := n.meta[i];
      if Truthy(Prop(m, "contentMediaType")) {
        r := r["contentMediaType" := Prop(m, "contentMediaType")];
      }
      assert n.meta[..i + 1][..i] == n.meta[..i];
      i := i + 1;
    }
    assert n.meta[..i] == n.meta;
    ghost var annotated := r;
    i := 0;
    while i < |n.rules|
      invariant 0 <= i <= |n.rules|
      invariant r == StringRules(annotated, n.rules[..i])
    {
      var rule := n.rules[i];
      assert StringRuleDefined(rule);
      match rule.name {
        case "min" => r := r["minLength" := rule.arg];
        case "max" => r := r["maxLength" := rule.arg];
        case "email" => r := r["format" := Str("email")];
        case "hostname" => r := r["format" := Str("hostname")];
        case "uri" => r := r["format" := Str("uri")];
        case "ip" =>
          var versions := Prop(rule.arg, "version");
          if !IsEmpty(versions) {
            if |versions.elems| == 1 {
              r := r["format" := versions.elems[0]];
            } else {
              var alternatives := VersionAlternatives(versions.elems);
              r := r["oneOf" := Arr(alternatives)];
            }
          } else {
            r := r["format" := Str("ipv4")];
          }
        case "regex" => r := r["pattern" := Prop(Prop(rule.arg, "pattern"), "source")];
        case "isoDate" => r := r["format" := Str("date-time")];
        case "uuid" => r := r["format" := Str("uuid")];
        case "guid" => r := r["format" := Str("uuid")];
        case _ =>
      }
      assert n.rules[..i + 1][..i] == n.rules[..i];
      i := i + 1;
    }
    assert n.rules[..i] == n.rules;
  }

  /** `_setDateFieldProperties`. */
  method SetDateFieldProperties(schema: Schema, n: Node) returns (r: Schema)
    ensures r == RefineDate(schema, n)
  {
    r := schema;
    if !TypeIs(r, "date") {
      return;
    }
    if Truthy(n.flags.timestamp) {
      r := r["type" := Str("integer")];
    } else {
      r := r["type" := Str("string")];
      r := r["format" := Str("date-time")];
    }
  }

  /** `_setArrayFieldProperties`: the rule scan, then `items` (recursive conversions). */
  method SetArrayFieldProperties(schema: Schema, n: Node) returns (r: Schema)
    requires TypeIs(schema, "array") ==> ItemsConvertible(n)
    ensures r == RefineArray(schema, n)
    decreases n, 2
  {
    r := schema;
    if !TypeIs(r, "array") {
      return;
    }
    r := ScanArrayRules(r, n.rules);
    var items := ConvertItems(n);
    r := r["items" := Obj(items)];
  }

  /** The `_.each(rules, …)` of the array refiner. */
  method ScanArrayRules(schema: Schema, rules: seq<Rule>) returns (r: Schema)
    ensures r == ArrayRules(schema, rules)
  {
    r := schema;
    var i := 0;
    while i < |rules|
      invariant 0 <= i <= |rules|
      invariant r == ArrayRules(schema, rules[..i])
    {
      var rule := rules[i];
      var value := rule.arg;
      match rule.name {
        case "max" => r := r["maxItems" := value];
        case "min" => r := r["minItems" := value];
        case "length" =>
          r := r["maxItems" := value];
          r := r["minItems" := value];
        case "unique" => r := r["uniqueItems" := Bool(true)];
        case _ =>
      }
      assert rules[..i + 1][..i] == rules[..i];
      i := i + 1;
    }
    assert rules[..i] == rules;
  }

  /** `items`: `{}`, the single item's conversion, or `anyOf` over every item's conversion. */
  method ConvertItems(n: Node) returns (items: Schema)
    requires ItemsConvertible(n)
    ensures items == ArrayItems(n)
    decreases n, 1
  {
    match n.items {
      case NoItems =>
        items := map[];
      case ItemList(nodes) =>
        if |nodes| == 1 {
          items := ConvertSchema(nodes[0]);
        } else {
          var anyOf := ConvertEachItem(n, nodes);
          items := map["anyOf" := Arr(anyOf)];
        }
    }
  }

  /** `_.map(items, …)` of the `anyOf` form: every item's conversion, in order. */
  method ConvertEachItem(ghost n: Node, nodes: seq<Node>) returns (anyOf: seq<Value>)
    requires n.items == ItemList(nodes) && ItemsConvertible(n)
    ensures anyOf == seq(|nodes|, k requires 0 <= k < |nodes| => Obj(Convert(nodes[k])))
    decreases n, 0
  {
    anyOf := [];
    var j := 0;
    while j < |nodes|
      invariant 0 <= j <= |nodes|
      invariant |anyOf| == j
      invariant forall k :: 0 <= k < j ==> anyOf[k] == Obj(Convert(nodes[k]))
    {
      var item := ConvertSchema(nodes[j]);
      anyOf := anyOf + [Obj(item)];
      j := j + 1;
    }
  }

  /** `_setObjectProperties`: children, then pattern-keyed properties, then `required` is
      deleted when nothing was pushed onto it. */
  method SetObjectProperties(schema: Schema, n: Node) returns (r: Schema)
    requires TypeIs(schema, "object") ==> ObjectConvertible(n)
    ensures r == RefineObject(schema, n)
    decreases n, 1
  {
    r := schema;
    if !TypeIs(r, "object") {
      return;
    }
    ObjectNodeConvertible(n);
    var properties: map<string, Value> := map[];
    var required: seq<Value> := [];
    var additional := if n.options.allowUnknown == Undef then Bool(false) else n.options.allowUnknown;
    if n.flags.allowUnknown != Undef {
      additional := n.flags.allowUnknown;
    }
    properties, required := ConvertChildren(n, n.children);
    var p := 0;
    while p < |n.patterns|
      invariant 0 <= p <= |n.patterns|
      invariant properties == PatternProperties(n, n.patterns[..p], ChildProperties(n, n.children))
    {
      var pattern := n.patterns[p];
      assert n.patterns[..p + 1][..p] == n.patterns[..p];
      if pattern.rule.Described? {
        var childKeys := PatternChildren(pattern.rule);
        var nested, nestedRequired := ConvertChildren(n, childKeys);
        properties := properties[pattern.regex := Obj(map[
          "type" := pattern.rule.node.kind,
          "properties" := Obj(nested),
          "required" := Arr(nestedRequired)])];
      }
      p := p + 1;
    }
    assert n.patterns[..p] == n.patterns;
    r := r["properties" := Obj(properties)];
    r := r["additionalProperties" := additional];
    if required == [] {
      r := r - {"required"};
    } else {
      r := r["required" := Arr(required)];
    }
  }

  /** The `_.map(children, …)` / `_.each(childKeys, …)` loops: convert each child, store it
      under its key, and push the key onto `required` when the child is required. */
  method ConvertChildren(ghost n: Node, cs: seq<(string, Node)>)
      returns (properties: map<string, Value>, required: seq<Value>)
    requires ChildrenConvertible(n, cs)
    ensures properties == ChildProperties(n, cs)
    ensures required == RequiredNames(cs)
    decreases n, 0
  {
    properties, required := map[], [];
    var i := 0;
    while i < |cs|
      invariant 0 <= i <= |cs|
      invariant ChildrenConvertible(n, cs[..i])
      invariant properties == ChildProperties(n, cs[..i])
      invariant required == RequiredNames(cs[..i])
    {
      ChildStep(n, cs, i);
      var (key, child) := cs[i];
      var fieldSchema := ConvertSchema(child);
      if IsRequired(child) {
        required := required + [Str(key)];
      }
      properties := properties[key := Obj(fieldSchema)];
      i := i + 1;
    }
    assert cs[..i] == cs;
  }

  /** One iteration of the child loop: the next child's conversion is stored under its key,
      and its key is pushed when it is required. */
  lemma ChildStep(n: Node, cs: seq<(string, Node)>, i: int)
    requires ChildrenConvertible(n, cs) && 0 <= i < |cs|
    ensures cs[i].1 < n && Convertible(cs[i].1)
    ensures ChildrenConvertible(n, cs[..i + 1])
    ensures ChildProperties(n, cs[..i + 1]) == ChildProperties(n, cs[..i])[cs[i].0 := Obj(Convert(cs[i].1))]
    ensures RequiredNames(cs[..i + 1]) == RequiredNames(cs[..i]) + if IsRequired(cs[i].1) then [Str(cs[i].0)] else []
  {
    var prefix := cs[..i + 1];
    assert prefix[..|prefix| - 1] == cs[..i] && prefix[|prefix| - 1] == cs[i];
  }

  /** `_setAlternativesProperties`. */
  method SetAlternativesProperties(schema: Schema, n: Node) returns (r: Schema)
    requires TypeIs(schema, "alternatives") ==> BranchesConvertible(n)
    ensures r == RefineAlternatives(schema, n)
    decreases n, 2
  {
    r := schema;
    if !TypeIs(r, "alternatives") {
      return;
    }
    var oneOf := ConvertBranches(n);
    r := r["oneOf" := Arr(oneOf)];
    r := r - {"type"};
  }

  /** The `oneOf` list: the `then` and `otherwise` of a single conditional, otherwise one
      conversion per alternative. */
  method ConvertBranches(n: Node) returns (oneOf: seq<Value>)
    requires BranchesConvertible(n)
    ensures oneOf == OneOf(n)
    decreases n, 1
  {
    var alts := n.alternatives;
    if |alts| == 1 && alts[0].Conditional? &&
       (alts[0].condition.Some? || alts[0].whenTrue.Some? || alts[0].otherwise.Some?) {
      oneOf := ConvertConditional(n);
    } else {
      oneOf := ConvertAlternativeList(n);
    }
  }

  /** The `is`/`then`/`otherwise` form: the `then` conversion, then the `otherwise` one. */
  method ConvertConditional(n: Node) returns (oneOf: seq<Value>)
    requires SingleConditional(n.alternatives) && BranchesConvertible(n)
    ensures oneOf == OneOf(n)
    decreases n, 0
  {
    var item := n.alternatives[0];
    oneOf := [];
    if item.whenTrue.Some? {
      var branch := ConvertSchema(item.whenTrue.value);
      oneOf := oneOf + [Obj(branch)];
    }
    if item.otherwise.Some? {
      var branch := ConvertSchema(item.otherwise.value);
      oneOf := oneOf + [Obj(branch)];
    }
  }

  /** `_.map(alternatives, …)`: one conversion per alternative, `{}` for a conditional one. */
  method ConvertAlternativeList(n: Node) returns (oneOf: seq<Value>)
    requires !SingleConditional(n.alternatives) && BranchesConvertible(n)
    ensures oneOf == OneOf(n)
    decreases n, 0
  {
    var alts := n.alternatives;
    oneOf := [];
    var i := 0;
    while i < |alts|
      invariant 0 <= i <= |alts|
      invariant |oneOf| == i
      invariant forall k :: 0 <= k < i ==> oneOf[k] == OneOf(n)[k]
    {
      match alts[i] {
        case Plain(m) =>
          var branch := ConvertSchema(m);
          oneOf := oneOf + [Obj(branch)];
        case Conditional(_, _, _) =>
          oneOf := oneOf + [Obj(map[])];
      }
      i := i + 1;
    }
  }

  /** `_setAnyProperties`. */
  method SetAnyProperties(schema: Schema) returns (r: Schema)
    ensures r == RefineAny(schema)
  {
    r := schema;
    if TypeIs(r, "any") {
      r := r["type" := Arr([Str("array"), Str("boolean"), Str("number"), Str("object"), Str("string"), Str("null")])];
    }
  }

  /** `_addNullTypeIfNullable`: always the last step. */
  method AddNullTypeIfNullable(schema: Schema, n: Node) returns (r: Schema)
    ensures r == WithNullType(schema, n)
  {
    r := schema;
    if Null in n.valids {
      r := r["type" := Arr([Lookup(r, "type"), Str("null")])];
    }
  }
}
