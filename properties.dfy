/** What the whole conversion promises, stated about `Convert`: the forbidden short-circuit,
    the keys an output can hold, which base-shell entries survive, and the outcome for each
    kind of node (number, string, binary, date, any, array, object, alternatives), as well as
    the null widening. */
module Properties {
  import opened JsValues
  import opened Describe
  import opened Accessors
  import opened Refiners
  import opened Conversion

  // ---------------------------------------------------------------- frames and key bounds

  /** Every key some refiner writes or deletes. */
  const RefinerKeys: set<string> :=
    NumberKeys + BinaryKeys + StringWriteKeys + ArrayKeys + ObjectKeys + {"type", "oneOf"}

  /** Every key the conversion of a node that is not forbidden can emit. */
  const OutputKeys: set<string> := BasicKeys + RefinerKeys

  /** The container refiners fire exactly on nodes of their own kind: the non-recursive
      refiners never produce or remove `array`, `object`, `alternatives` or `any`. */
  lemma ScalarsKind(n: Node)
    requires (IsKind(n, "string") || IsKind(n, "binary")) ==> StringRefinable(n)
    ensures TypeIs(Scalars(n), "array") <==> IsKind(n, "array")
    ensures TypeIs(Scalars(n), "object") <==> IsKind(n, "object")
    ensures TypeIs(Scalars(n), "alternatives") <==> IsKind(n, "alternatives")
    ensures TypeIs(Scalars(n), "any") <==> IsKind(n, "any")
  {
  }

  /** The non-recursive refiners write nothing outside their own keys. */
  lemma ScalarsFrame(n: Node, k: string)
    requires (IsKind(n, "string") || IsKind(n, "binary")) ==> StringRefinable(n)
    requires k !in NumberKeys + BinaryKeys + StringWriteKeys
    ensures Get(Scalars(n), k) == Get(BasicProperties(n), k)
  {
    var s0 := BasicProperties(n);
    var s1 := RefineNumber(s0, n);
    RefineNumberFrame(s0, n);
    var s2 := RefineBinary(s1, n);
    RefineBinaryFrame(s1, n);
    RefineStringFrame(s2, n);
  }

  lemma ScalarsKeys(n: Node)
    requires (IsKind(n, "string") || IsKind(n, "binary")) ==> StringRefinable(n)
    ensures Scalars(n).Keys <= BasicKeys + NumberKeys + BinaryKeys + StringWriteKeys
  {
    var s0 := BasicProperties(n);
    var s1 := RefineNumber(s0, n);
    RefineNumberFrame(s0, n);
    var s2 := RefineBinary(s1, n);
    RefineBinaryFrame(s1, n);
    RefineStringFrame(s2, n);
  }

  /** A key no refiner touches keeps the value the base shell gave it. */
  lemma RefinedFrame(n: Node, k: string)
    requires Convertible(n) && !Forbidden(n)
    requires k !in RefinerKeys
    ensures Get(Refined(n), k) == Get(BasicProperties(n), k)
  {
    ScalarsFrame(n, k);
    ScalarsKind(n);
    var s4 := Scalars(n);
    RefineArrayFrame(s4, n);
    var s5 := RefineArray(s4, n);
    RefineObjectFrame(s5, n);
  }

  /** The output of a node that is not forbidden holds only the keys the refiners know. */
  lemma RefinedKeys(n: Node)
    requires Convertible(n) && !Forbidden(n)
    ensures Refined(n).Keys <= OutputKeys
  {
    ScalarsKeys(n);
    ScalarsKind(n);
    var s4 := Scalars(n);
    RefineArrayFrame(s4, n);
    var s5 := RefineArray(s4, n);
    RefineObjectFrame(s5, n);
  }

  /** `not` appears exactly for a forbidden node, and then it is the whole output. */
  lemma ForbiddenConversion(n: Node)
    requires Convertible(n)
    ensures "not" in Convert(n) <==> Forbidden(n)
    ensures Forbidden(n) ==> Convert(n) == map["not" := Obj(map[])]
    ensures !Forbidden(n) ==> Convert(n).Keys <= OutputKeys
  {
    if !Forbidden(n) {
      var r := Refined(n);
      assert Convert(n) == WithNullType(r, n);
      RefinedKeys(n);
      NotAnOutputKey();
    }
  }

  lemma BasicEntriesNotRefinerKeys()
    ensures "examples" !in RefinerKeys && "description" !in RefinerKeys
    ensures "default" !in RefinerKeys && "enum" !in RefinerKeys
  {
    NotARefinerKey("examples");
    NotARefinerKey("description");
    NotARefinerKey("default");
    NotARefinerKey("enum");
  }

  lemma NotAnOutputKey()
    ensures "not" !in OutputKeys
  {
    NotARefinerKey("not");
    assert "not" !in BasicKeys;
  }

  /** A key outside every refiner's key set is not a refiner key. */
  lemma NotARefinerKey(k: string)
    requires k !in NumberKeys && k !in BinaryKeys && k !in StringWriteKeys
    requires k !in ArrayKeys && k !in ObjectKeys && k != "type" && k != "oneOf"
    ensures k !in RefinerKeys
  {
  }

  /** The null widening touches only `type`. */
  lemma ConvertFrame(n: Node, k: string)
    requires Convertible(n) && !Forbidden(n)
    requires k != "type"
    ensures Get(Convert(n), k) == Get(Refined(n), k)
  {
    assert Convert(n) == WithNullType(Refined(n), n);
  }

  /** `examples`, `description`, `default` and `enum` are the base shell's, whatever the kind. */
  lemma BasicEntriesKept(n: Node)
    requires Convertible(n) && !Forbidden(n)
    ensures Get(Convert(n), "examples") == if IsNullish(n.examples) then None else Some(n.examples)
    ensures Get(Convert(n), "description") == if IsNullish(n.description) then None else Some(n.description)
    ensures Get(Convert(n), "default") ==
      if IsNullish(n.flags.defaultValue) then None else Some(n.flags.defaultValue)
    ensures Get(Convert(n), "enum") == if Enum(n).None? then None else Some(Arr(Enum(n).value))
  {
    var b := BasicProperties(n);
    BasicEntriesNotRefinerKeys();
    assert Get(Convert(n), "examples") == Get(b, "examples") by {
      ConvertFrame(n, "examples");
      RefinedFrame(n, "examples");
    }
    assert Get(Convert(n), "description") == Get(b, "description") by {
      ConvertFrame(n, "description");
      RefinedFrame(n, "description");
    }
    assert Get(Convert(n), "default") == Get(b, "default") by {
      ConvertFrame(n, "default");
      RefinedFrame(n, "default");
    }
    assert Get(Convert(n), "enum") == Get(b, "enum") by {
      ConvertFrame(n, "enum");
      RefinedFrame(n, "enum");
    }
  }

  // ---------------------------------------------------------------- scalar kinds

  lemma KeySetsDisjoint()
    ensures BasicKeys !! NumberKeys
    ensures BasicKeys !! StringWriteKeys
    ensures BasicKeys !! ArrayKeys
    ensures BasicKeys !! ObjectKeys
    ensures "oneOf" !in BasicKeys
  {
  }

  /** On a node of no container kind the container refiners and `any` leave the shell alone. */
  lemma RefinedScalar(n: Node)
    requires Convertible(n) && !Forbidden(n)
    requires !IsKind(n, "array") && !IsKind(n, "object") && !IsKind(n, "alternatives") && !IsKind(n, "any")
    ensures Refined(n) == Scalars(n)
  {
    ScalarsKind(n);
  }

  /** A number node: `type` is `integer` exactly when the FIRST rule is `integer`, and every
      bound is the argument of the last rule that writes it. */
  lemma NumberConversion(n: Node)
    requires Convertible(n) && !Forbidden(n) && IsKind(n, "number")
    ensures Lookup(Refined(n), "type") ==
      if |n.rules| > 0 && n.rules[0].name == "integer" then Str("integer") else Str("number")
    ensures Get(Convert(n), "maximum") == LastArg(n.rules, {"max", "less"}, None)
    ensures Get(Convert(n), "minimum") == LastArg(n.rules, {"min", "greater"}, None)
    ensures Get(Convert(n), "multipleOf") == LastArg(n.rules, {"multiple"}, None)
    ensures Get(Convert(n), "exclusiveMinimum") == FlagIfAny(n.rules, {"greater"}, None)
    ensures Get(Convert(n), "exclusiveMaximum") == FlagIfAny(n.rules, {"less"}, None)
  {
    var b := BasicProperties(n);
    RefinedScalar(n);
    var r := NumberRules(b, n.rules);
    assert Refined(n) == r by {
      assert RefineNumber(b, n) == r;
    }
    NumberRulesLastWins(b, n.rules);
    KeySetsDisjoint();
    assert "maximum" in NumberKeys && "minimum" in NumberKeys && "multipleOf" in NumberKeys;
    assert "exclusiveMinimum" in NumberKeys && "exclusiveMaximum" in NumberKeys;
    ConvertFrame(n, "maximum");
    ConvertFrame(n, "minimum");
    ConvertFrame(n, "multipleOf");
    ConvertFrame(n, "exclusiveMinimum");
    ConvertFrame(n, "exclusiveMaximum");
  }

  /** A date node becomes an `integer` when its `timestamp` flag is truthy, otherwise a
      `string` with format `date-time`; nothing else is added to the base shell. */
  lemma DateConversion(n: Node)
    requires Convertible(n) && !Forbidden(n) && IsKind(n, "date")
    ensures Truthy(n.flags.timestamp) ==> Refined(n) == BasicProperties(n)["type" := Str("integer")]
    ensures !Truthy(n.flags.timestamp) ==>
      Refined(n) == BasicProperties(n)["type" := Str("string")]["format" := Str("date-time")]
  {
    RefinedScalar(n);
  }

  /** An `any` node gets the list of every JSON type and nothing else. */
  lemma AnyConversion(n: Node)
    requires Convertible(n) && !Forbidden(n) && IsKind(n, "any")
    ensures Refined(n) == BasicProperties(n)["type" := Arr(AnyTypeList)]
  {
    ScalarsKind(n);
  }

  /** The shell of a string node: the base shell, the encoding, the `meta` scan, the rule scan. */
  function StringShell(n: Node): Schema
    requires StringRefinable(n)
  {
    StringRules(MetaMediaType(CopyEncoding(BasicProperties(n), n), n.meta), n.rules)
  }

  lemma StringRefined(n: Node)
    requires Convertible(n) && !Forbidden(n) && IsKind(n, "string")
    ensures Refined(n) == StringShell(n)
  {
    RefinedScalar(n);
    assert RefineString(BasicProperties(n), n) == StringShell(n);
  }

  /** A string node keeps its kind (widened with `null` when `valids` holds null), copies a
      truthy encoding, and takes `contentMediaType` from the last annotation that has one. */
  lemma StringAnnotations(n: Node)
    requires Convertible(n) && !Forbidden(n) && IsKind(n, "string")
    ensures Lookup(Convert(n), "type") == if Null in n.valids then Arr([Str("string"), Str("null")]) else Str("string")
    ensures Get(Convert(n), "contentEncoding") ==
      if Truthy(n.flags.encoding) then Some(n.flags.encoding) else None
    ensures (forall i :: 0 <= i < |n.meta| ==> !Truthy(Prop(n.meta[i], "contentMediaType"))) ==>
      Get(Convert(n), "contentMediaType") == None
    ensures (exists i :: 0 <= i < |n.meta| && Truthy(Prop(n.meta[i], "contentMediaType"))) ==>
      exists i :: 0 <= i < |n.meta| && Truthy(Prop(n.meta[i], "contentMediaType"))
        && Get(Convert(n), "contentMediaType") == Some(Prop(n.meta[i], "contentMediaType"))
        && forall j :: i < j < |n.meta| ==> !Truthy(Prop(n.meta[j], "contentMediaType"))
  {
    StringRefined(n);
    assert Lookup(Refined(n), "type") == Str("string");
    StringEncoding(n);
    StringMediaType(n);
  }

  /** The `contentEncoding` part of `StringAnnotations`. */
  lemma StringEncoding(n: Node)
    requires Convertible(n) && !Forbidden(n) && IsKind(n, "string")
    ensures Get(Convert(n), "contentEncoding") ==
      if Truthy(n.flags.encoding) then Some(n.flags.encoding) else None
  {
    var b := BasicProperties(n);
    var s1 := CopyEncoding(b, n);
    var s2 := MetaMediaType(s1, n.meta);
    StringRefined(n);
    StringKeysDistinct();
    assert "contentEncoding" !in b by {
      KeySetsDisjoint();
      assert "contentEncoding" in StringWriteKeys;
    }
    MetaMediaTypeFrame(s1, n.meta);
    StringRulesKeep(s2, n.rules, "contentEncoding");
    ConvertFrame(n, "contentEncoding");
  }

  /** The `contentMediaType` part of `StringAnnotations`. */
  lemma StringMediaType(n: Node)
    requires Convertible(n) && !Forbidden(n) && IsKind(n, "string")
    ensures (forall i :: 0 <= i < |n.meta| ==> !Truthy(Prop(n.meta[i], "contentMediaType"))) ==>
      Get(Convert(n), "contentMediaType") == None
    ensures (exists i :: 0 <= i < |n.meta| && Truthy(Prop(n.meta[i], "contentMediaType"))) ==>
      exists i :: 0 <= i < |n.meta| && Truthy(Prop(n.meta[i], "contentMediaType"))
        && Get(Convert(n), "contentMediaType") == Some(Prop(n.meta[i], "contentMediaType"))
        && forall j :: i < j < |n.meta| ==> !Truthy(Prop(n.meta[j], "contentMediaType"))
  {
    var b := BasicProperties(n);
    var s1 := CopyEncoding(b, n);
    var s2 := MetaMediaType(s1, n.meta);
    StringRefined(n);
    StringKeysDistinct();
    assert "contentMediaType" !in b by {
      KeySetsDisjoint();
      assert "contentMediaType" in StringWriteKeys;
    }
    assert Get(s1, "contentMediaType") == None;
    MetaMediaTypeLastWins(s1, n.meta);
    StringRulesKeep(s2, n.rules, "contentMediaType");
    ConvertFrame(n, "contentMediaType");
  }

  /** A key the rule scan never writes keeps its value. */
  lemma StringRulesKeep(s: Schema, rules: seq<Rule>, k: string)
    requires StringRulesDefined(rules) && k !in StringKeys
    ensures Get(StringRules(s, rules), k) == Get(s, k)
  {
    StringRulesLastWins(s, rules);
  }

  /** The rule-written keys of a string node. A `format` is the one the last format-writing
      rule gives; `oneOf` comes only from an `ip` rule listing two or more versions. */
  lemma StringConversion(n: Node)
    requires Convertible(n) && !Forbidden(n) && IsKind(n, "string")
    ensures Get(Convert(n), "minLength") == LastArg(n.rules, {"min"}, None)
    ensures Get(Convert(n), "maxLength") == LastArg(n.rules, {"max"}, None)
    ensures Get(Convert(n), "pattern") ==
      (var k := LastWhere(n.rules, NameIn({"regex"}));
       if k < 0 then None else Some(Prop(Prop(n.rules[k].arg, "pattern"), "source")))
    ensures Get(Convert(n), "format") ==
      (var k := LastWhere(n.rules, WritesFormat); if k < 0 then None else Some(FormatOf(n.rules[k])))
    ensures Get(Convert(n), "oneOf") ==
      (var k := LastWhere(n.rules, WritesOneOf);
       if k < 0 then None else Some(Arr(FormatAlternatives(IpVersions(n.rules[k]).elems))))
  {
    var b := BasicProperties(n);
    var s1 := CopyEncoding(b, n);
    var s2 := MetaMediaType(s1, n.meta);
    StringRefined(n);
    KeySetsDisjoint();
    StringKeysDistinct();
    assert forall k :: k in StringKeys ==> Get(s2, k) == None by {
      MetaMediaTypeLastWins(s1, n.meta);
    }
    StringRulesLastWins(s2, n.rules);
    ConvertFrame(n, "minLength");
    ConvertFrame(n, "maxLength");
    ConvertFrame(n, "pattern");
    ConvertFrame(n, "format");
    ConvertFrame(n, "oneOf");
  }

  lemma StringKeysDistinct()
    ensures "contentEncoding" !in StringKeys && "contentMediaType" !in StringKeys
    ensures "contentEncoding" != "contentMediaType"
    ensures "type" !in StringWriteKeys
    ensures "format" in StringKeys && "oneOf" in StringKeys && "pattern" in StringKeys
    ensures "minLength" in StringKeys && "maxLength" in StringKeys
  {
  }

  /** What one `ip` rule writes: `ipv4` without versions, the single version as `format`,
      and one `{format}` alternative per version under `oneOf` when there are several. */
  lemma IpRuleOutcome(r: Rule)
    requires r.name == "ip" && StringRuleDefined(r)
    ensures IsEmpty(IpVersions(r)) ==> WritesFormat(r) && !WritesOneOf(r) && FormatOf(r) == Str("ipv4")
    ensures !IsEmpty(IpVersions(r)) && |IpVersions(r).elems| == 1 ==>
      WritesFormat(r) && !WritesOneOf(r) && FormatOf(r) == IpVersions(r).elems[0]
    ensures !IsEmpty(IpVersions(r)) && |IpVersions(r).elems| != 1 ==>
      !WritesFormat(r) && WritesOneOf(r) && |IpVersions(r).elems| >= 2
  {
  }

  // ---------------------------------------------------------------- binary

  /** `format: binary` unless a format is already there. */
  function DefaultFormatBinary(s: Schema): (r: Schema)
    ensures "format" in r
    ensures "format" in s ==> r == s
    ensures forall k :: k != "format" ==> Get(r, k) == Get(s, k)
  {
    if "format" in s then s else s["format" := Str("binary")]
  }

  /** The base shell of a binary node is the shell of the same node typed `string`, except for
      its `type`. */
  lemma BinaryBasic(n: Node)
    requires IsKind(n, "binary")
    ensures BasicProperties(n.(kind := Str("string"))) == BasicProperties(n)["type" := Str("string")]
  {
    var m := n.(kind := Str("string"));
    assert FieldType(m) == Str("string") && FieldType(n) == Str("binary");
    assert Enum(m) == Enum(n);
  }

  /** The non-recursive refiners on a binary node: the string refiner's outcome on the same
      node typed `string`, with the `format` the binary refiner wrote as the fallback. */
  lemma BinaryScalars(n: Node)
    requires IsKind(n, "binary") && StringRefinable(n)
    ensures Scalars(n) == DefaultFormatBinary(StringShell(n.(kind := Str("string"))))
  {
    var m := n.(kind := Str("string"));
    var c := CopyEncoding(BasicProperties(m), n);
    var f := Str("binary");
    var s2 := RefineBinary(RefineNumber(BasicProperties(n), n), n);
    BinaryPrefix(n);
    assert CopyEncoding(s2, n) == s2;
    MetaMediaTypeUpdate(c, n.meta, "format", f);
    var d := MetaMediaType(c, n.meta);
    assert "format" !in d by {
      BinaryNoFormat(n);
      MetaMediaTypeFrame(c, n.meta);
    }
    StringRulesFormatDefault(d, n.rules, f);
    assert StringShell(m) == StringRules(d, n.rules);
    assert RefineString(s2, n) == StringRules(d["format" := f], n.rules) by {
      assert d["format" := f] == MetaMediaType(CopyEncoding(s2, n), n.meta);
    }
  }

  /** The number and binary refiners on a binary node: the string twin's base shell with the
      encoding copied and `format: binary`. */
  lemma BinaryPrefix(n: Node)
    requires IsKind(n, "binary")
    ensures RefineBinary(RefineNumber(BasicProperties(n), n), n) ==
      CopyEncoding(BasicProperties(n.(kind := Str("string"))), n)["format" := Str("binary")]
  {
    BinaryBasic(n);
  }

  /** The string twin's base shell with the encoding copied has no `format`. */
  lemma BinaryNoFormat(n: Node)
    ensures "format" !in CopyEncoding(BasicProperties(n.(kind := Str("string"))), n)
  {
    KeySetsDisjoint();
    assert "format" in StringWriteKeys;
    StringKeysDistinct();
  }

  /** After the binary refiner the node is treated as a string: the string refiner runs on it
      too. Its output is the conversion of the same node typed `string`, with `format: binary`
      filled in when no string rule wrote a format (a later format rule wins). */
  lemma BinaryAsString(n: Node)
    requires Convertible(n) && !Forbidden(n) && IsKind(n, "binary")
    ensures var m := n.(kind := Str("string"));
      && Convertible(m) && !Forbidden(m)
      && Refined(n) == DefaultFormatBinary(Refined(m))
      && Convert(n) == DefaultFormatBinary(Convert(m))
  {
    var m := n.(kind := Str("string"));
    assert Presence(m) == Presence(n);
    assert Convertible(m);
    BinaryScalars(n);
    RefinedScalar(n);
    StringRefined(m);
    WidenDefaultFormat(Refined(m), n, m);
  }

  /** The null widening and the `format` default touch different keys, so they commute. */
  lemma WidenDefaultFormat(r: Schema, n: Node, m: Node)
    requires n.valids == m.valids
    ensures WithNullType(DefaultFormatBinary(r), n) == DefaultFormatBinary(WithNullType(r, m))
  {
    assert Lookup(DefaultFormatBinary(r), "type") == Lookup(r, "type") by {
      assert Get(DefaultFormatBinary(r), "type") == Get(r, "type");
    }
  }

  // ---------------------------------------------------------------- array

  lemma ArrayKeysDistinct()
    ensures "maxItems" in ArrayRuleKeys && "minItems" in ArrayRuleKeys && "uniqueItems" in ArrayRuleKeys
    ensures "items" !in ArrayRuleKeys && "type" !in ArrayRuleKeys
  {
  }

  /** The shell of an array node: the base shell, the rule scan, then `items`. */
  lemma ArrayRefined(n: Node)
    requires Convertible(n) && !Forbidden(n) && IsKind(n, "array")
    ensures ItemsConvertible(n)
    ensures Refined(n) == ArrayRules(BasicProperties(n), n.rules)["items" := Obj(ArrayItems(n))]
  {
    ScalarsKind(n);
    var b := BasicProperties(n);
    assert Scalars(n) == b;
    var s5 := RefineArray(b, n);
    assert TypeIs(s5, "array") by {
      assert Get(s5, "type") == Get(b, "type");
    }
  }

  /** An array node: the item bounds come from the last rule that writes each (`length` writes
      both), `uniqueItems` from any `unique` rule, and `items` is always present: `{}` without
      an item list, the single item's conversion, or `anyOf` over every item's conversion in
      order (also for an empty list). */
  lemma ArrayConversion(n: Node)
    requires Convertible(n) && !Forbidden(n) && IsKind(n, "array")
    ensures ItemsConvertible(n)
    ensures Lookup(Refined(n), "type") == Str("array")
    ensures Get(Convert(n), "maxItems") == LastArg(n.rules, {"max", "length"}, None)
    ensures Get(Convert(n), "minItems") == LastArg(n.rules, {"min", "length"}, None)
    ensures Get(Convert(n), "uniqueItems") == FlagIfAny(n.rules, {"unique"}, None)
    ensures "items" in Convert(n)
    ensures n.items.NoItems? ==> Convert(n)["items"] == Obj(map[])
    ensures n.items.ItemList? && |n.items.nodes| == 1 ==> Convert(n)["items"] == Obj(Convert(n.items.nodes[0]))
    ensures n.items.ItemList? && |n.items.nodes| != 1 ==>
      && Convert(n)["items"].Obj?
      && Convert(n)["items"].fields.Keys == {"anyOf"}
      && Convert(n)["items"].fields["anyOf"].Arr?
      && |Convert(n)["items"].fields["anyOf"].elems| == |n.items.nodes|
      && forall i :: 0 <= i < |n.items.nodes| ==>
           Convert(n)["items"].fields["anyOf"].elems[i] == Obj(Convert(n.items.nodes[i]))
  {
    var b := BasicProperties(n);
    ArrayRefined(n);
    ArrayRulesLastWins(b, n.rules);
    KeySetsDisjoint();
    ArrayKeysDistinct();
    assert "maxItems" in ArrayKeys && "minItems" in ArrayKeys && "uniqueItems" in ArrayKeys;
    ConvertFrame(n, "maxItems");
    ConvertFrame(n, "minItems");
    ConvertFrame(n, "uniqueItems");
    ConvertFrame(n, "items");
    assert Get(Refined(n), "type") == Get(b, "type");
  }

  // ---------------------------------------------------------------- object

  /** The shell of an object node: properties (children, then pattern rules), the unknown-keys
      policy, and `required` only when some child is required. */
  lemma ObjectRefined(n: Node)
    requires Convertible(n) && !Forbidden(n) && IsKind(n, "object")
    ensures ObjectConvertible(n)
    ensures Refined(n) == RefineObject(BasicProperties(n), n)
  {
    ScalarsKind(n);
    var b := BasicProperties(n);
    assert Scalars(n) == b;
    var s6 := RefineObject(b, n);
    assert !TypeIs(s6, "alternatives") && !TypeIs(s6, "any") by {
      assert Get(s6, "type") == Get(b, "type");
    }
  }

  /** `required` survives exactly when some child is required, and then lists the keys of the
      required children in child order; `additionalProperties` follows the flag, then the
      option, then `false`; `properties` holds every child and every object-shaped pattern. */
  lemma ObjectConversion(n: Node)
    requires Convertible(n) && !Forbidden(n) && IsKind(n, "object")
    ensures ChildrenConvertible(n, n.children) && PatternsConvertible(n, n.patterns)
    ensures Lookup(Refined(n), "type") == Str("object")
    ensures Get(Convert(n), "additionalProperties") == Some(AdditionalProperties(n))
    ensures "required" in Convert(n) <==> exists i :: 0 <= i < |n.children| && IsRequired(n.children[i].1)
    ensures "required" in Convert(n) ==> Convert(n)["required"] == Arr(RequiredNames(n.children))
    ensures Get(Convert(n), "properties") ==
      Some(Obj(PatternProperties(n, n.patterns, ChildProperties(n, n.children))))
  {
    ObjectRefined(n);
    ObjectNodeConvertible(n);
    ObjectRequired(n);
    ObjectShell(BasicProperties(n), n);
    ConvertFrame(n, "additionalProperties");
    ConvertFrame(n, "properties");
  }

  /** What the object refiner stores under `properties` and `additionalProperties`. */
  lemma ObjectShell(s: Schema, n: Node)
    requires TypeIs(s, "object") && ObjectConvertible(n)
    ensures ChildrenConvertible(n, n.children) && PatternsConvertible(n, n.patterns)
    ensures Get(RefineObject(s, n), "additionalProperties") == Some(AdditionalProperties(n))
    ensures Get(RefineObject(s, n), "properties") ==
      Some(Obj(PatternProperties(n, n.patterns, ChildProperties(n, n.children))))
  {
    ObjectNodeConvertible(n);
    ObjectKeysDistinct();
  }

  /** The `required` part of `ObjectConversion`. */
  lemma ObjectRequired(n: Node)
    requires Convertible(n) && !Forbidden(n) && IsKind(n, "object")
    ensures "required" in Convert(n) <==> exists i :: 0 <= i < |n.children| && IsRequired(n.children[i].1)
    ensures "required" in Convert(n) ==> Convert(n)["required"] == Arr(RequiredNames(n.children))
  {
    ObjectRefined(n);
    ObjectNodeConvertible(n);
    var b := BasicProperties(n);
    assert "required" !in b by {
      KeySetsDisjoint();
      assert "required" in ObjectKeys;
    }
    ConvertFrame(n, "required");
    RequiredNamesEmpty(n.children);
  }

  lemma ObjectKeysDistinct()
    ensures "type" !in ObjectKeys && "required" != "properties" && "required" != "additionalProperties"
    ensures "properties" != "additionalProperties"
  {
  }

  /** No name is pushed exactly when no child is required. */
  lemma RequiredNamesEmpty(cs: seq<(string, Node)>)
    ensures RequiredNames(cs) == [] <==> forall i :: 0 <= i < |cs| ==> !IsRequired(cs[i].1)
  {
    if RequiredNames(cs) != [] {
      assert RequiredNames(cs)[0] in RequiredNames(cs);
    }
  }

  /** The pushes follow the children: the names of a concatenation are the names of its
      first part followed by those of its second, so `required` lists keys in child order. */
  lemma {:induction false} RequiredNamesAppend(a: seq<(string, Node)>, b: seq<(string, Node)>)
    ensures RequiredNames(a + b) == RequiredNames(a) + RequiredNames(b)
    decreases |b|
  {
    if b == [] {
      assert a + b == a;
    } else {
      var b' := b[..|b| - 1];
      assert (a + b)[..|a + b| - 1] == a + b';
      assert (a + b)[|a + b| - 1] == b[|b| - 1];
      RequiredNamesAppend(a, b');
    }
  }

  /** With distinct child keys (as the children of a Joi object have), every required
      child's key is pushed exactly once, and nothing else is pushed. */
  lemma {:induction false} RequiredNamesOnce(cs: seq<(string, Node)>)
    requires forall i, j :: 0 <= i < j < |cs| ==> cs[i].0 != cs[j].0
    ensures forall i :: 0 <= i < |cs| ==>
      multiset(RequiredNames(cs))[Str(cs[i].0)] == if IsRequired(cs[i].1) then 1 else 0
    ensures |RequiredNames(cs)| <= |cs|
    decreases |cs|
  {
    if cs != [] {
      var init := cs[..|cs| - 1];
      var last := cs[|cs| - 1];
      RequiredNamesOnce(init);
      var tail: seq<Value> := if IsRequired(last.1) then [Str(last.0)] else [];
      assert RequiredNames(cs) == RequiredNames(init) + tail;
      assert Str(last.0) !in RequiredNames(init);
      forall i | 0 <= i < |cs|
        ensures multiset(RequiredNames(cs))[Str(cs[i].0)] == if IsRequired(cs[i].1) then 1 else 0
      {
        if i < |cs| - 1 {
          assert init[i] == cs[i];
          assert Str(cs[i].0) != Str(last.0);
        }
      }
    }
  }

  /** A repeated child key keeps the conversion of its LAST occurrence. */
  lemma {:induction false} ChildPropertiesLastWins(n: Node, cs: seq<(string, Node)>, i: int)
    requires ChildrenConvertible(n, cs)
    requires 0 <= i < |cs| && forall j :: i < j < |cs| ==> cs[j].0 != cs[i].0
    ensures cs[i].0 in ChildProperties(n, cs)
    ensures ChildProperties(n, cs)[cs[i].0] == Obj(Convert(cs[i].1))
    decreases |cs|
  {
    if i < |cs| - 1 {
      var init := cs[..|cs| - 1];
      assert ChildrenConvertible(n, init) by {
        forall j | 0 <= j < |init| ensures init[j] == cs[j] { }
      }
      assert init[i] == cs[i];
      ChildPropertiesLastWins(n, init, i);
    }
  }

  /** The keys of the pattern loop's result: the keys it started from and the regex text of
      every object-shaped pattern rule. */
  lemma {:induction false} PatternPropertiesKeys(n: Node, ps: seq<Pattern>, props: map<string, Value>)
    requires PatternsConvertible(n, ps)
    ensures PatternProperties(n, ps, props).Keys ==
      props.Keys + set p | 0 <= p < |ps| && ps[p].rule.Described? :: ps[p].regex
    decreases |ps|
  {
    if ps != [] {
      var init := ps[..|ps| - 1];
      assert PatternsConvertible(n, init) by {
        forall p | 0 <= p < |init| ensures init[p] == ps[p] { }
      }
      PatternPropertiesKeys(n, init, props);
      var last := ps[|ps| - 1];
      var before := set p | 0 <= p < |init| && init[p].rule.Described? :: init[p].regex;
      var after := set p | 0 <= p < |ps| && ps[p].rule.Described? :: ps[p].regex;
      assert after == before + (if last.rule.Described? then {last.regex} else {}) by {
        forall x | x in after ensures x in before + (if last.rule.Described? then {last.regex} else {}) {
          var p :| 0 <= p < |ps| && ps[p].rule.Described? && ps[p].regex == x;
          if p < |init| {
            assert init[p] == ps[p];
          }
        }
        forall x | x in before ensures x in after {
          var p :| 0 <= p < |init| && init[p].rule.Described? && init[p].regex == x;
          assert init[p] == ps[p];
        }
      }
    }
  }

  /** A regex repeated over several object-shaped pattern rules keeps the LAST rule's property;
      it also overrides a child of the same name. */
  lemma {:induction false} PatternPropertiesLastWins(n: Node, ps: seq<Pattern>, props: map<string, Value>, p: int)
    requires PatternsConvertible(n, ps)
    requires 0 <= p < |ps| && ps[p].rule.Described?
    requires forall q :: p < q < |ps| && ps[q].rule.Described? ==> ps[q].regex != ps[p].regex
    ensures ps[p].regex in PatternProperties(n, ps, props)
    ensures PatternProperties(n, ps, props)[ps[p].regex] == PatternProperty(n, ps[p].rule)
    decreases |ps|
  {
    if p < |ps| - 1 {
      var init := ps[..|ps| - 1];
      assert PatternsConvertible(n, init) by {
        forall q | 0 <= q < |init| ensures init[q] == ps[q] { }
      }
      assert init[p] == ps[p];
      PatternPropertiesLastWins(n, init, props, p);
    }
  }

  /** A key that no object-shaped pattern rule names keeps the value it started with. */
  lemma {:induction false} PatternPropertiesKeep(n: Node, ps: seq<Pattern>, props: map<string, Value>, k: string)
    requires PatternsConvertible(n, ps)
    requires forall q :: 0 <= q < |ps| && ps[q].rule.Described? ==> ps[q].regex != k
    ensures Get(PatternProperties(n, ps, props), k) == Get(props, k)
    decreases |ps|
  {
    if ps != [] {
      var init := ps[..|ps| - 1];
      assert PatternsConvertible(n, init) by {
        forall q | 0 <= q < |init| ensures init[q] == ps[q] { }
      }
      PatternPropertiesKeep(n, init, props, k);
    }
  }

  // ---------------------------------------------------------------- alternatives

  /** A description with no field converts to `{}`; this is what a conditional entry in a list
      of several alternatives becomes. */
  lemma EmptyDescriptionConversion()
    ensures Convertible(EmptyDescription())
    ensures Convert(EmptyDescription()) == map[]
  {
    var e := EmptyDescription();
    assert Presence(e) == Undef;
    assert Enum(e).None?;
    assert BasicProperties(e) == map[];
    RefinedScalar(e);
  }

  /** An alternatives node loses its `type` and gets `oneOf`; with null among its `valids` the
      widening then produces `[undefined, 'null']`. */
  lemma AlternativesConversion(n: Node)
    requires Convertible(n) && !Forbidden(n) && IsKind(n, "alternatives")
    ensures BranchesConvertible(n)
    ensures "type" !in Refined(n)
    ensures Get(Convert(n), "oneOf") == Some(Arr(OneOf(n)))
    ensures Null !in n.valids ==> "type" !in Convert(n)
    ensures Null in n.valids ==> Convert(n)["type"] == Arr([Undef, Str("null")])
  {
    ScalarsKind(n);
    var b := BasicProperties(n);
    assert Scalars(n) == b;
    ConvertFrame(n, "oneOf");
  }

  /** The two shapes of `oneOf`. The `is`/`then`/`otherwise` form yields the `then` and the
      `otherwise` conversions, in that order, each only when present; otherwise there is one
      entry per alternative, in order, a conditional entry counting as an empty description. */
  lemma OneOfShape(n: Node)
    requires BranchesConvertible(n)
    ensures var alts := n.alternatives;
      SingleConditional(alts) ==>
        && |OneOf(n)| == (if alts[0].whenTrue.Some? then 1 else 0) + (if alts[0].otherwise.Some? then 1 else 0)
        && (alts[0].whenTrue.Some? ==> OneOf(n)[0] == Obj(Convert(alts[0].whenTrue.value)))
        && (alts[0].otherwise.Some? ==> OneOf(n)[|OneOf(n)| - 1] == Obj(Convert(alts[0].otherwise.value)))
    ensures var alts := n.alternatives;
      !SingleConditional(alts) ==>
        && |OneOf(n)| == |alts|
        && forall i :: 0 <= i < |alts| ==>
             OneOf(n)[i] == Obj(if alts[i].Plain? then Convert(alts[i].node) else Convert(EmptyDescription()))
  {
    EmptyDescriptionConversion();
  }

  // ---------------------------------------------------------------- null widening

  /** The parent passed to the child conversions only bounds the recursion; it does not
      change the result. */
  lemma {:induction false} ChildPropertiesParent(n: Node, m: Node, cs: seq<(string, Node)>)
    requires ChildrenConvertible(n, cs) && ChildrenConvertible(m, cs)
    ensures ChildProperties(n, cs) == ChildProperties(m, cs)
    decreases |cs|
  {
    if cs != [] {
      var init := cs[..|cs| - 1];
      assert ChildrenConvertible(n, init) && ChildrenConvertible(m, init) by {
        forall j | 0 <= j < |init| ensures init[j] == cs[j] { }
      }
      ChildPropertiesParent(n, m, init);
    }
  }

  lemma {:induction false} PatternPropertiesParent(n: Node, m: Node, ps: seq<Pattern>, props: map<string, Value>)
    requires PatternsConvertible(n, ps) && PatternsConvertible(m, ps)
    ensures PatternProperties(n, ps, props) == PatternProperties(m, ps, props)
    decreases |ps|
  {
    if ps != [] {
      var init := ps[..|ps| - 1];
      assert PatternsConvertible(n, init) && PatternsConvertible(m, init) by {
        forall q | 0 <= q < |init| ensures init[q] == ps[q] { }
      }
      PatternPropertiesParent(n, m, init, props);
      var last := ps[|ps| - 1];
      if last.rule.Described? {
        ChildPropertiesParent(n, m, PatternChildren(last.rule));
      }
    }
  }

  /** The node with every null removed from its `valids`. */
  function NullFree(n: Node): (m: Node)
    ensures Null !in m.valids
  {
    n.(valids := WithoutNull(n.valids))
  }

  lemma NullFreeConvertible(n: Node)
    requires Convertible(n)
    ensures Convertible(NullFree(n)) && Forbidden(NullFree(n)) == Forbidden(n)
  {
    var m := NullFree(n);
    assert Presence(m) == Presence(n);
    assert ItemsConvertible(m) == ItemsConvertible(n);
    assert ObjectConvertible(m) == ObjectConvertible(n);
    assert BranchesConvertible(m) == BranchesConvertible(n);
  }

  /** `enum` is the same with or without the nulls. */
  lemma NullFreeBasic(n: Node)
    ensures BasicProperties(NullFree(n)) == BasicProperties(n)
  {
    var m := NullFree(n);
    assert Enum(m) == Enum(n) by {
      NonEmptyEntriesIgnoresNull(n.valids);
      if |m.valids| == 0 {
        assert NonEmptyEntries(m.valids) == [];
      }
    }
  }

  lemma NullFreeScalars(n: Node)
    requires (IsKind(n, "string") || IsKind(n, "binary")) ==> StringRefinable(n)
    ensures Scalars(NullFree(n)) == Scalars(n)
  {
    NullFreeBasic(n);
  }

  lemma NullFreeObject(s: Schema, n: Node)
    requires TypeIs(s, "object") ==> ObjectConvertible(n)
    ensures TypeIs(s, "object") ==> ObjectConvertible(NullFree(n))
    ensures RefineObject(s, NullFree(n)) == RefineObject(s, n)
  {
    var m := NullFree(n);
    assert ObjectConvertible(m) == ObjectConvertible(n);
    if TypeIs(s, "object") {
      ObjectNodeConvertible(n);
      ObjectNodeConvertible(m);
      ChildPropertiesParent(n, m, n.children);
      PatternPropertiesParent(n, m, n.patterns, ChildProperties(n, n.children));
    }
  }

  lemma NullFreeRefined(n: Node)
    requires Convertible(n) && !Forbidden(n)
    ensures Convertible(NullFree(n)) && !Forbidden(NullFree(n))
    ensures Refined(NullFree(n)) == Refined(n)
  {
    var m := NullFree(n);
    NullFreeConvertible(n);
    NullFreeScalars(n);
    ScalarsKind(n);
    var s4 := Scalars(n);
    assert RefineArray(s4, m) == RefineArray(s4, n);
    var s5 := RefineArray(s4, n);
    NullFreeObject(s5, n);
    var s6 := RefineObject(s5, n);
    assert RefineAlternatives(s6, m) == RefineAlternatives(s6, n);
  }

  /** A null among the `valids` changes nothing but the final `type`: `enum` drops null anyway
      (lodash counts it as empty), so the node converts like its null-free twin whose `type`
      is then widened to `[type, 'null']`. */
  lemma NullWidening(n: Node)
    requires Convertible(n)
    ensures Convertible(NullFree(n))
    ensures Convert(NullFree(n)) == (if Forbidden(n) then Convert(n) else Refined(n))
    ensures !Forbidden(n) && Null in n.valids ==>
      Convert(n) == Convert(NullFree(n))["type" := Arr([Lookup(Convert(NullFree(n)), "type"), Str("null")])]
    ensures !Forbidden(n) && Null !in n.valids ==> Convert(n) == Convert(NullFree(n))
  {
    NullFreeConvertible(n);
    if !Forbidden(n) {
      NullFreeRefined(n);
    }
  }
}
