/** The kind refiners that do not recurse (number, binary, string, date, any), the rule scans
    of the array refiner, and the final null widening, as functions on the schema fragment.
    Each rule scan is a left-to-right fold in which a later rule overwrites an earlier one;
    the `…LastWins` lemmas state the outcome of a whole scan rule by rule. */
module Refiners {
  import opened JsValues
  import opened Describe

  /** Index of the last rule satisfying `p`, or -1 when there is none. */
  function LastWhere(rules: seq<Rule>, p: Rule -> bool): (k: int)
    ensures -1 <= k < |rules|
    ensures k >= 0 ==> p(rules[k])
    ensures forall j :: k < j < |rules| ==> !p(rules[j])
  {
    if rules == [] then -1
    else if p(rules[|rules| - 1]) then |rules| - 1
    else LastWhere(rules[..|rules| - 1], p)
  }

  function NameIn(names: set<string>): Rule -> bool {
    (r: Rule) => r.name in names
  }

  /** The argument of the last rule named in `names`, or `fallback` when no rule is. */
  function LastArg(rules: seq<Rule>, names: set<string>, fallback: Option<Value>): Option<Value> {
    var k := LastWhere(rules, NameIn(names));
    if k < 0 then fallback else Some(rules[k].arg)
  }

  /** `true` when some rule is named in `names`, otherwise `fallback`. */
  function FlagIfAny(rules: seq<Rule>, names: set<string>, fallback: Option<Value>): Option<Value> {
    if LastWhere(rules, NameIn(names)) < 0 then fallback else Some(Bool(true))
  }

  function TypeIs(s: Schema, kind: string): bool {
    Lookup(s, "type") == Str(kind)
  }

  // ---------------------------------------------------------------- number / integer

  const NumberKeys: set<string> := {"maximum", "minimum", "exclusiveMinimum", "exclusiveMaximum", "multipleOf"}

  /** One iteration of the number refiner's `switch (rule.name)`. */
  function NumberRule(s: Schema, r: Rule): Schema {
    match r.name
    case "max" => s["maximum" := r.arg]
    case "min" => s["minimum" := r.arg]
    case "greater" => s["exclusiveMinimum" := Bool(true)]["minimum" := r.arg]
    case "less" => s["exclusiveMaximum" := Bool(true)]["maximum" := r.arg]
    case "multiple" => s["multipleOf" := r.arg]
    case _ => s
  }

  /** The scan `_.each(rules, …)` of the number refiner, rules taken in order. No rule
      writes `type`, so the type the refiner was chosen by is what the later refiners see. */
  function NumberRules(s: Schema, rules: seq<Rule>): (r: Schema)
    ensures Get(r, "type") == Get(s, "type")
  {
    if rules == [] then s else NumberRule(NumberRules(s, rules[..|rules| - 1]), rules[|rules| - 1])
  }

  /** `_setNumberFieldProperties`: runs only on a `number` or `integer` shell. */
  function RefineNumber(s: Schema, n: Node): (r: Schema)
    ensures !TypeIs(s, "number") && !TypeIs(s, "integer") ==> r == s
    ensures Get(r, "type") == Get(s, "type")
  {
    if TypeIs(s, "number") || TypeIs(s, "integer") then
      assert Get(NumberRules(s, n.rules), "type") == Get(s, "type") by {
        NumberRulesLastWins(s, n.rules);
      }
      NumberRules(s, n.rules)
    else s
  }

  /** The number refiner writes only the bound keys. */
  lemma RefineNumberFrame(s: Schema, n: Node)
    ensures var r := RefineNumber(s, n);
      && r.Keys <= s.Keys + NumberKeys
      && forall k :: k !in NumberKeys ==> Get(r, k) == Get(s, k)
  {
    NumberRulesLastWins(s, n.rules);
  }

  /** Last write wins: each bound is the argument of the last rule that writes it,
      `greater`/`less` also set the exclusive flag, unknown rule names leave no trace. */
  lemma {:induction false} NumberRulesLastWins(s: Schema, rules: seq<Rule>)
    ensures var r := NumberRules(s, rules);
      && Get(r, "maximum") == LastArg(rules, {"max", "less"}, Get(s, "maximum"))
      && Get(r, "minimum") == LastArg(rules, {"min", "greater"}, Get(s, "minimum"))
      && Get(r, "multipleOf") == LastArg(rules, {"multiple"}, Get(s, "multipleOf"))
      && Get(r, "exclusiveMinimum") == FlagIfAny(rules, {"greater"}, Get(s, "exclusiveMinimum"))
      && Get(r, "exclusiveMaximum") == FlagIfAny(rules, {"less"}, Get(s, "exclusiveMaximum"))
      && r.Keys <= s.Keys + NumberKeys
      && forall k :: k !in NumberKeys ==> Get(r, k) == Get(s, k)
    decreases |rules|
  {
    if rules != [] {
      NumberRulesLastWins(s, rules[..|rules| - 1]);
      NumberRuleEffect(NumberRules(s, rules[..|rules| - 1]), rules[|rules| - 1]);
    }
  }

  lemma NumberRuleEffect(s: Schema, r: Rule)
    ensures var t := NumberRule(s, r);
      && Get(t, "maximum") == (if r.name in {"max", "less"} then Some(r.arg) else Get(s, "maximum"))
      && Get(t, "minimum") == (if r.name in {"min", "greater"} then Some(r.arg) else Get(s, "minimum"))
      && Get(t, "multipleOf") == (if r.name in {"multiple"} then Some(r.arg) else Get(s, "multipleOf"))
      && Get(t, "exclusiveMinimum") == (if r.name in {"greater"} then Some(Bool(true)) else Get(s, "exclusiveMinimum"))
      && Get(t, "exclusiveMaximum") == (if r.name in {"less"} then Some(Bool(true)) else Get(s, "exclusiveMaximum"))
      && t.Keys <= s.Keys + NumberKeys
      && forall k :: k !in NumberKeys ==> Get(t, k) == Get(s, k)
  {
  }

  // ---------------------------------------------------------------- binary

  /** `_setBinaryFieldProperties`: a `binary` shell becomes a `string` with format `binary`. */
  function RefineBinary(s: Schema, n: Node): (r: Schema)
    ensures !TypeIs(s, "binary") ==> r == s
    ensures TypeIs(s, "binary") ==> TypeIs(r, "string") && "format" in r && r["format"] == Str("binary")
  {
    if !TypeIs(s, "binary") then s
    else CopyEncoding(s["type" := Str("string")], n)["format" := Str("binary")]
  }

  const BinaryKeys: set<string> := {"type", "contentEncoding", "format"}

  /** The binary refiner writes only `type`, `contentEncoding` and `format`. */
  lemma RefineBinaryFrame(s: Schema, n: Node)
    ensures var r := RefineBinary(s, n);
      && r.Keys <= s.Keys + BinaryKeys
      && forall k :: k !in BinaryKeys ==> Get(r, k) == Get(s, k)
  {
  }

  // ---------------------------------------------------------------- string

  const StringKeys: set<string> := {"minLength", "maxLength", "format", "oneOf", "pattern"}

  /** The `version` list of an `ip` rule's argument (undefined when there is no argument). */
  function IpVersions(r: Rule): Value {
    if IsNullish(r.arg) then Undef else Prop(r.arg, "version")
  }

  /** A rule the string refiner can read without throwing: `ip` and `regex` dereference their
      argument; an `ip` version list is either empty in the lodash sense or an array. */
  predicate StringRuleDefined(r: Rule) {
    && (r.name == "ip" ==> !IsNullish(r.arg) && (IsEmpty(IpVersions(r)) || IpVersions(r).Arr?))
    && (r.name == "regex" ==> !IsNullish(r.arg) && !IsNullish(Prop(r.arg, "pattern")))
  }

  /** One `{format: version}` fragment per IP version, in order. */
  function FormatAlternatives(versions: seq<Value>): (r: seq<Value>)
    ensures |r| == |versions|
    ensures forall i :: 0 <= i < |r| ==> r[i] == Obj(map["format" := versions[i]])
  {
    seq(|versions|, i requires 0 <= i < |versions| => Obj(map["format" := versions[i]]))
  }

  /** One iteration of the string refiner's `switch (rule.name)`. */
  function StringRule(s: Schema, r: Rule): Schema
    requires StringRuleDefined(r)
  {
    match r.name
    case "min" => s["minLength" := r.arg]
    case "max" => s["maxLength" := r.arg]
    case "email" => s["format" := Str("email")]
    case "hostname" => s["format" := Str("hostname")]
    case "uri" => s["format" := Str("uri")]
    case "ip" =>
      var versions := IpVersions(r);
      if !IsEmpty(versions) then
        if |versions.elems| == 1 then s["format" := versions.elems[0]]
        else s["oneOf" := Arr(FormatAlternatives(versions.elems))]
      else s["format" := Str("ipv4")]
    case "regex" => s["pattern" := Prop(Prop(r.arg, "pattern"), "source")]
    case "isoDate" => s["format" := Str("date-time")]
    case "uuid" => s["format" := Str("uuid")]
    case "guid" => s["format" := Str("uuid")]
    case _ => s
  }

  predicate StringRulesDefined(rules: seq<Rule>) {
    forall i :: 0 <= i < |rules| ==> StringRuleDefined(rules[i])
  }

  /** The rule scan of the string refiner, rules taken in order. */
  function StringRules(s: Schema, rules: seq<Rule>): (r: Schema)
    requires StringRulesDefined(rules)
    ensures Get(r, "type") == Get(s, "type")
  {
    if rules == [] then s
    else StringRule(StringRules(s, rules[..|rules| - 1]), rules[|rules| - 1])
  }

  /** Does this rule write `format`, and what? (every format rule, and `ip` unless it lists
      two or more versions, in which case it writes `oneOf` instead) */
  predicate WritesFormat(r: Rule) {
    || r.name in {"email", "hostname", "uri", "isoDate", "uuid", "guid"}
    || (r.name == "ip" && (IsEmpty(IpVersions(r)) || (IpVersions(r).Arr? && |IpVersions(r).elems| == 1)))
  }

  predicate WritesOneOf(r: Rule) {
    r.name == "ip" && !IsEmpty(IpVersions(r)) && IpVersions(r).Arr? && |IpVersions(r).elems| != 1
  }

  function FormatOf(r: Rule): Value
    requires WritesFormat(r)
  {
    match r.name
    case "ip" => if IsEmpty(IpVersions(r)) then Str("ipv4") else IpVersions(r).elems[0]
    case "isoDate" => Str("date-time")
    case "guid" => Str("uuid")
    case _ => Str(r.name)
  }

  /** Last write wins for every key a string rule writes; other keys are untouched. */
  lemma {:induction false} StringRulesLastWins(s: Schema, rules: seq<Rule>)
    requires StringRulesDefined(rules)
    ensures var r := StringRules(s, rules);
      && Get(r, "minLength") == LastArg(rules, {"min"}, Get(s, "minLength"))
      && Get(r, "maxLength") == LastArg(rules, {"max"}, Get(s, "maxLength"))
      && Get(r, "pattern") ==
           (var k := LastWhere(rules, NameIn({"regex"}));
            if k < 0 then Get(s, "pattern") else Some(Prop(Prop(rules[k].arg, "pattern"), "source")))
      && Get(r, "format") ==
           (var k := LastWhere(rules, WritesFormat);
            if k < 0 then Get(s, "format") else Some(FormatOf(rules[k])))
      && Get(r, "oneOf") ==
           (var k := LastWhere(rules, WritesOneOf);
            if k < 0 then Get(s, "oneOf") else Some(Arr(FormatAlternatives(IpVersions(rules[k]).elems))))
      && r.Keys <= s.Keys + StringKeys
      && forall k :: k !in StringKeys ==> Get(r, k) == Get(s, k)
    decreases |rules|
  {
    if rules != [] {
      StringRulesLastWins(s, rules[..|rules| - 1]);
      StringRuleEffect(StringRules(s, rules[..|rules| - 1]), rules[|rules| - 1]);
    }
  }

  lemma StringRuleEffect(s: Schema, r: Rule)
    requires StringRuleDefined(r)
    ensures var t := StringRule(s, r);
      && Get(t, "minLength") == (if r.name == "min" then Some(r.arg) else Get(s, "minLength"))
      && Get(t, "maxLength") == (if r.name == "max" then Some(r.arg) else Get(s, "maxLength"))
      && Get(t, "pattern") ==
           (if r.name == "regex" then Some(Prop(Prop(r.arg, "pattern"), "source")) else Get(s, "pattern"))
      && Get(t, "format") == (if WritesFormat(r) then Some(FormatOf(r)) else Get(s, "format"))
      && Get(t, "oneOf") ==
           (if WritesOneOf(r) then Some(Arr(FormatAlternatives(IpVersions(r).elems))) else Get(s, "oneOf"))
      && t.Keys <= s.Keys + StringKeys
      && forall k :: k !in StringKeys ==> Get(t, k) == Get(s, k)
  {
  }

  /** A `format` written before the scan survives exactly when no rule writes one. */
  lemma {:induction false} StringRulesFormatDefault(s: Schema, rules: seq<Rule>, f: Value)
    requires StringRulesDefined(rules)
    requires "format" !in s
    ensures StringRules(s["format" := f], rules) ==
      (var r := StringRules(s, rules); if "format" in r then r else r["format" := f])
    decreases |rules|
  {
    if rules != [] {
      StringRulesFormatDefault(s, rules[..|rules| - 1], f);
      StringRuleFormatDefault(StringRules(s, rules[..|rules| - 1]), rules[|rules| - 1], f);
    }
  }

  /** One rule commutes with filling in a missing `format`. */
  lemma StringRuleFormatDefault(t: Schema, r: Rule, f: Value)
    requires StringRuleDefined(r)
    ensures StringRule(if "format" in t then t else t["format" := f], r) ==
      (var u := StringRule(t, r); if "format" in u then u else u["format" := f])
  {
  }

  /** The `_.forEach(meta, …)` scan: the last annotation with a truthy `contentMediaType` wins. */
  function MetaMediaType(s: Schema, meta: seq<Value>): (r: Schema)
    requires forall i :: 0 <= i < |meta| ==> !IsNullish(meta[i])
    ensures meta == [] ==> r == s
  {
    if meta == [] then s
    else
      var s' := MetaMediaType(s, meta[..|meta| - 1]);
      var m := meta[|meta| - 1];
      if Truthy(Prop(m, "contentMediaType")) then s'["contentMediaType" := Prop(m, "contentMediaType")]
      else s'
  }

  /** Does annotation `m` carry a truthy `contentMediaType`? */
  predicate HasMediaType(m: Value)
    requires !IsNullish(m)
  {
    Truthy(Prop(m, "contentMediaType"))
  }

  /** Only `contentMediaType` is written, and it holds the value of the last annotation whose
      `contentMediaType` is truthy; without one it keeps its earlier value. */
  lemma {:induction false} MetaMediaTypeLastWins(s: Schema, meta: seq<Value>)
    requires forall i :: 0 <= i < |meta| ==> !IsNullish(meta[i])
    ensures var r := MetaMediaType(s, meta);
      && r.Keys <= s.Keys + {"contentMediaType"}
      && (forall k :: k != "contentMediaType" ==> Get(r, k) == Get(s, k))
      && ((exists i :: 0 <= i < |meta| && Truthy(Prop(meta[i], "contentMediaType"))) ==>
           exists i :: 0 <= i < |meta| && Truthy(Prop(meta[i], "contentMediaType"))
             && Get(r, "contentMediaType") == Some(Prop(meta[i], "contentMediaType"))
             && forall j :: i < j < |meta| ==> !Truthy(Prop(meta[j], "contentMediaType")))
      && ((forall i :: 0 <= i < |meta| ==> !Truthy(Prop(meta[i], "contentMediaType"))) ==>
           Get(r, "contentMediaType") == Get(s, "contentMediaType"))
  {
    MetaMediaTypeFrame(s, meta);
    if exists i :: 0 <= i < |meta| && HasMediaType(meta[i]) {
      var i := MetaMediaTypeLast(s, meta);
    } else {
      MetaMediaTypeNone(s, meta);
    }
  }

  /** The `meta` scan writes no key but `contentMediaType`. */
  lemma {:induction false} MetaMediaTypeFrame(s: Schema, meta: seq<Value>)
    requires forall i :: 0 <= i < |meta| ==> !IsNullish(meta[i])
    ensures var r := MetaMediaType(s, meta);
      && r.Keys <= s.Keys + {"contentMediaType"}
      && forall k :: k != "contentMediaType" ==> Get(r, k) == Get(s, k)
    decreases |meta|
  {
    if meta != [] {
      MetaMediaTypeFrame(s, meta[..|meta| - 1]);
    }
  }

  /** With some annotation carrying a media type, the scan yields that of the last one. */
  lemma {:induction false} MetaMediaTypeLast(s: Schema, meta: seq<Value>) returns (i: int)
    requires forall i :: 0 <= i < |meta| ==> !IsNullish(meta[i])
    requires exists i :: 0 <= i < |meta| && HasMediaType(meta[i])
    ensures 0 <= i < |meta| && HasMediaType(meta[i])
    ensures Get(MetaMediaType(s, meta), "contentMediaType") == Some(Prop(meta[i], "contentMediaType"))
    ensures forall j :: i < j < |meta| ==> !HasMediaType(meta[j])
    decreases |meta|
  {
    var init := meta[..|meta| - 1];
    var m := meta[|meta| - 1];
    if HasMediaType(m) {
      i := |meta| - 1;
    } else {
      var k :| 0 <= k < |meta| && HasMediaType(meta[k]);
      assert init[k] == meta[k];
      i := MetaMediaTypeLast(s, init);
      assert init[i] == meta[i];
      forall j | i < j < |meta| ensures !HasMediaType(meta[j]) {
        if j < |init| {
          assert init[j] == meta[j];
        }
      }
    }
  }

  /** With no annotation carrying a media type, the scan leaves `contentMediaType` alone. */
  lemma {:induction false} MetaMediaTypeNone(s: Schema, meta: seq<Value>)
    requires forall i :: 0 <= i < |meta| ==> !IsNullish(meta[i]) && !HasMediaType(meta[i])
    ensures MetaMediaType(s, meta) == s
    decreases |meta|
  {
    if meta != [] {
      MetaMediaTypeNone(s, meta[..|meta| - 1]);
    }
  }

  /** The `meta` scan commutes with a write to any other key. */
  lemma {:induction false} MetaMediaTypeUpdate(s: Schema, meta: seq<Value>, k: string, v: Value)
    requires forall i :: 0 <= i < |meta| ==> !IsNullish(meta[i])
    requires k != "contentMediaType"
    ensures MetaMediaType(s[k := v], meta) == MetaMediaType(s, meta)[k := v]
    decreases |meta|
  {
    if meta != [] {
      MetaMediaTypeUpdate(s, meta[..|meta| - 1], k, v);
    }
  }

  /** What the string refiner needs of a node to run without throwing. */
  predicate StringRefinable(n: Node) {
    && (forall i :: 0 <= i < |n.meta| ==> !IsNullish(n.meta[i]))
    && StringRulesDefined(n.rules)
  }

  /** The `contentEncoding` copy shared by the binary and string refiners. */
  function CopyEncoding(s: Schema, n: Node): (r: Schema)
    ensures Truthy(n.flags.encoding) ==> r == s["contentEncoding" := n.flags.encoding]
    ensures !Truthy(n.flags.encoding) ==> r == s
  {
    if Truthy(n.flags.encoding) then s["contentEncoding" := n.flags.encoding] else s
  }

  const StringWriteKeys: set<string> := StringKeys + {"contentEncoding", "contentMediaType"}

  /** `_setStringFieldProperties`: runs only on a `string` shell. */
  function RefineString(s: Schema, n: Node): (r: Schema)
    requires TypeIs(s, "string") ==> StringRefinable(n)
    ensures !TypeIs(s, "string") ==> r == s
    ensures Get(r, "type") == Get(s, "type")
  {
    if !TypeIs(s, "string") then s
    else
      var s1 := CopyEncoding(s, n);
      var s2 := MetaMediaType(s1, n.meta);
      assert Get(StringRules(s2, n.rules), "type") == Get(s, "type") by {
        MetaMediaTypeLastWins(s1, n.meta);
        StringRulesLastWins(s2, n.rules);
      }
      StringRules(s2, n.rules)
  }

  /** The string refiner writes only the string keys, `contentEncoding` and `contentMediaType`. */
  lemma RefineStringFrame(s: Schema, n: Node)
    requires TypeIs(s, "string") ==> StringRefinable(n)
    ensures var r := RefineString(s, n);
      && r.Keys <= s.Keys + StringWriteKeys
      && forall k :: k !in StringWriteKeys ==> Get(r, k) == Get(s, k)
  {
    if TypeIs(s, "string") {
      var s1 := CopyEncoding(s, n);
      var s2 := MetaMediaType(s1, n.meta);
      MetaMediaTypeLastWins(s1, n.meta);
      StringRulesLastWins(s2, n.rules);
    }
  }

  // ---------------------------------------------------------------- date

  /** `_setDateFieldProperties`: a `date` shell becomes an `integer` (timestamp flag set) or a
      `string` with format `date-time`. */
  function RefineDate(s: Schema, n: Node): (r: Schema)
    ensures !TypeIs(s, "date") ==> r == s
    ensures TypeIs(s, "date") && Truthy(n.flags.timestamp) ==> r == s["type" := Str("integer")]
    ensures TypeIs(s, "date") && !Truthy(n.flags.timestamp) ==>
      r == s["type" := Str("string")]["format" := Str("date-time")]
  {
    if !TypeIs(s, "date") then s
    else if Truthy(n.flags.timestamp) then s["type" := Str("integer")]
    else s["type" := Str("string")]["format" := Str("date-time")]
  }

  // ---------------------------------------------------------------- array rules

  const ArrayRuleKeys: set<string> := {"maxItems", "minItems", "uniqueItems"}

  /** One iteration of the array refiner's `switch (rule.name)`. */
  function ArrayRule(s: Schema, r: Rule): Schema {
    match r.name
    case "max" => s["maxItems" := r.arg]
    case "min" => s["minItems" := r.arg]
    case "length" => s["maxItems" := r.arg]["minItems" := r.arg]
    case "unique" => s["uniqueItems" := Bool(true)]
    case _ => s
  }

  /** The rule scan of the array refiner, rules taken in order; no rule writes `type`. */
  function ArrayRules(s: Schema, rules: seq<Rule>): (r: Schema)
    ensures Get(r, "type") == Get(s, "type")
  {
    if rules == [] then s else ArrayRule(ArrayRules(s, rules[..|rules| - 1]), rules[|rules| - 1])
  }

  /** Last write wins for `maxItems` (max, length), `minItems` (min, length) and
      `uniqueItems` (set by any `unique` rule); other keys are untouched. */
  lemma {:induction false} ArrayRulesLastWins(s: Schema, rules: seq<Rule>)
    ensures var r := ArrayRules(s, rules);
      && Get(r, "maxItems") == LastArg(rules, {"max", "length"}, Get(s, "maxItems"))
      && Get(r, "minItems") == LastArg(rules, {"min", "length"}, Get(s, "minItems"))
      && Get(r, "uniqueItems") == FlagIfAny(rules, {"unique"}, Get(s, "uniqueItems"))
      && r.Keys <= s.Keys + ArrayRuleKeys
      && forall k :: k !in ArrayRuleKeys ==> Get(r, k) == Get(s, k)
    decreases |rules|
  {
    if rules != [] {
      ArrayRulesLastWins(s, rules[..|rules| - 1]);
      ArrayRuleEffect(ArrayRules(s, rules[..|rules| - 1]), rules[|rules| - 1]);
    }
  }

  lemma ArrayRuleEffect(s: Schema, r: Rule)
    ensures var t := ArrayRule(s, r);
      && Get(t, "maxItems") == (if r.name in {"max", "length"} then Some(r.arg) else Get(s, "maxItems"))
      && Get(t, "minItems") == (if r.name in {"min", "length"} then Some(r.arg) else Get(s, "minItems"))
      && Get(t, "uniqueItems") == (if r.name == "unique" then Some(Bool(true)) else Get(s, "uniqueItems"))
      && t.Keys <= s.Keys + ArrayRuleKeys
      && forall k :: k !in ArrayRuleKeys ==> Get(t, k) == Get(s, k)
  {
  }

  /** When the last bound rule of an array is `length`, both bounds equal its argument. */
  lemma LengthPinsBothBounds(s: Schema, rules: seq<Rule>)
    requires var k := LastWhere(rules, NameIn({"max", "min", "length"})); k >= 0 && rules[k].name == "length"
    ensures var r := ArrayRules(s, rules);
      && "maxItems" in r && "minItems" in r && r["maxItems"] == r["minItems"]
      && r["maxItems"] == rules[LastWhere(rules, NameIn({"max", "min", "length"}))].arg
  {
    var k := LastWhere(rules, NameIn({"max", "min", "length"}));
    ArrayRulesLastWins(s, rules);
    LastWhereSubset(rules, NameIn({"max", "min", "length"}), NameIn({"max", "length"}), k);
    LastWhereSubset(rules, NameIn({"max", "min", "length"}), NameIn({"min", "length"}), k);
  }

  /** If `q` implies `p` and the last `p`-rule satisfies `q`, it is also the last `q`-rule. */
  lemma LastWhereSubset(rules: seq<Rule>, p: Rule -> bool, q: Rule -> bool, k: int)
    requires forall r :: q(r) ==> p(r)
    requires k == LastWhere(rules, p) && k >= 0 && q(rules[k])
    ensures LastWhere(rules, q) == k
  {
  }

  // ---------------------------------------------------------------- any, null

  const AnyTypeList: seq<Value> :=
    [Str("array"), Str("boolean"), Str("number"), Str("object"), Str("string"), Str("null")]

  /** `_setAnyProperties`: an `any` shell gets the list of every JSON type. */
  function RefineAny(s: Schema): (r: Schema)
    ensures TypeIs(s, "any") ==> r == s["type" := Arr(AnyTypeList)]
    ensures !TypeIs(s, "any") ==> r == s
  {
    if TypeIs(s, "any") then s["type" := Arr(AnyTypeList)] else s
  }

  /** `_addNullTypeIfNullable`: a raw `valids` holding null widens the final `type`
      (possibly undefined) into `[type, 'null']`. */
  function WithNullType(s: Schema, n: Node): (r: Schema)
    ensures Null in n.valids ==> r == s["type" := Arr([Lookup(s, "type"), Str("null")])]
    ensures Null !in n.valids ==> r == s
  {
    if Null in n.valids then s["type" := Arr([Lookup(s, "type"), Str("null")])] else s
  }
}
