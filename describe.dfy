/** The input of the converter: one node of the tree that Joi's `describe()` returns
    (field names of the Joi 12 contract: `children`, `options`, `arg`, `valids`, `allowUnknown`). */
module Describe {
  import opened JsValues

  /** A rule `{name, arg}`; a rule without `arg` carries `Undef`. */
  datatype Rule = Rule(name: string, arg: Value)

  /** The `flags` record; a missing flags object reads exactly like one whose entries are all
      `undefined`, because every read of it is guarded (`flags && flags.x`, `_.get`). */
  datatype Flags = Flags(
    presence: Value,
    defaultValue: Value,
    encoding: Value,
    timestamp: Value,
    allowUnknown: Value)

  /** The `options` record (preferences inherited from the enclosing schema). */
  datatype Options = Options(presence: Value, allowUnknown: Value)

  /** `items` of an array node: absent, or a list (possibly empty, which is still truthy). */
  datatype Items = NoItems | ItemList(nodes: seq<Node>)

  /** One entry of `alternatives`: either a plain description, or a conditional
      `{is, then, otherwise}` entry whose parts may each be missing. */
  datatype Alt =
    | Plain(node: Node)
    | Conditional(condition: Option<Node>, whenTrue: Option<Node>, otherwise: Option<Node>)

  /** `keys` of a pattern rule, when that field is present. */
  datatype KeyList = NoKeys | KeyList(entries: seq<(string, Node)>)

  /** The `rule` of a pattern entry: something that is not an object (skipped), or a
      description, which may list its children under `keys` or under `children`. */
  datatype PatternRule = NotAnObject | Described(node: Node, keys: KeyList)

  /** A pattern entry `{regex, rule}`; `regex` is the regular expression's text. */
  datatype Pattern = Pattern(regex: string, rule: PatternRule)

  datatype Node = Node(
    kind: Value,                    // `type`
    flags: Flags,
    options: Options,
    rules: seq<Rule>,
    valids: seq<Value>,
    description: Value,
    examples: Value,
    meta: seq<Value>,
    children: seq<(string, Node)>,  // object keys, in declared order
    patterns: seq<Pattern>,
    items: Items,
    alternatives: seq<Alt>)

  predicate IsKind(n: Node, kind: string) {
    n.kind == Str(kind)
  }

  /** The child map a pattern rule contributes: `rule.keys || rule.children`. */
  function PatternChildren(p: PatternRule): (cs: seq<(string, Node)>)
    requires p.Described?
    ensures p.keys.KeyList? ==> cs == p.keys.entries
    ensures p.keys.NoKeys? ==> cs == p.node.children
  {
    if p.keys.KeyList? then p.keys.entries else p.node.children
  }

  /** A description with no field at all (what a conditional alternative looks like to the
      converter when it is converted as a plain node). */
  function EmptyDescription(): (n: Node)
    ensures n.kind == Undef && n.rules == [] && n.valids == []
  {
    Node(Undef, Flags(Undef, Undef, Undef, Undef, Undef), Options(Undef, Undef),
         [], [], Undef, Undef, [], [], [], NoItems, [])
  }
}
