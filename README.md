# joi-to-json-schema conversion core, in Dafny

This project models the recursive conversion at the heart of `JoiJsonSchemaParser`
(`lib/parser_base.js`). The converter turns the description tree that Joi's `describe()`
returns into a JSON Schema object. For every description node, `_convertSchema` does this:

- It emits `{not: {}}` when the node's presence is `forbidden`.
- Otherwise it builds a base shell with `type`, `examples`, `description`, `default` and `enum`.
- It then runs eight refiners in a fixed order: number, binary, string, date, array, object,
  alternatives and any. Each refiner fires on the `type` the shell has at that moment and
  overwrites keys rule by rule.
- The array, object and alternatives refiners convert the nested descriptions recursively.
- Last, it widens `type` to `[type, 'null']` when the raw `valids` list holds `null`.

The model has two layers:

- **Specification.** Modules `JsValues`, `Describe`, `Accessors`, `Refiners` and `Conversion`
  describe every step as a function on immutable values. JavaScript values are a datatype in
  which `undefined` is a value of its own, so a key assigned `undefined` stays a key. A schema
  under construction is a `map<string, Value>`. A description node is a datatype with the
  fields the converter reads.
- **Implementation.** Module `Parser` follows the source's statements: one `schema` threaded
  through the `_set*` helpers, a `while` loop for every `_.each`/`_.map`, and a `match` for
  every `switch`. Each method is proved to compute exactly its specification function. One
  step is not done as the code does it. In a list of several alternatives, the code passes a
  conditional entry to `_convertSchema`. The method stores `{}` for it instead, and
  `Properties.EmptyDescriptionConversion` proves that this is what the conversion returns.

Module `Properties` proves what the conversion promises as a whole, kind by kind. This
includes two interactions between refiners:

- A `binary` node is re-typed `string` before the string refiner runs, so string rules also
  apply to it and may replace its `format: binary`.
- A `null` in `valids` changes nothing but the final `type`.

Crashes are excluded by a precondition. The predicate `Convertible` requires what the code
dereferences, and only on the kind of node that dereferences it: the argument of an `ip` or
`regex` rule, every `meta` entry of a string node, and the nested descriptions of the
container kind that converts them. It also excludes one input that does not crash: an `ip`
version list that is neither lodash-empty nor an array (see "Left out").

## Model

| member | source | states |
|---|---|---|
| Accessors.Presence | lib/parser_base.js:95-101 | `flags.presence` when defined, otherwise `options.presence` |
| Accessors.FieldType | lib/parser_base.js:70-77 | the type differs from the node's own type exactly when a `number` has `integer` as its first rule, and it is then `integer` |
| Accessors.Enum | lib/parser_base.js:112-121 | `enum` exists exactly when some raw `valids` entry is not lodash-empty; it is the non-empty entries in order, never `[]` |
| Accessors.SetIfNotEmpty | lib/parser_base.js:123-127 | a null or undefined value leaves the schema alone; any other value is stored |
| Accessors.RequiredPresence | lib/parser_base.js:103-106 | a node is required exactly when its presence flag is `required`, or the flag is undefined and the options' presence is `required`; a required node is never forbidden |
| Accessors.BasicProperties | lib/parser_base.js:129-135 | the base shell has only the five basic keys, each present exactly when its source value is neither null nor undefined |
| JsValues.NonEmptyEntries | lib/parser_base.js:117-119 | the `_.filter` keeps exactly the entries that are not lodash-empty and never grows the list |
| JsValues.NonEmptyEntriesAppend | lib/parser_base.js:117-119 | the filter distributes over concatenation |
| JsValues.NonEmptyEntriesIgnoresNull | lib/parser_base.js:113-120 | removing the nulls from `valids` does not change the filtered enum |
| JsValues.WithoutNull | lib/parser_base.js:82 | removing the nulls keeps every other entry and drops every null |
| JsValues.TruthyVersusEmpty | lib/parser_base.js:113-119 | JavaScript truthiness and lodash `_.isEmpty` agree on strings and on null and undefined; empty arrays and objects are truthy; `true` and every number are lodash-empty; only strings, arrays and objects can be non-empty |
| JsValues.Prop | lib/parser_base.js:189-190 | a property read yields the object's own value for the key, and `undefined` when the key is absent or the value is not an object |
| Refiners.RefineNumber | lib/parser_base.js:137-140 | no-op unless the shell's type is `number` or `integer`; `type` is never changed |
| Refiners.RefineNumberFrame | lib/parser_base.js:144-167 | the number refiner writes only `maximum`, `minimum`, `exclusiveMinimum`, `exclusiveMaximum` and `multipleOf` |
| Refiners.NumberRules | lib/parser_base.js:144-167 | the rule scan never writes `type`; which bound each rule leaves is `Refiners.NumberRulesLastWins` |
| Refiners.NumberRulesLastWins | lib/parser_base.js:144-167 | each bound is the argument of the last rule writing it (`max`/`less`, `min`/`greater`, `multiple`); `greater`/`less` set the exclusive flags; nothing else changes |
| Refiners.NumberRuleEffect | lib/parser_base.js:146-166 | what one `switch` iteration writes, key by key |
| Refiners.RefineBinary | lib/parser_base.js:170-179 | no-op unless the type is `binary`; then the type is `string` and the format is `binary` |
| Refiners.RefineBinaryFrame | lib/parser_base.js:174-178 | the binary refiner writes only `type`, `contentEncoding` and `format` |
| Refiners.FormatAlternatives | lib/parser_base.js:220-224 | one `{format: version}` per IP version, in order |
| Refiners.StringRules | lib/parser_base.js:197-243 | the rule scan never writes `type`; which keyword each rule leaves is `Refiners.StringRulesLastWins` |
| Refiners.StringRulesLastWins | lib/parser_base.js:197-243 | `minLength`, `maxLength`, `pattern`, `format` and `oneOf` each come from the last rule writing them; an `ip` rule with several versions writes `oneOf`, not `format`; other keys are untouched |
| Refiners.StringRuleEffect | lib/parser_base.js:198-242 | what one `switch` iteration writes, key by key |
| Refiners.StringRulesFormatDefault | lib/parser_base.js:174-243 | a `format` written before the rule scan survives exactly when no rule writes one |
| Refiners.StringRuleFormatDefault | lib/parser_base.js:198-242 | one string rule commutes with filling in a missing `format` |
| Refiners.MetaMediaTypeLastWins | lib/parser_base.js:189-193 | only `contentMediaType` is written; it is the last truthy `contentMediaType` among the annotations, or unchanged when there is none |
| Refiners.MetaMediaTypeFrame | lib/parser_base.js:189-193 | the `meta` scan writes no key but `contentMediaType` |
| Refiners.MetaMediaTypeLast | lib/parser_base.js:189-193 | when some annotation has a truthy `contentMediaType`, the scan yields that of the last such annotation |
| Refiners.MetaMediaTypeNone | lib/parser_base.js:189-193 | when no annotation has a truthy `contentMediaType`, the scan changes nothing |
| Refiners.MetaMediaType | lib/parser_base.js:189-193 | no annotations leave the schema unchanged; the value taken is `Refiners.MetaMediaTypeLastWins` |
| Refiners.CopyEncoding | lib/parser_base.js:186-188 | a truthy `encoding` flag is stored as `contentEncoding`; otherwise the schema is unchanged |
| Refiners.MetaMediaTypeUpdate | lib/parser_base.js:189-193 | the `meta` scan commutes with a write to any other key |
| Refiners.RefineString | lib/parser_base.js:181-184 | no-op unless the type is `string`; `type` is never changed |
| Refiners.RefineStringFrame | lib/parser_base.js:186-243 | the string refiner writes only the five string keys, `contentEncoding` and `contentMediaType` |
| Refiners.RefineDate | lib/parser_base.js:288-302 | no-op unless the type is `date`; then `integer` with a truthy `timestamp` flag, else `string` with format `date-time` |
| Refiners.ArrayRulesLastWins | lib/parser_base.js:253-272 | `maxItems` from the last `max`/`length`, `minItems` from the last `min`/`length`, `uniqueItems` from any `unique`; nothing else changes |
| Refiners.ArrayRules | lib/parser_base.js:253-272 | the rule scan never writes `type`; which bound each rule leaves is `Refiners.ArrayRulesLastWins` |
| Refiners.ArrayRuleEffect | lib/parser_base.js:255-271 | what one `switch` iteration writes, key by key |
| Refiners.LengthPinsBothBounds | lib/parser_base.js:262-265 | when the last bound rule is `length`, both bounds equal its argument |
| Refiners.RefineAny | lib/parser_base.js:381-394 | an `any` shell gets the list of all six JSON types; any other shell is unchanged |
| Refiners.WithNullType | lib/parser_base.js:79-85 | a `null` in `valids` turns `type` into `[type, 'null']`; otherwise nothing changes |
| Conversion.Scalars | lib/parser_base.js:56-60 | after the non-recursive refiners, `type` is the field type, except `binary` becomes `string` and `date` becomes `integer` or `string` |
| Conversion.Convert | lib/parser_base.js:48-68 | the conversion itself; what it promises is stated by `Properties.ForbiddenConversion`, `Properties.RefinedKeys` and the `Properties.*Conversion` lemmas |
| Conversion.Refined | lib/parser_base.js:56-64 | the eight refiners in source order; `Properties.RefinedFrame` and `Properties.RefinedKeys` state what they may change |
| Conversion.RefineArray | lib/parser_base.js:246-249 | no-op unless the type is `array`; `type` is never changed |
| Conversion.RefineArrayFrame | lib/parser_base.js:253-285 | the array refiner writes only the item bounds, `uniqueItems` and `items` |
| Conversion.ArrayItems | lib/parser_base.js:274-285 | `items`; its three shapes are stated by `Properties.ArrayConversion` |
| Conversion.AdditionalProperties | lib/parser_base.js:312-315 | the node flag when defined, else the option when defined, else `false` |
| Conversion.RequiredNames | lib/parser_base.js:318-325 | a key is pushed exactly when its child is required; order and count are `Properties.RequiredNamesAppend` and `Properties.RequiredNamesOnce` |
| Conversion.ChildProperties | lib/parser_base.js:318-325 | `properties` has exactly the children's keys |
| Conversion.PatternProperty | lib/parser_base.js:337-350 | the property of one object-shaped pattern rule; its value is stated by `Properties.PatternPropertiesLastWins` |
| Conversion.PatternProperties | lib/parser_base.js:331-353 | the pattern loop; its keys and values are stated by `Properties.PatternPropertiesKeys`, `Properties.PatternPropertiesLastWins` and `Properties.PatternPropertiesKeep` |
| Conversion.RefineObject | lib/parser_base.js:304-307 | no-op unless the type is `object`; `type` is never changed |
| Conversion.RefineObjectFrame | lib/parser_base.js:309-357 | the object refiner writes only `properties`, `additionalProperties` and `required` |
| Conversion.RefineAlternatives | lib/parser_base.js:360-379 | no-op unless the type is `alternatives`; then `oneOf` is set and `type` is deleted |
| Conversion.OneOf | lib/parser_base.js:365-376 | the `oneOf` list; its shape in both branches is stated by `Properties.OneOfShape` |
| Parser.ConvertSchema | lib/parser_base.js:48-68 | the imperative conversion computes exactly `Convert` |
| Parser.SetBasicProperties | lib/parser_base.js:129-135 | adds exactly the base shell |
| Parser.SetScalarProperties | lib/parser_base.js:55-59 | the base shell and the number, binary, string and date steps compute `Conversion.Scalars` |
| Parser.SetNumberFieldProperties | lib/parser_base.js:137-168 | the rule loop computes the number refiner |
| Parser.SetBinaryFieldProperties | lib/parser_base.js:170-179 | computes the binary refiner |
| Parser.SetStringFieldProperties | lib/parser_base.js:181-244 | the encoding copy, the `meta` loop and the rule loop compute the string refiner |
| Parser.VersionAlternatives | lib/parser_base.js:220-224 | the `_.map` over the IP versions computes `Refiners.FormatAlternatives`: one `{format: version}` per version, in order |
| Parser.SetDateFieldProperties | lib/parser_base.js:288-302 | computes the date refiner |
| Parser.SetArrayFieldProperties | lib/parser_base.js:246-286 | the rule loop and the item conversions compute the array refiner |
| Parser.ScanArrayRules | lib/parser_base.js:253-272 | the rule loop computes `Refiners.ArrayRules` |
| Parser.ConvertItems | lib/parser_base.js:274-285 | computes `items` as `Conversion.ArrayItems` |
| Parser.ConvertEachItem | lib/parser_base.js:281-283 | the `anyOf` loop converts every item, in order |
| Parser.SetObjectProperties | lib/parser_base.js:304-358 | the child loop, the pattern loop and the `required` cleanup compute the object refiner |
| Parser.ConvertChildren | lib/parser_base.js:318-325 | the child loop computes `properties` and `required` |
| Parser.ChildStep | lib/parser_base.js:318-325 | one iteration of the child loop stores the child's conversion and pushes its key when it is required |
| Parser.SetAlternativesProperties | lib/parser_base.js:360-379 | both branches compute the alternatives refiner |
| Parser.ConvertBranches | lib/parser_base.js:365-376 | both forms compute `Conversion.OneOf` |
| Parser.ConvertConditional | lib/parser_base.js:365-373 | the `then` conversion followed by the `otherwise` conversion |
| Parser.ConvertAlternativeList | lib/parser_base.js:374-376 | one entry per alternative, in order |
| Parser.SetAnyProperties | lib/parser_base.js:381-394 | computes the `any` refiner |
| Parser.AddNullTypeIfNullable | lib/parser_base.js:79-85 | computes the null widening |
| Properties.ScalarsKind | lib/parser_base.js:56-63 | the shell reaching the container refiners has type `array`, `object`, `alternatives` or `any` exactly when the node has that type |
| Properties.ScalarsFrame | lib/parser_base.js:56-60 | keys the non-recursive refiners do not write keep their base-shell values |
| Properties.ScalarsKeys | lib/parser_base.js:56-60 | bound on the keys after the non-recursive refiners |
| Properties.RefinedFrame | lib/parser_base.js:56-64 | a key no refiner writes keeps its base-shell value |
| Properties.RefinedKeys | lib/parser_base.js:56-64 | a converted node that is not forbidden holds only keys of the base shell or of some refiner |
| Properties.ForbiddenConversion | lib/parser_base.js:51-54 | `not` appears exactly when the node is forbidden, and is then the only key |
| Properties.ConvertFrame | lib/parser_base.js:79-85 | the null widening touches only `type` |
| Properties.BasicEntriesKept | lib/parser_base.js:131-134 | `examples`, `description`, `default` and `enum` in the output are the base shell's, whatever the type |
| Properties.RefinedScalar | lib/parser_base.js:246-394 | on a node of no container type, the container refiners change nothing |
| Properties.NumberConversion | lib/parser_base.js:70-168 | a number's type is `integer` exactly when the first rule is `integer`; its bounds come from the last writing rules |
| Properties.DateConversion | lib/parser_base.js:288-302 | a date becomes its base shell typed `integer`, or typed `string` with format `date-time` |
| Properties.AnyConversion | lib/parser_base.js:381-394 | an `any` node becomes its base shell with the six-type list |
| Properties.StringRefined | lib/parser_base.js:181-244 | a string node's shell is the base shell, the encoding, the `meta` scan, then the rule scan |
| Properties.StringAnnotations | lib/parser_base.js:186-193 | a string keeps its type (widened with null), copies a truthy encoding, and takes the last truthy media type |
| Properties.StringEncoding | lib/parser_base.js:186-188 | a string node's `contentEncoding` is its truthy `encoding` flag, and absent otherwise |
| Properties.StringMediaType | lib/parser_base.js:189-193 | a string node's `contentMediaType` is that of its last annotation with a truthy one, and absent when there is none |
| Properties.StringRulesKeep | lib/parser_base.js:197-243 | a key that is not a string keyword keeps its value through the rule scan |
| Properties.StringConversion | lib/parser_base.js:197-243 | each string keyword of the output comes from the last rule writing it, and none appears without such a rule |
| Properties.IpRuleOutcome | lib/parser_base.js:214-229 | an `ip` rule gives `ipv4` without versions, the version itself for one, `oneOf` for two or more |
| Properties.DefaultFormatBinary | lib/parser_base.js:178 | sets `format: binary` only when no format exists, and changes no other key |
| Properties.BinaryBasic | lib/parser_base.js:129-174 | the base shell of a binary node differs from a string node's only in `type` |
| Properties.BinaryScalars | lib/parser_base.js:170-244 | the non-recursive refiners on a binary node give the string outcome, with `format: binary` as fallback |
| Properties.BinaryPrefix | lib/parser_base.js:170-179 | after the number and binary refiners a binary node holds the string twin's base shell, its encoding and `format: binary` |
| Properties.BinaryNoFormat | lib/parser_base.js:129-188 | the string twin's base shell has no `format`, even after the encoding is copied |
| Properties.BinaryAsString | lib/parser_base.js:170-244 | a binary node converts like the same node typed `string`, plus `format: binary` when no string rule set a format |
| Properties.WidenDefaultFormat | lib/parser_base.js:79-85 | the null widening and the format default commute |
| Properties.ArrayRefined | lib/parser_base.js:246-286 | an array's shell is the rule scan followed by `items` |
| Properties.ArrayConversion | lib/parser_base.js:246-286 | the item bounds come from the last writing rule; `items` is always present: `{}`, the single item's conversion, or `anyOf` over every item in order |
| Properties.ObjectRefined | lib/parser_base.js:304-358 | an object node's shell is the object refiner applied to its base shell |
| Properties.ObjectConversion | lib/parser_base.js:304-358 | `required` exists exactly when some child is required and lists them in order; `additionalProperties` follows the flag, the option, then `false`; `properties` holds children then patterns |
| Properties.ObjectRequired | lib/parser_base.js:318-357 | `required` survives exactly when some child is required, and then lists the required keys |
| Properties.ObjectShell | lib/parser_base.js:309-353 | the object refiner stores the children and patterns under `properties` and the unknown-keys policy under `additionalProperties` |
| Properties.RequiredNamesEmpty | lib/parser_base.js:355-357 | no key is pushed exactly when no child is required |
| Properties.RequiredNamesAppend | lib/parser_base.js:318-322 | the names of a concatenation of children are the names of the first part followed by those of the second: keys are pushed in child order |
| Properties.RequiredNamesOnce | lib/parser_base.js:318-322 | with distinct child keys, each required child's key is pushed exactly once and no other key is pushed |
| Properties.ChildPropertiesLastWins | lib/parser_base.js:318-325 | a repeated child key keeps the conversion of its last occurrence |
| Properties.PatternPropertiesKeys | lib/parser_base.js:331-353 | the keys are the children's keys plus the regex of every object-shaped pattern rule |
| Properties.PatternPropertiesLastWins | lib/parser_base.js:332-351 | a regex keeps the property of its last object-shaped pattern rule, overriding a child of that name |
| Properties.PatternPropertiesKeep | lib/parser_base.js:332-335 | a key no object-shaped pattern rule names keeps its child value |
| Properties.EmptyDescriptionConversion | lib/parser_base.js:48-68 | a description without fields converts to `{}` |
| Properties.AlternativesConversion | lib/parser_base.js:360-379 | an alternatives node has no `type`, unless `valids` holds null, when it is `[undefined, 'null']`; `oneOf` is set |
| Properties.OneOfShape | lib/parser_base.js:365-376 | the conditional form yields the `then` and `otherwise` conversions in order; otherwise one entry per alternative, a conditional entry converting to `{}` |
| Properties.ChildPropertiesParent | lib/parser_base.js:318-325 | the child conversions do not depend on the enclosing node |
| Properties.PatternPropertiesParent | lib/parser_base.js:331-353 | the pattern conversions do not depend on the enclosing node |
| Properties.NullFree | lib/parser_base.js:81-82 | the null-free twin of a node has no null in `valids` |
| Properties.NullFreeConvertible | lib/parser_base.js:48-68 | removing the nulls from `valids` keeps a node convertible and its presence unchanged |
| Properties.NullFreeBasic | lib/parser_base.js:112-135 | removing the nulls from `valids` does not change the base shell |
| Properties.NullFreeScalars | lib/parser_base.js:56-60 | removing the nulls does not change the non-recursive refiners' outcome |
| Properties.NullFreeObject | lib/parser_base.js:304-358 | removing the nulls does not change the object refiner's outcome |
| Properties.NullFreeRefined | lib/parser_base.js:56-64 | removing the nulls does not change the shell before the widening |
| Properties.NullWidening | lib/parser_base.js:79-85 | a null in `valids` changes only `type`, into `[type, 'null']` of the null-free conversion |

## Left out

- The constructor, `getVersion` and `getSupportVersion` (lib/parser_base.js:5-26) call Joi's `describe()` or report constants. The model starts from the description tree.
- The field-name getters (lib/parser_base.js:28-46) return constants. Their names (`children`, `options`, `arg`, `valids`, `allowUnknown`) are fixed in the `Describe.Node` datatype.
- Key order of JavaScript objects is not modelled. A schema is a map, so two outputs with the same entries in a different order are equal.
- Numbers are only copied, never computed on, so `Num(int)` stands for every JavaScript number.
- Conversion.Convertible: inputs on which the code throws are excluded rather than modelled. These are an `ip` or `regex` rule without argument, a `regex` argument without `pattern`, a null or undefined `meta` entry of a string node, and an `ip` version list that is neither lodash-empty nor an array. The last one does not throw, but its `.length` and `_.map` behaviour on strings and objects is not modelled.
- JsValues.Prop: reading a property of a non-object yields `undefined`. Properties of strings and arrays (such as `length`) are never read through it.
- A pattern rule that is `null` passes the `typeof … !== 'object'` guard and then throws. A missing `alternatives` list on an alternatives node also throws. Neither is representable in `Describe.Node`.
- Describe.Items: `items` is either absent or a list, because the description never holds a non-array there.
- In the code, an empty `alternatives` list does not throw: `length === 1` fails first and the `_.map` branch gives `oneOf: []`. The model follows the code (`Properties.OneOfShape`), not a reading under which an empty list would be an error.
- A duplicate key cannot occur among the children of a real Joi object, since they come from an object. The model allows repeated keys and proves last-wins (`Properties.ChildPropertiesLastWins`).
