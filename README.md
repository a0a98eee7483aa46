# LSIF protocol schema, modelled in Dafny

The Language Server Index Format (LSIF) describes a code-intelligence
dump as a graph of vertices and edges. `protocol/src/protocol.ts` declares
the graph's types. Each type also gets a runtime validator, built from a
small combinator library:

- the `Is.*` predicates;
- `PropertyFlags`, three independent bits that allow a field to be absent,
  undefined or null;
- `Property.validate`;
- `ObjectDescriptor.validate`, which walks a description (field name to
  property);
- `ArrayProperty`, `StringEnumProperty` and `StringEnum.values`;
- the `uinteger` and `Id` checks.

About forty vertex and edge descriptors sit on top of this library. Each
one extends a base description with `Object.assign`, where later keys
override earlier ones. Two validators look at the value before choosing
what to check:

- `RangeTag.is` switches on the tag's `type`.
- `DocumentSymbolResult.result` lets its first item choose between
  range-based symbols and LSP document symbols.

`RangeBasedDocumentSymbol` checks its `children` with its own `is`.

The model is pure, like the validators.

| file | module | what it holds |
|---|---|---|
| `json.dfy` | `JsonValues` | the untyped value (`Json`), `Field` (`value[key]`), `HasOwn` and truthiness |
| `flags.dfy` | `PropertyFlags` | the flags as 8-bit vectors and the three bit tests |
| `identifiers.dfy` | `Identifiers` | `uinteger.is` and `Id.is`, on exact numbers |
| `enums.dfy` | `Enums` | the string enums as maps, `StringEnum.values` and each enum's value set |
| `schema.dfy` | `Schema` | validators as a first-order `Check` datatype, `Validate`, `PropertyValid` (`Property.validate`), `FieldOk` and `Conforms` (`ObjectDescriptor.validate`), and the label overloads |
| `protocol.dfy` | `Protocol` | every descriptor, with extension written as map union `base + ext`, plus `Edge.is11` and `Edge.is1N` |
| `combinators.dfy` | `Combinators` | properties of the combinators and what one field of each property kind accepts |
| `vertices.dfy`, `ranges.dfy`, `symbols.dfy`, `edges.dfy` | `Vertices`, `Ranges`, `Symbols`, `Edges` | for each descriptor, a lemma `XExactly`: `X.is` accepts a value exactly when the value has the stated fields |

Conventions:

- A validator that refers to its own descriptor's `is` is the `Self`
  check. `RangeBasedDocumentSymbol.children` does this through an arrow
  that reads `RangeBasedDocumentSymbol.is` when it is called, after the
  namespace has assigned it.
- A validator read from a namespace before the namespace assigned it is
  `undefined`. This is the `Unassigned` check, and calling it throws a
  TypeError. `DeclarationRange` and `ReferenceRange` pass their own `is`
  this way while their descriptor is still being built.
- `Conforms` is the boolean verdict and reads every throw as false.
  `ValidateInOrder` runs the loop of `ObjectDescriptor.validate` over the
  keys in `Object.keys` order. It ends in one of three ways: accepted,
  rejected or threw. `Combinators.InOrderIsConforms` shows that the two
  agree, whatever the order, when no validator is unassigned.
- The `lsp.*` validators from `vscode-languageserver-protocol` are passed in
  as a parameter `lsp` and never interpreted.
- Two quirks of the descriptors are kept as written:
  - The Group descriptor requires `description` (line 935), although the
    interface marks it optional (line 920). See `Vertices.GroupDescriptionRequired`.
  - MetaData has a descriptor but no `is`. Its lemma speaks of the
    descriptor.

## Model

| member | source | states |
|---|---|---|
| JsonValues.AbsentAndUndefinedReadAlike | protocol/src/protocol.ts:163-167 | an own key holding undefined and an absent key read as the same undefined value; only `hasOwnProperty` tells them apart |
| PropertyFlags.UnionTests | protocol/src/protocol.ts:50-60 | each flag test reads one bit: a test holds for `a \| b` iff it holds for `a` or for `b` |
| PropertyFlags.NamedFlags | protocol/src/protocol.ts:43-60 | `none` passes no test; `optional`, `undefined` and `null` each pass exactly their own test |
| Identifiers.UintegerIs | protocol/src/protocol.ts:180-186 | `uinteger.is` accepts exactly the numbers equal to an integer in [0, 2147483647] |
| Identifiers.IdIs | protocol/src/protocol.ts:193-205 | `Id.is` accepts exactly the strings and those integers |
| Enums.SelfNamedValues | protocol/src/protocol.ts:125-133 | for an enum whose members are named after their values, `StringEnum.values` is the set of member names |
| Enums.ElementTypesValues | protocol/src/protocol.ts:207-220 | the element types are exactly "vertex" and "edge" |
| Enums.VertexLabelsValues | protocol/src/protocol.ts:243-279 | the values of `VertexLabels` are the 20 declared labels, including "$event" for the member `event` |
| Enums.EventKindsValues | protocol/src/protocol.ts:319-332 | the event kinds are "begin" and "end" |
| Enums.EventScopesValues | protocol/src/protocol.ts:337-352 | the four event scopes |
| Enums.RangeTagTypesValues | protocol/src/protocol.ts:458-473 | the four range tag types |
| Enums.MonikerKindsValues | protocol/src/protocol.ts:1032-1058 | the three moniker kinds |
| Enums.UniquenessLevelsValues | protocol/src/protocol.ts:1060-1095 | the five uniqueness levels |
| Enums.EdgeLabelsValues | protocol/src/protocol.ts:1485-1518 | the values of `EdgeLabels`, such as "textDocument/hover" for `textDocument_hover` |
| Schema.PropertyValid | protocol/src/protocol.ts:62-79 | `Property.validate`: undefined passes when the undefined bit is set, null passes when the null bit is set, and otherwise the validator decides |
| Schema.VertexLabel | protocol/src/protocol.ts:266-275 | `VertexLabels.property(l)` is the label overload given `l` and no flags |
| Schema.EdgeLabel | protocol/src/protocol.ts:1505-1514 | `EdgeLabels.property(l)` is the label overload given `l` and no flags |
| Combinators.FlagsOnlyWiden | protocol/src/protocol.ts:62-79 | adding flags never makes a property reject a value it accepted |
| Combinators.NoEscapeWithoutFlags | protocol/src/protocol.ts:62-79 | with neither the undefined nor the null bit set, a property is exactly its validator |
| Combinators.UndescribedKeyIgnored | protocol/src/protocol.ts:157-172 | setting a key the description does not name never changes the verdict |
| Combinators.RequiredFieldNeeded | protocol/src/protocol.ts:157-172 | removing a non-optional field whose property rejects undefined makes the object invalid |
| Combinators.PresentUndefinedChecked | protocol/src/protocol.ts:157-172 | an own key holding undefined is still validated, even when the field is optional |
| Combinators.OptionalFieldDropped | protocol/src/protocol.ts:157-172 | an object with an optional field conforms iff it conforms without the field and the field, when present, passes |
| Combinators.LiteralFieldFixed | protocol/src/protocol.ts:157-172 | a field checked by `value === s` holds exactly `s` in every conforming object |
| Combinators.LiteralField | protocol/src/protocol.ts:157-172 | for a defined object, a field checked by `value === s` is accepted iff it holds the string `s` |
| Combinators.StringField | protocol/src/protocol.ts:87-91 | a `StringProperty()` field is accepted iff it holds a string |
| Combinators.OptionalStringField | protocol/src/protocol.ts:87-91 | an optional `StringProperty` field is accepted iff, when it is an own key, it holds a string |
| Combinators.EnumField | protocol/src/protocol.ts:135-139 | an enum property field is accepted iff it holds one of the enum's values |
| Combinators.OptionalEnumField | protocol/src/protocol.ts:135-139 | an optional enum property field is accepted iff, when present, it holds one of the values |
| Combinators.IdField | protocol/src/protocol.ts:193-205 | an `Id.property()` field is accepted iff it holds an `Id` |
| Combinators.ForeignField | protocol/src/protocol.ts:62-79 | a field checked by an `lsp.*` validator is accepted iff that validator accepts it |
| Combinators.ObjectField | protocol/src/protocol.ts:151-173 | a field checked by `X.is` is accepted iff it conforms to X's descriptor |
| Combinators.OptionalObjectField | protocol/src/protocol.ts:151-173 | an optional field checked by `X.is` is accepted iff, when present, it conforms to X |
| Combinators.ForeignItemsField | protocol/src/protocol.ts:99-113 | an `ArrayProperty` field over an `lsp.*` validator is accepted iff it is an array whose every item passes |
| Combinators.SymbolKindField | protocol/src/protocol.ts:34-36 | a field checked by `Is.symbolKind` is accepted iff it holds a number |
| Combinators.OptionalBooleanField | protocol/src/protocol.ts:81-85 | an optional `BooleanProperty` field is accepted iff, when present, it holds a boolean |
| Combinators.OptionalField | protocol/src/protocol.ts:157-172 | any optional field without the undefined or null bit is validated exactly when it is an own key |
| Combinators.RequiredField | protocol/src/protocol.ts:157-172 | any field without flags is validated whether present or not |
| Combinators.OptionalStringArrayField | protocol/src/protocol.ts:115-119 | an optional `StringArrayProperty` field is accepted iff, when present, it is an array of strings |
| Combinators.DispatchIsUnion | protocol/src/protocol.ts:637-652 | when every case fixes the discriminant to its own name, switching on it accepts exactly the union of the allowed cases |
| Combinators.ExtensionNarrows | protocol/src/protocol.ts:390-397 | when the base refers to no `is` of its own and every field the extension overrides is narrowed, `Object.assign({}, base, ext)` accepts a subset of what the base accepts |
| Combinators.ExtensionExactly | protocol/src/protocol.ts:306-314 | when the base refers to no `is` of its own, every field the extension overrides is narrowed, and the extension refers to no `is` of its own, `Object.assign({}, base, ext)` accepts exactly what both base and ext accept |
| Combinators.CaseExtensionExactly | protocol/src/protocol.ts:695-702 | when the base refers to no `is` of its own, replacing a dispatched field by one required case accepts exactly the base's values whose field passes that case |
| Combinators.ValidateFieldsAgrees | protocol/src/protocol.ts:156-172 | with no unassigned validator on the visited keys, the loop never throws, and it accepts iff every visited field is acceptable |
| Combinators.InOrderIsConforms | protocol/src/protocol.ts:156-172 | with no unassigned validator, the loop over any listing of the description's keys never throws and accepts exactly what `Conforms` accepts |
| Combinators.ThrowsAtUnassigned | protocol/src/protocol.ts:62-79 | when the loop reaches a required field with an unassigned validator, it throws iff every earlier field passed, and rejects otherwise |
| Combinators.UnassignedFieldRejectsAll | protocol/src/protocol.ts:62-79 | in the boolean reading, a required field with an unassigned validator makes its descriptor reject every value |
| Combinators.ExtendedInOrder | protocol/src/protocol.ts:695-702 | overriding a key of an assigned base with an assigned property gives a loop that never throws and agrees with `Conforms` |
| Combinators.ArrayOfConcat | protocol/src/protocol.ts:99-113 | `ArrayProperty`'s validator accepts `[]`, and accepts `xs + ys` iff it accepts both parts |
| Combinators.StringArrayIsArrayOfStrings | protocol/src/protocol.ts:17-28 | `Is.isStringArray` is the array validator over `Is.string` |
| Combinators.PickByFirstExactly | protocol/src/protocol.ts:1240-1253 | a non-empty list is checked entirely by the validator its first item's `id` selects |
| Combinators.EnumPropertyExactly | protocol/src/protocol.ts:125-139 | an enum property accepts exactly the enum's values, plus undefined or null only when flagged |
| Combinators.LabelPropertyExactly | protocol/src/protocol.ts:266-275 | `VertexLabels.property(l)` accepts the single string `l` and nothing else |
| Combinators.LabelFlagsDropped | protocol/src/protocol.ts:266-275 | as written, `property(PropertyFlags.optional)` yields a non-optional property; the corrected overload keeps the flag |
| Combinators.LabelOverloadsAgree | protocol/src/protocol.ts:1505-1514 | on every call the protocol makes, the written and corrected overloads coincide |
| Combinators.LabelFlagsHonoured | protocol/src/protocol.ts:1505-1514 | the corrected flags-first overload is the enum property with those flags |
| Vertices.ElementExactly | protocol/src/protocol.ts:230-238 | `Element.is`: defined, an `Id` id, and a type of "vertex" or "edge" |
| Vertices.VExactly | protocol/src/protocol.ts:306-314 | `V.is`: an `Id` id, type "vertex", and one of the vertex labels |
| Vertices.VIsElement | protocol/src/protocol.ts:306-314 | every vertex is an element |
| Vertices.KindExactly | protocol/src/protocol.ts:306-314 | a vertex kind `V + fields` accepts exactly the vertices that pass its fields, and those carry its label |
| Vertices.KindsDisjoint | protocol/src/protocol.ts:243-264 | two vertex kinds with different labels accept disjoint sets |
| Vertices.LabelOnlyExactly | protocol/src/protocol.ts:446-453 | ResultSet, and the DeclarationResult, DefinitionResult, TypeDefinitionResult, ReferenceResult and ImplementationResult descriptors at 1345-1431, accept exactly the vertices with their label |
| Vertices.EventExactly | protocol/src/protocol.ts:373-383 | `Event.is`: a vertex labelled "$event" with an event scope, an event kind, and an `Id` as data |
| Vertices.ScopeRefines | protocol/src/protocol.ts:390-397 | fixing the scope to one event scope narrows Event |
| Vertices.ScopedEventExactly | protocol/src/protocol.ts:390-436 | a scoped event accepts exactly the events with that scope |
| Vertices.ScopedEvents | protocol/src/protocol.ts:390-436 | `GroupEvent.is`, `ProjectEvent.is`, `DocumentEvent.is` and `MonikerAttachEvent.is` are events with scope "group", "project", "document" and "monikerAttach" respectively |
| Vertices.LocationExactly | protocol/src/protocol.ts:759-767 | `Location.is`: a vertex labelled "location" with an LSP range |
| Vertices.ToolStateExactly | protocol/src/protocol.ts:799-809 | `ToolState.is`: any defined value whose own `data`, if any, is a string |
| Vertices.ToolInfoExactly | protocol/src/protocol.ts:775-787 | `ToolInfo.is`: a string name, and when present a string version and a string array of args |
| Vertices.MetaDataExactly | protocol/src/protocol.ts:845-853 | the MetaData descriptor: a vertex labelled "metaData" with a string version, position encoding exactly "utf-16", and tool info and tool state that pass their `is` when present |
| Vertices.RepositoryInfoExactly | protocol/src/protocol.ts:872-884 | `RepositoryInfo.is`: string type and url, and a string commit id when present |
| Vertices.GroupExactly | protocol/src/protocol.ts:928-941 | `Group.is`: string uri, name, root uri and description; conflict resolution "takeDump" or "takeDB"; repository info that passes when present |
| Vertices.GroupDescriptionRequired | protocol/src/protocol.ts:928-941 | no object without `description` passes `Group.is` |
| Vertices.ProjectExactly | protocol/src/protocol.ts:975-986 | `Project.is`: string kind and name, and string resource and contents when present |
| Vertices.DocumentExactly | protocol/src/protocol.ts:1017-1027 | `Document.is`: string uri and language id, and string contents when present |
| Vertices.MonikerExactly | protocol/src/protocol.ts:1123-1134 | `Moniker.is`: string scheme and identifier, a uniqueness level, and a moniker kind when present |
| Vertices.MonikerSchemeRequired | protocol/src/protocol.ts:1123-1134 | removing `scheme` makes any object an invalid moniker |
| Vertices.MonikerKindDroppable | protocol/src/protocol.ts:1123-1134 | removing the optional `kind` keeps a valid moniker valid |
| Vertices.ExtensionsNarrow | protocol/src/protocol.ts:373-397 | `Event.is` implies `V.is`, `GroupEvent.is` implies `Event.is`, and `Moniker.is` (1123-1134) implies `V.is` |
| Vertices.PackageInformationExactly | protocol/src/protocol.ts:1171-1184 | `PackageInformation.is`: string name and manager; string uri, contents and version when present; repository info that passes when present |
| Vertices.ArrayResultExactly | protocol/src/protocol.ts:1276-1336 | the diagnostic, folding range and document link results: the kind's label, and a `result` array whose every item passes the LSP validator |
| Vertices.HoverResultExactly | protocol/src/protocol.ts:1451-1459 | `HoverResult.is`: a vertex labelled "hoverResult" holding an LSP hover |
| Ranges.SymbolTagExactly | protocol/src/protocol.ts:512-574 | `DeclarationTag.is` and `DefinitionTag.is`: the tag's type, a string text, a numeric kind and an LSP full range; a boolean `deprecated` and a string `detail` when present |
| Ranges.TextTagExactly | protocol/src/protocol.ts:592-626 | `ReferenceTag.is` and `UnknownTag.is`: the tag's type and a string text |
| Ranges.RangeTagExactly | protocol/src/protocol.ts:633-653 | `RangeTag.is` accepts exactly the union of the four tags |
| Ranges.RangeTagSwitch | protocol/src/protocol.ts:637-652 | a `type` outside the four tag types fails; each tag type hands the value to its own tag's `is` |
| Ranges.TagsDisjoint | protocol/src/protocol.ts:631-653 | no value is two kinds of tag |
| Ranges.RangeExactly | protocol/src/protocol.ts:668-678 | `Range.is`: a vertex labelled "range" with LSP start and end, whose tag, when it is an own key, passes `RangeTag.is` |
| Ranges.TaggedRangeExactly | protocol/src/protocol.ts:695-702 | a range whose tag is required to be one case accepts exactly the ranges whose tag passes that case |
| Ranges.TaggedRanges | protocol/src/protocol.ts:695-740 | `DefinitionRange.is`, and the corrected `DeclarationRange.is` and `ReferenceRange.is`, are ranges whose tag passes the declared tag's `is` |
| Ranges.UnassignedTagThrows | protocol/src/protocol.ts:668-678 | over the keys of `Range` in order id, type, label, tag, start, end, an unassigned `tag` validator makes the loop throw iff id, type and label pass, and reject otherwise (`Combinators.ThrowsAtUnassigned` at the fourth key) |
| Ranges.AsWrittenRangesThrow | protocol/src/protocol.ts:714-740 | as written, `DeclarationRange.is` and `ReferenceRange.is` throw a TypeError on every defined value whose id is an `Id`, whose type is "vertex" and whose label is "range", and return false on every other value |
| Ranges.AsWrittenRangesRejectAll | protocol/src/protocol.ts:714-740 | in the boolean reading, the as-written `DeclarationRange.is` and `ReferenceRange.is` accept no value |
| Ranges.CorrectedRangeInOrder | protocol/src/protocol.ts:695-702 | a range whose `tag` is checked by a tag descriptor never throws, and its ordered loop accepts exactly what `Conforms` accepts |
| Ranges.DeclarationRangeAsWrittenThrowsOnSample | protocol/src/protocol.ts:714-721 | witness for the finding: an emitter-style declaration range passes the corrected `DeclarationRange.is`, and the as-written one throws on it |
| Symbols.SymbolExactly | protocol/src/protocol.ts:1203-1221 | `RangeBasedDocumentSymbol.is`: an `Id` id and, when `children` is an own key, an array of values that each pass `RangeBasedDocumentSymbol.is` |
| Symbols.TreeConforms | protocol/src/protocol.ts:1203-1221 | a symbol tree written out is accepted iff every id in it, at any depth, is valid |
| Symbols.ResultCheckExactly | protocol/src/protocol.ts:1240-1253 | the check of `result`: an array that is empty, or whose defined first item selects the check for every item |
| Symbols.AcceptedListHomogeneous | protocol/src/protocol.ts:1240-1253 | an accepted list is all range-based symbols or all LSP document symbols |
| Symbols.RangeBasedListAccepted | protocol/src/protocol.ts:1240-1253 | every list of range-based symbols is accepted |
| Symbols.LspListAccepted | protocol/src/protocol.ts:1240-1253 | a list of LSP document symbols whose first item has no `id` is accepted |
| Symbols.MixedListRejected | protocol/src/protocol.ts:1240-1253 | a list led by a range-based symbol rejects any later item that is not one |
| Symbols.DocumentSymbolResultExactly | protocol/src/protocol.ts:1233-1258 | `DocumentSymbolResult.is`: a vertex labelled "documentSymbolResult" whose `result` the check above accepts |
| Edges.BrandField | protocol/src/protocol.ts:1553-1557 | the brand `_` is accepted whatever it holds |
| Edges.E11Exactly | protocol/src/protocol.ts:1559-1568 | the E11 descriptor: `Id` id, outV and inV; type "edge"; one of the edge labels |
| Edges.BrandIgnored | protocol/src/protocol.ts:1553-1568 | setting `_` to anything never changes the E11 verdict |
| Edges.E11IsElement | protocol/src/protocol.ts:1559-1568 | every 1:1 edge is an element |
| Edges.VertexEdgeDisjoint | protocol/src/protocol.ts:1559-1568 | no value is both a vertex and a 1:1 edge |
| Protocol.Is11 | protocol/src/protocol.ts:1838-1841 | `Edge.is11` holds iff the value is an object with an own `inV` that is not undefined |
| Protocol.Is1N | protocol/src/protocol.ts:1843-1846 | `Edge.is1N` holds iff the value is an object whose own `inVs` is an array |
| Edges.E11IsIs11 | protocol/src/protocol.ts:1837-1848 | what passes the E11 descriptor passes `Edge.is11` |
| Edges.Is11AndIs1NApart | protocol/src/protocol.ts:1837-1848 | an object with an array `inVs` and no `inV` is 1:N and not 1:1, and the other way round |
| Edges.EdgeKindRefines | protocol/src/protocol.ts:1660-1667 | fixing the label to one edge label narrows E11 |
| Edges.EdgeKindExactly | protocol/src/protocol.ts:1660-1764 | an E11 edge kind accepts exactly the E11 edges that carry its label |
| Edges.EdgeKindsDisjoint | protocol/src/protocol.ts:1660-1764 | two edge kinds with different labels accept disjoint sets |
| Edges.StructureEdges | protocol/src/protocol.ts:1660-1699 | `attach.is`, `packageInformation.is` and `belongsTo.is` are E11 edges with those labels |
| Edges.DocumentEdges | protocol/src/protocol.ts:1708-1764 | the documentSymbol, foldingRange, documentLink and diagnostic edges are E11 edges with their labels |

## Left out

- The `lsp.*` validators (`Range`, `Position`, `Hover`, `Diagnostic`,
  `DocumentSymbol`, `FoldingRange`, `DocumentLink`) belong to another
  package. They are the uninterpreted parameter `lsp`.
- Boxed `String` and `Number` objects, which `Is.string` and `Is.number`
  also accept through `instanceof`, are not JSON values and are not
  modelled.
- Identifiers.UintegerIs: numbers are exact reals, so the double-precision
  rounding behind `Number.isInteger` and NaN and infinities are not
  modelled.
- `hasOwnProperty` sees only an object's own keys. Prototype chains, and
  the `length` and index keys of strings and arrays, are not modelled.
- `RangeTag.is` throws a TypeError when given undefined or null, and
  `DocumentSymbolResult`'s check throws when the first item is undefined
  or null. The source throws; the model answers false. These two throws
  are not modelled in `ValidateInOrder` either.
- Ranges.AsWrittenRangesRejectAll: `Conforms` reads the TypeError of the
  as-written `DeclarationRange.is` and `ReferenceRange.is` as false. The
  `Unassigned` check stands for a validator the namespace never assigned
  in time, unlike the `Self` arrow of `RangeBasedDocumentSymbol`.
  `Ranges.AsWrittenRangesThrow` states which values throw.
- `Edge11Descriptor` stores its out and in vertex descriptors, but
  `validate` never consults them. The types of an edge's endpoints are not
  modelled.
- Declarations that exist only as types have no runtime descriptor and are
  not modelled: `E1N`, `ItemEdge`, `contains`, `next`, `item`, `moniker`,
  and the `textDocument_*` edges without a descriptor (`declaration`,
  `definition`, `typeDefinition`, `hover`, `references`, `implementation`).
- Uri.property and StringProperty are the same check. Uri is modelled as
  `StringProperty`.
- The emitter's moniker handling, result-set sharing and item batching
  live outside `protocol.ts`. They are not part of this model.

## Findings

| source | as written | input that shows it | evidently intended | confidence | as-written member | corrected member |
|---|---|---|---|---|---|---|
| protocol/src/protocol.ts:714-740 | `DeclarationRange` and `ReferenceRange` build their descriptor with `new Property(DeclarationRange.is)` (and `ReferenceRange.is`) before the namespace assigns `is`, so the tag's validator is undefined. Once id, type and label pass, `validate` calls it and throws a TypeError; every other value gets false | any range, for example one with a declaration tag holding type, text, kind and fullRange: the corrected check accepts it and the check as written throws (`Ranges.DeclarationRangeAsWrittenThrowsOnSample`) | check `tag` with `DeclarationTag.is` and `ReferenceTag.is`, as the interfaces at 707-712 and 726-731 declare and as `DefinitionRange` does | high; not executed | Ranges.AsWrittenRangesThrow | Ranges.TaggedRanges |
| protocol/src/protocol.ts:266-275 | `VertexLabels.property(flags)` (and `EdgeLabels.property`, 1505-1514) passes the second argument, not the flags given first, to the enum property | `VertexLabels.property(PropertyFlags.optional)` yields a property that is not optional | use `valueOrFlags` as the flags when it is not a label | medium, since no call in the file passes flags first; not executed | Combinators.LabelFlagsDropped | Combinators.LabelFlagsHonoured |

The model's own `DeclarationRange` and `ReferenceRange` use the corrected
tag check. The as-written descriptors are kept beside them as
`DeclarationRangeAsWritten` and `ReferenceRangeAsWritten`. The
as-written `is` accepts no value. It throws on every value that reaches
the `tag` key. The E11
label uses the corrected overload, which agrees with the written one on
that call (`Combinators.LabelOverloadsAgree`).
