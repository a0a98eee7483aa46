/** The descriptors of the LSIF vertices and edges. Each descriptor that
    the protocol builds with `Object.assign({}, base.description, fields)`
    is `Base + Fields` here: the right operand of `+` wins on shared keys,
    as the later source object does. `X.is(value)` is
    `Conforms(lsp, X, value)`; MetaData and E11 have a descriptor and no
    `is`, and for them `Conforms` is the descriptor's `validate`. */
module Protocol {
  import opened JsonValues
  import opened Enums
  import opened Schema
  import PropertyFlags

  // ---------------------------------------------------------------------
  // Elements and vertices
  // ---------------------------------------------------------------------

  const Element: Description := map[
    "id" := IdProperty(PropertyFlags.None),
    "type" := StringEnumProperty(ElementTypeValues, PropertyFlags.None)
  ]

  const VFields: Description := map[
    "type" := Req(Equals("vertex")),
    "label" := LabelsProperty(VertexLabelValues, LabelFlags(PropertyFlags.None), PropertyFlags.None)
  ]

  const V: Description := Element + VFields

  /** A vertex kind whose only field beyond V is its label. */
  function LabelFields(l: string): Description
  {
    map["label" := VertexLabel(l)]
  }

  const EventFields: Description := map[
    "label" := VertexLabel("$event"),
    "scope" := StringEnumProperty(EventScopeValues, PropertyFlags.None),
    "kind" := StringEnumProperty(EventKindValues, PropertyFlags.None),
    "data" := IdProperty(PropertyFlags.None)
  ]

  const Event: Description := V + EventFields

  /** The four scoped events narrow `scope` to one value. */
  function ScopeFields(scope: string): Description
  {
    map["scope" := Req(Equals(scope))]
  }

  const GroupEvent: Description := Event + ScopeFields("group")
  const ProjectEvent: Description := Event + ScopeFields("project")
  const DocumentEvent: Description := Event + ScopeFields("document")
  const MonikerAttachEvent: Description := Event + ScopeFields("monikerAttach")

  const ResultSet: Description := V + LabelFields("resultSet")

  // ---------------------------------------------------------------------
  // Range tags and ranges
  // ---------------------------------------------------------------------

  /** Declaration and definition tags differ only in their `type`. */
  function SymbolTag(tagType: string): Description
  {
    map[
      "type" := Req(Equals(tagType)),
      "text" := StringProperty(PropertyFlags.None),
      "kind" := Req(IsSymbolKind),
      "deprecated" := BooleanProperty(PropertyFlags.Optional),
      "fullRange" := Req(Foreign(LspRange)),
      "detail" := StringProperty(PropertyFlags.Optional)
    ]
  }

  /** Reference and unknown tags carry a type and a text. */
  function TextTag(tagType: string): Description
  {
    map["type" := Req(Equals(tagType)), "text" := StringProperty(PropertyFlags.None)]
  }

  const DeclarationTag: Description := SymbolTag("declaration")
  const DefinitionTag: Description := SymbolTag("definition")
  const ReferenceTag: Description := TextTag("reference")
  const UnknownTag: Description := TextTag("unknown")

  /** `RangeTag.is`: `type` must be a range tag type; the tag's own `is`
      then decides. */
  const RangeTag: Check := Dispatch("type", RangeTagTypeValues, map[
    "definition" := DefinitionTag,
    "declaration" := DeclarationTag,
    "reference" := ReferenceTag,
    "unknown" := UnknownTag
  ])

  const RangeFields: Description := map[
    "label" := VertexLabel("range"),
    "tag" := Property(RangeTag, PropertyFlags.Optional),
    "start" := Req(Foreign(LspPosition)),
    "end" := Req(Foreign(LspPosition))
  ]

  const Range: Description := V + RangeFields

  /** A range whose `tag` is required and must pass the tag descriptor. */
  function TaggedRange(tag: Description): Description
  {
    Range + map["tag" := Req(Object(tag))]
  }

  const DefinitionRange: Description := TaggedRange(DefinitionTag)

  /** DeclarationRange and ReferenceRange as written pass their own `is` to
      the tag's `Property` while the descriptor is being built, before the
      namespace's `is` is assigned: the tag's validator is undefined. */
  const DeclarationRangeAsWritten: Description := Range + map["tag" := Req(Unassigned)]
  const ReferenceRangeAsWritten: Description := Range + map["tag" := Req(Unassigned)]

  /** The same two with the tag checked by the tag descriptor the
      interfaces declare. */
  const DeclarationRange: Description := TaggedRange(DeclarationTag)
  const ReferenceRange: Description := TaggedRange(ReferenceTag)

  // ---------------------------------------------------------------------
  // The other vertices
  // ---------------------------------------------------------------------

  const LocationFields: Description := map[
    "label" := VertexLabel("location"),
    "range" := Req(Foreign(LspRange))
  ]

  const Location: Description := V + LocationFields

  const ToolInfo: Description := map[
    "name" := StringProperty(PropertyFlags.None),
    "version" := StringProperty(PropertyFlags.Optional),
    "args" := StringArrayProperty(PropertyFlags.Optional)
  ]

  const ToolState: Description := map["data" := StringProperty(PropertyFlags.Optional)]

  const MetaDataFields: Description := map[
    "label" := VertexLabel("metaData"),
    "version" := StringProperty(PropertyFlags.None),
    "positionEncoding" := Req(Equals("utf-16")),
    "toolInfo" := Property(Object(ToolInfo), PropertyFlags.Optional),
    "toolState" := Property(Object(ToolState), PropertyFlags.Optional)
  ]

  const MetaData: Description := V + MetaDataFields

  const RepositoryInfo: Description := map[
    "type" := StringProperty(PropertyFlags.None),
    "url" := StringProperty(PropertyFlags.None),
    "commitId" := StringProperty(PropertyFlags.Optional)
  ]

  /** `description` is required here although the Group interface marks it
      optional. */
  const GroupFields: Description := map[
    "label" := VertexLabel("group"),
    "uri" := StringProperty(PropertyFlags.None),
    "conflictResolution" := Req(OneOf({"takeDump", "takeDB"})),
    "name" := StringProperty(PropertyFlags.None),
    "rootUri" := StringProperty(PropertyFlags.None),
    "description" := StringProperty(PropertyFlags.None),
    "repository" := Property(Object(RepositoryInfo), PropertyFlags.Optional)
  ]

  const Group: Description := V + GroupFields

  const ProjectFields: Description := map[
    "label" := VertexLabel("project"),
    "kind" := StringProperty(PropertyFlags.None),
    "name" := StringProperty(PropertyFlags.None),
    "resource" := StringProperty(PropertyFlags.Optional),
    "contents" := StringProperty(PropertyFlags.Optional)
  ]

  const Project: Description := V + ProjectFields

  const DocumentFields: Description := map[
    "label" := VertexLabel("document"),
    "uri" := StringProperty(PropertyFlags.None),
    "languageId" := StringProperty(PropertyFlags.None),
    "contents" := StringProperty(PropertyFlags.Optional)
  ]

  const Document: Description := V + DocumentFields

  const MonikerFields: Description := map[
    "label" := VertexLabel("moniker"),
    "scheme" := StringProperty(PropertyFlags.None),
    "identifier" := StringProperty(PropertyFlags.None),
    "unique" := StringEnumProperty(UniquenessLevelValues, PropertyFlags.None),
    "kind" := StringEnumProperty(MonikerKindValues, PropertyFlags.Optional)
  ]

  const Moniker: Description := V + MonikerFields

  const PackageInformationFields: Description := map[
    "label" := VertexLabel("packageInformation"),
    "name" := StringProperty(PropertyFlags.None),
    "manager" := StringProperty(PropertyFlags.None),
    "uri" := StringProperty(PropertyFlags.Optional),
    "contents" := StringProperty(PropertyFlags.Optional),
    "version" := StringProperty(PropertyFlags.Optional),
    "repository" := Property(Object(RepositoryInfo), PropertyFlags.Optional)
  ]

  const PackageInformation: Description := V + PackageInformationFields

  // ---------------------------------------------------------------------
  // Result vertices
  // ---------------------------------------------------------------------

  /** A document symbol whose range is given by the id of a range vertex;
      `children` is checked by this same descriptor. */
  const RangeBasedDocumentSymbol: Description := map[
    "id" := IdProperty(PropertyFlags.None),
    "children" := Property(ArrayOf(Self), PropertyFlags.Optional)
  ]

  /** The items of `result` are all range based symbols or all LSP
      document symbols, as the first item's `id` says. */
  const DocumentSymbolResultFields: Description := map[
    "label" := VertexLabel("documentSymbolResult"),
    "result" := Req(PickByFirst("id", Object(RangeBasedDocumentSymbol), Foreign(LspDocumentSymbol)))
  ]

  const DocumentSymbolResult: Description := V + DocumentSymbolResultFields

  /** A result vertex holding an array checked item by item. */
  function ArrayResultFields(l: string, item: LspValidator): Description
  {
    map["label" := VertexLabel(l), "result" := ArrayProperty(Foreign(item), PropertyFlags.None)]
  }

  const DiagnosticResult: Description := V + ArrayResultFields("diagnosticResult", LspDiagnostic)
  const FoldingRangeResult: Description := V + ArrayResultFields("foldingRangeResult", LspFoldingRange)
  const DocumentLinkResult: Description := V + ArrayResultFields("documentLinkResult", LspDocumentLink)

  const DeclarationResult: Description := V + LabelFields("declarationResult")
  const DefinitionResult: Description := V + LabelFields("definitionResult")
  const TypeDefinitionResult: Description := V + LabelFields("typeDefinitionResult")
  const ReferenceResult: Description := V + LabelFields("referenceResult")
  const ImplementationResult: Description := V + LabelFields("implementationResult")

  const HoverResultFields: Description := map[
    "label" := VertexLabel("hoverResult"),
    "result" := Req(Foreign(LspHover))
  ]

  const HoverResult: Description := V + HoverResultFields

  // ---------------------------------------------------------------------
  // Edges
  // ---------------------------------------------------------------------

  /** The common description of 1:1 edges; the brand `_` accepts anything. */
  const E11: Description := map[
    "_" := Opt(Anything),
    "id" := IdProperty(PropertyFlags.None),
    "type" := Req(Equals("edge")),
    "label" := LabelsProperty(EdgeLabelValues, LabelFlags(PropertyFlags.None), PropertyFlags.None),
    "outV" := IdProperty(PropertyFlags.None),
    "inV" := IdProperty(PropertyFlags.None)
  ]

  /** An E11 edge kind fixes its label. */
  function EdgeLabelFields(l: string): Description
  {
    map["label" := EdgeLabel(l)]
  }

  const attach: Description := E11 + EdgeLabelFields("attach")
  const packageInformation: Description := E11 + EdgeLabelFields("packageInformation")
  const belongsTo: Description := E11 + EdgeLabelFields("belongsTo")
  const textDocument_documentSymbol: Description := E11 + EdgeLabelFields("textDocument/documentSymbol")
  const textDocument_foldingRange: Description := E11 + EdgeLabelFields("textDocument/foldingRange")
  const textDocument_documentLink: Description := E11 + EdgeLabelFields("textDocument/documentLink")
  const textDocument_diagnostic: Description := E11 + EdgeLabelFields("textDocument/diagnostic")

  /** `Edge.is11`: truthy and `inV !== undefined`. */
  function Is11(v: Json): (r: bool)
    ensures r <==> v.Obj? && "inV" in v.fields && v.fields["inV"] != Undefined
  {
    Truthy(v) && Field(v, "inV") != Undefined
  }

  /** `Edge.is1N`: truthy and `inVs` an array. */
  function Is1N(v: Json): (r: bool)
    ensures r <==> v.Obj? && "inVs" in v.fields && v.fields["inVs"].Arr?
  {
    Truthy(v) && Field(v, "inVs").Arr?
  }
}
