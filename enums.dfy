/** The string enums of the LSIF protocol and `StringEnum.values`. */
module Enums {
  import opened JsonValues

  /** A TypeScript string enum as a runtime object: member name to value.
      Each enum's `values` set is computed before the merged namespace adds
      its `property` and `is` functions to the object, so the object holds
      the declared members only. */
  type StringEnum = map<string, string>

  /** `StringEnum.values`: the set of the enum's member values. */
  function Values(e: StringEnum): set<string>
  {
    set k | k in e :: e[k]
  }

  /** `values.has(value)`, the body of every enum's `is`. */
  predicate EnumIs(values: set<string>, v: Json)
  {
    v.Str? && v.s in values
  }

  /** An enum whose every member is named after its value has the member
      names as its values. */
  lemma {:induction false} SelfNamedValues(e: StringEnum)
    requires forall k | k in e :: e[k] == k
    ensures Values(e) == e.Keys
  {
    forall s | s in e.Keys ensures s in Values(e) {
      assert e[s] == s;
    }
  }

  const ElementTypes: StringEnum := map["vertex" := "vertex", "edge" := "edge"]
  const ElementTypeValues: set<string> := {"vertex", "edge"}

  lemma ElementTypesValues()
    ensures Values(ElementTypes) == ElementTypeValues
  {
    SelfNamedValues(ElementTypes);
  }

  const VertexLabels: StringEnum := map[
    "metaData" := "metaData",
    "event" := "$event",
    "project" := "project",
    "group" := "group",
    "range" := "range",
    "location" := "location",
    "document" := "document",
    "moniker" := "moniker",
    "packageInformation" := "packageInformation",
    "resultSet" := "resultSet",
    "documentSymbolResult" := "documentSymbolResult",
    "foldingRangeResult" := "foldingRangeResult",
    "documentLinkResult" := "documentLinkResult",
    "diagnosticResult" := "diagnosticResult",
    "declarationResult" := "declarationResult",
    "definitionResult" := "definitionResult",
    "typeDefinitionResult" := "typeDefinitionResult",
    "hoverResult" := "hoverResult",
    "referenceResult" := "referenceResult",
    "implementationResult" := "implementationResult"
  ]

  const VertexLabelValues: set<string> := {
    "metaData", "$event", "project", "group", "range", "location", "document",
    "moniker", "packageInformation", "resultSet", "documentSymbolResult",
    "foldingRangeResult", "documentLinkResult", "diagnosticResult",
    "declarationResult", "definitionResult", "typeDefinitionResult",
    "hoverResult", "referenceResult", "implementationResult"
  }

  /** The event label is the one vertex label that differs from its member
      name. */
  lemma VertexLabelsValues()
    ensures Values(VertexLabels) == VertexLabelValues
  {
    forall s | s in VertexLabelValues ensures s in Values(VertexLabels) {
      var k := if s == "$event" then "event" else s;
      assert k in VertexLabels && VertexLabels[k] == s;
    }
  }

  const EventKind: StringEnum := map["begin" := "begin", "end" := "end"]
  const EventKindValues: set<string> := {"begin", "end"}

  lemma EventKindsValues()
    ensures Values(EventKind) == EventKindValues
  {
    SelfNamedValues(EventKind);
  }

  const EventScope: StringEnum := map[
    "group" := "group",
    "project" := "project",
    "document" := "document",
    "monikerAttach" := "monikerAttach"
  ]
  const EventScopeValues: set<string> := {"group", "project", "document", "monikerAttach"}

  lemma EventScopesValues()
    ensures Values(EventScope) == EventScopeValues
  {
    SelfNamedValues(EventScope);
  }

  const RangeTagTypes: StringEnum := map[
    "declaration" := "declaration",
    "definition" := "definition",
    "reference" := "reference",
    "unknown" := "unknown"
  ]
  const RangeTagTypeValues: set<string> := {"declaration", "definition", "reference", "unknown"}

  lemma RangeTagTypesValues()
    ensures Values(RangeTagTypes) == RangeTagTypeValues
  {
    SelfNamedValues(RangeTagTypes);
  }

  lemma RangeTagTypeCases(s: string)
    requires s in RangeTagTypeValues
    ensures s == "declaration" || s == "definition" || s == "reference" || s == "unknown"
  {
  }

  const MonikerKind: StringEnum := map["import" := "import", "export" := "export", "local" := "local"]
  const MonikerKindValues: set<string> := {"import", "export", "local"}

  lemma MonikerKindsValues()
    ensures Values(MonikerKind) == MonikerKindValues
  {
    SelfNamedValues(MonikerKind);
  }

  const UniquenessLevel: StringEnum := map[
    "document" := "document",
    "project" := "project",
    "group" := "group",
    "scheme" := "scheme",
    "global" := "global"
  ]
  const UniquenessLevelValues: set<string> := {"document", "project", "group", "scheme", "global"}

  lemma UniquenessLevelsValues()
    ensures Values(UniquenessLevel) == UniquenessLevelValues
  {
    SelfNamedValues(UniquenessLevel);
  }

  const EdgeLabels: StringEnum := map[
    "contains" := "contains",
    "item" := "item",
    "next" := "next",
    "moniker" := "moniker",
    "attach" := "attach",
    "packageInformation" := "packageInformation",
    "belongsTo" := "belongsTo",
    "textDocument_documentSymbol" := "textDocument/documentSymbol",
    "textDocument_foldingRange" := "textDocument/foldingRange",
    "textDocument_documentLink" := "textDocument/documentLink",
    "textDocument_diagnostic" := "textDocument/diagnostic",
    "textDocument_definition" := "textDocument/definition",
    "textDocument_declaration" := "textDocument/declaration",
    "textDocument_typeDefinition" := "textDocument/typeDefinition",
    "textDocument_hover" := "textDocument/hover",
    "textDocument_references" := "textDocument/references",
    "textDocument_implementation" := "textDocument/implementation"
  ]

  const EdgeLabelValues: set<string> := {
    "contains", "item", "next", "moniker", "attach", "packageInformation", "belongsTo",
    "textDocument/documentSymbol", "textDocument/foldingRange",
    "textDocument/documentLink", "textDocument/diagnostic",
    "textDocument/definition", "textDocument/declaration",
    "textDocument/typeDefinition", "textDocument/hover",
    "textDocument/references", "textDocument/implementation"
  }

  /** The request edges' values use `/` where their member names use `_`. */
  lemma EdgeLabelsValues()
    ensures Values(EdgeLabels) == EdgeLabelValues
  {
    var requests := map[
      "textDocument/documentSymbol" := "textDocument_documentSymbol",
      "textDocument/foldingRange" := "textDocument_foldingRange",
      "textDocument/documentLink" := "textDocument_documentLink",
      "textDocument/diagnostic" := "textDocument_diagnostic",
      "textDocument/definition" := "textDocument_definition",
      "textDocument/declaration" := "textDocument_declaration",
      "textDocument/typeDefinition" := "textDocument_typeDefinition",
      "textDocument/hover" := "textDocument_hover",
      "textDocument/references" := "textDocument_references",
      "textDocument/implementation" := "textDocument_implementation"
    ];
    forall s | s in EdgeLabelValues ensures s in Values(EdgeLabels) {
      var k := if s in requests then requests[s] else s;
      assert k in EdgeLabels && EdgeLabels[k] == s;
    }
  }
}
