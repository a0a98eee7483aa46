/** What the element and vertex descriptors accept. Each vertex kind is
    `V + XFields`; its acceptance is stated as `V.is` plus a plain predicate
    on the kind's own fields, proved in two directions. */
module Vertices {
  import opened JsonValues
  import opened Enums
  import opened Identifiers
  import opened Schema
  import opened Protocol
  import Combinators
  import PropertyFlags

  /** Undefined and null are never an element. */
  predicate Defined(v: Json)
  {
    v != Undefined && v != Null
  }

  /** An optional string field: absent, or a string. */
  predicate OptionalString(v: Json, key: string)
  {
    HasOwn(v, key) ==> Field(v, key).Str?
  }

  // ---------------------------------------------------------------------
  // Element and V
  // ---------------------------------------------------------------------

  /** `Element.is`: a defined value with an `Id` id and a `type` of
      "vertex" or "edge". */
  lemma ElementExactly(lsp: Lsp, v: Json)
    ensures Conforms(lsp, Element, v) <==> Defined(v) && IdIs(Field(v, "id")) && EnumIs(ElementTypeValues, Field(v, "type"))
  {
    if Defined(v) {
      assert Element.Keys == {"id", "type"};
      Combinators.IdField(lsp, Element, v, "id");
      Combinators.EnumField(lsp, Element, v, "type", ElementTypeValues);
    }
  }

  /** `V.is`: an element of type "vertex" whose label is a vertex label. */
  lemma VExactly(lsp: Lsp, v: Json)
    ensures Conforms(lsp, V, v) <==> Defined(v) && IdIs(Field(v, "id")) && Field(v, "type") == Str("vertex") && EnumIs(VertexLabelValues, Field(v, "label"))
  {
    if Defined(v) {
      assert V.Keys == {"id", "type", "label"};
      Combinators.IdField(lsp, V, v, "id");
      Combinators.LiteralField(lsp, V, v, "type", "vertex");
      Combinators.EnumField(lsp, V, v, "label", VertexLabelValues);
    }
  }

  /** Every vertex is an element. */
  lemma VIsElement(lsp: Lsp, v: Json)
    ensures Conforms(lsp, V, v) ==> Conforms(lsp, Element, v)
  {
    Combinators.ExtensionNarrows(lsp, Element, VFields, v);
  }

  lemma VNoSelf()
    ensures Combinators.NoSelf(V)
  {
    assert Combinators.NoSelf(Element);
    assert Combinators.NoSelf(VFields);
    Combinators.NoSelfMerge(Element, VFields);
  }

  // ---------------------------------------------------------------------
  // Vertex kinds
  // ---------------------------------------------------------------------

  /** The fields a vertex kind adds to V: its label fixed to a vertex label,
      id and type left to V, and no check referring to its own `is`. */
  predicate KindFields(fields: Description, l: string)
  {
    && "label" in fields && fields["label"] == VertexLabel(l)
    && "id" !in fields && "type" !in fields
    && l in VertexLabelValues
    && Combinators.NoSelf(fields)
  }

  /** A vertex kind accepts exactly the vertices that also pass its own
      fields, and those carry its label. */
  lemma KindExactly(lsp: Lsp, fields: Description, l: string, v: Json)
    requires KindFields(fields, l)
    ensures Conforms(lsp, V + fields, v) <==> Conforms(lsp, V, v) && Conforms(lsp, fields, v)
    ensures Conforms(lsp, fields, v) ==> Field(v, "label") == Str(l)
  {
    VNoSelf();
    Combinators.ExtensionExactly(lsp, V, fields, v);
    if Conforms(lsp, fields, v) {
      Combinators.LiteralFieldFixed(lsp, fields, "label", l, v);
    }
  }

  /** The properties V gives `id` and `type`. */
  lemma VEntries()
    ensures V.Keys == {"id", "type", "label"}
    ensures V["id"] == IdProperty(PropertyFlags.None) && V["type"] == Req(Equals("vertex"))
  {
  }

  /** The id, type and label properties of a vertex kind. */
  lemma KindEntries(fields: Description, l: string)
    requires KindFields(fields, l)
    ensures (V + fields)["id"] == IdProperty(PropertyFlags.None)
    ensures (V + fields)["type"] == Req(Equals("vertex"))
    ensures (V + fields)["label"] == Req(Equals(l))
  {
    VEntries();
  }

  /** Two vertex kinds with different labels accept disjoint sets. */
  lemma KindsDisjoint(lsp: Lsp, f1: Description, l1: string, f2: Description, l2: string, v: Json)
    requires KindFields(f1, l1) && KindFields(f2, l2) && l1 != l2
    ensures !(Conforms(lsp, V + f1, v) && Conforms(lsp, V + f2, v))
  {
    KindExactly(lsp, f1, l1, v);
    KindExactly(lsp, f2, l2, v);
  }

  /** A kind whose only field is its label accepts exactly the vertices
      carrying that label: ResultSet and the five location results. */
  lemma LabelOnlyExactly(lsp: Lsp, l: string, v: Json)
    requires l in VertexLabelValues
    ensures Conforms(lsp, V + LabelFields(l), v) <==> Conforms(lsp, V, v) && Field(v, "label") == Str(l)
  {
    KindExactly(lsp, LabelFields(l), l, v);
    if Defined(v) {
      Combinators.LiteralField(lsp, LabelFields(l), v, "label", l);
    }
  }

  // ---------------------------------------------------------------------
  // Events
  // ---------------------------------------------------------------------

  predicate EventFieldsOk(v: Json)
  {
    && Field(v, "label") == Str("$event")
    && EnumIs(EventScopeValues, Field(v, "scope"))
    && EnumIs(EventKindValues, Field(v, "kind"))
    && IdIs(Field(v, "data"))
  }

  lemma EventShape()
    ensures KindFields(EventFields, "$event")
  {
  }

  lemma EventFieldsNecessary(lsp: Lsp, v: Json)
    requires Conforms(lsp, EventFields, v)
    ensures EventFieldsOk(v)
  {
    Combinators.LiteralField(lsp, EventFields, v, "label", "$event");
    Combinators.EnumField(lsp, EventFields, v, "scope", EventScopeValues);
    Combinators.EnumField(lsp, EventFields, v, "kind", EventKindValues);
    Combinators.IdField(lsp, EventFields, v, "data");
  }

  lemma EventFieldsSufficient(lsp: Lsp, v: Json)
    requires Defined(v) && EventFieldsOk(v)
    ensures Conforms(lsp, EventFields, v)
  {
    forall k | k in EventFields ensures FieldOk(lsp, EventFields, v, k) {
      if k == "label" {
        Combinators.LiteralField(lsp, EventFields, v, "label", "$event");
      } else if k == "scope" {
        Combinators.EnumField(lsp, EventFields, v, "scope", EventScopeValues);
      } else if k == "kind" {
        Combinators.EnumField(lsp, EventFields, v, "kind", EventKindValues);
      } else {
        Combinators.IdField(lsp, EventFields, v, "data");
      }
    }
  }

  /** `Event.is`: a vertex labelled "$event" with an event scope, an event
      kind and the `Id` of the data it is about. */
  lemma EventExactly(lsp: Lsp, v: Json)
    ensures Conforms(lsp, Event, v) <==> Conforms(lsp, V, v) && EventFieldsOk(v)
  {
    EventShape();
    KindExactly(lsp, EventFields, "$event", v);
    if Conforms(lsp, EventFields, v) {
      EventFieldsNecessary(lsp, v);
    }
    if Defined(v) && EventFieldsOk(v) {
      EventFieldsSufficient(lsp, v);
    }
  }

  lemma EventNoSelf()
    ensures Combinators.NoSelf(Event)
  {
    EventShape();
    VNoSelf();
    Combinators.NoSelfMerge(V, EventFields);
  }

  /** Narrowing the scope to one of the event scopes refines Event. */
  lemma ScopeRefines(scope: string)
    requires scope in EventScopeValues
    ensures Combinators.Refines(Event, ScopeFields(scope)) && Combinators.NoSelf(ScopeFields(scope))
  {
    EventNoSelf();
    assert "scope" in Event && Event["scope"] == StringEnumProperty(EventScopeValues, PropertyFlags.None);
    assert Combinators.PropertyNarrows(ScopeFields(scope)["scope"], Event["scope"]);
  }

  lemma ScopeFieldsExactly(lsp: Lsp, scope: string, v: Json)
    ensures Conforms(lsp, ScopeFields(scope), v) <==> Defined(v) && Field(v, "scope") == Str(scope)
  {
    if Defined(v) {
      Combinators.LiteralField(lsp, ScopeFields(scope), v, "scope", scope);
    }
  }

  /** The four scoped events: an event whose scope is the given one. */
  lemma ScopedEventExactly(lsp: Lsp, scope: string, v: Json)
    requires scope in EventScopeValues
    ensures Conforms(lsp, Event + ScopeFields(scope), v) <==>
      Conforms(lsp, Event, v) && Field(v, "scope") == Str(scope)
  {
    ScopeRefines(scope);
    Combinators.ExtensionExactly(lsp, Event, ScopeFields(scope), v);
    ScopeFieldsExactly(lsp, scope, v);
  }

  /** `GroupEvent.is`, `ProjectEvent.is`, `DocumentEvent.is` and
      `MonikerAttachEvent.is` fix the scope. */
  lemma ScopedEvents(lsp: Lsp, v: Json)
    ensures Conforms(lsp, GroupEvent, v) <==> Conforms(lsp, Event, v) && Field(v, "scope") == Str("group")
    ensures Conforms(lsp, ProjectEvent, v) <==> Conforms(lsp, Event, v) && Field(v, "scope") == Str("project")
    ensures Conforms(lsp, DocumentEvent, v) <==> Conforms(lsp, Event, v) && Field(v, "scope") == Str("document")
    ensures Conforms(lsp, MonikerAttachEvent, v) <==> Conforms(lsp, Event, v) && Field(v, "scope") == Str("monikerAttach")
  {
    ScopedEventExactly(lsp, "group", v);
    ScopedEventExactly(lsp, "project", v);
    ScopedEventExactly(lsp, "document", v);
    ScopedEventExactly(lsp, "monikerAttach", v);
  }

  // ---------------------------------------------------------------------
  // Location
  // ---------------------------------------------------------------------

  lemma LocationShape()
    ensures KindFields(LocationFields, "location")
  {
  }

  lemma LocationFieldsExactly(lsp: Lsp, v: Json)
    ensures Conforms(lsp, LocationFields, v) <==> Defined(v) && Field(v, "label") == Str("location") && lsp(LspRange, Field(v, "range"))
  {
    if Defined(v) {
      assert LocationFields.Keys == {"label", "range"};
      Combinators.LiteralField(lsp, LocationFields, v, "label", "location");
      Combinators.ForeignField(lsp, LocationFields, v, "range", LspRange);
    }
  }

  /** `Location.is`: a vertex labelled "location" holding an LSP range. */
  lemma LocationExactly(lsp: Lsp, v: Json)
    ensures Conforms(lsp, Location, v) <==> Conforms(lsp, V, v) && Field(v, "label") == Str("location") && lsp(LspRange, Field(v, "range"))
  {
    LocationShape();
    KindExactly(lsp, LocationFields, "location", v);
    LocationFieldsExactly(lsp, v);
  }

  // ---------------------------------------------------------------------
  // MetaData, ToolInfo, ToolState
  // ---------------------------------------------------------------------

  /** `ToolState.is`: every field is optional, so any defined value whose
      own `data`, if any, is a string passes, numbers and strings
      included. */
  lemma ToolStateExactly(lsp: Lsp, v: Json)
    ensures Conforms(lsp, ToolState, v) <==> Defined(v) && OptionalString(v, "data")
  {
    if Defined(v) {
      assert ToolState.Keys == {"data"};
      Combinators.OptionalStringField(lsp, ToolState, v, "data");
    }
  }

  /** `ToolInfo.is`: a string name, and a string version and string array
      args when present. */
  lemma ToolInfoExactly(lsp: Lsp, v: Json)
    ensures Conforms(lsp, ToolInfo, v) <==> Defined(v) && Field(v, "name").Str? && OptionalString(v, "version") && (HasOwn(v, "args") ==> Field(v, "args").Arr? && forall i | 0 <= i < |Field(v, "args").items| :: Field(v, "args").items[i].Str?)
  {
    if Defined(v) {
      assert ToolInfo.Keys == {"name", "version", "args"};
      Combinators.StringField(lsp, ToolInfo, v, "name");
      Combinators.OptionalStringField(lsp, ToolInfo, v, "version");
      Combinators.OptionalStringArrayField(lsp, ToolInfo, v, "args");
    }
  }

  predicate MetaDataFieldsOk(lsp: Lsp, v: Json)
  {
    && Field(v, "label") == Str("metaData")
    && Field(v, "version").Str?
    && Field(v, "positionEncoding") == Str("utf-16")
    && (HasOwn(v, "toolInfo") ==> Conforms(lsp, ToolInfo, Field(v, "toolInfo")))
    && (HasOwn(v, "toolState") ==> Conforms(lsp, ToolState, Field(v, "toolState")))
  }

  lemma MetaDataShape()
    ensures KindFields(MetaDataFields, "metaData")
  {
  }

  lemma MetaDataFieldsNecessary(lsp: Lsp, v: Json)
    requires Conforms(lsp, MetaDataFields, v)
    ensures MetaDataFieldsOk(lsp, v)
  {
    Combinators.LiteralField(lsp, MetaDataFields, v, "label", "metaData");
    Combinators.StringField(lsp, MetaDataFields, v, "version");
    Combinators.LiteralField(lsp, MetaDataFields, v, "positionEncoding", "utf-16");
    Combinators.OptionalObjectField(lsp, MetaDataFields, v, "toolInfo", ToolInfo);
    Combinators.OptionalObjectField(lsp, MetaDataFields, v, "toolState", ToolState);
  }

  lemma MetaDataFieldsSufficient(lsp: Lsp, v: Json)
    requires Defined(v) && MetaDataFieldsOk(lsp, v)
    ensures Conforms(lsp, MetaDataFields, v)
  {
    forall k | k in MetaDataFields ensures FieldOk(lsp, MetaDataFields, v, k) {
      if k == "label" {
        Combinators.LiteralField(lsp, MetaDataFields, v, "label", "metaData");
      } else if k == "version" {
        Combinators.StringField(lsp, MetaDataFields, v, "version");
      } else if k == "positionEncoding" {
        Combinators.LiteralField(lsp, MetaDataFields, v, "positionEncoding", "utf-16");
      } else if k == "toolInfo" {
        Combinators.OptionalObjectField(lsp, MetaDataFields, v, "toolInfo", ToolInfo);
      } else {
        Combinators.OptionalObjectField(lsp, MetaDataFields, v, "toolState", ToolState);
      }
    }
  }

  /** MetaData's descriptor (it has no `is`): a vertex labelled "metaData"
      with a string version, the "utf-16" position encoding, and tool info
      and tool state that pass their own `is` when present. */
  lemma MetaDataExactly(lsp: Lsp, v: Json)
    ensures Conforms(lsp, MetaData, v) <==> Conforms(lsp, V, v) && MetaDataFieldsOk(lsp, v)
  {
    MetaDataShape();
    KindExactly(lsp, MetaDataFields, "metaData", v);
    if Conforms(lsp, MetaDataFields, v) {
      MetaDataFieldsNecessary(lsp, v);
    }
    if Defined(v) && MetaDataFieldsOk(lsp, v) {
      MetaDataFieldsSufficient(lsp, v);
    }
  }

  // ---------------------------------------------------------------------
  // Group, Project, Document
  // ---------------------------------------------------------------------

  /** `RepositoryInfo.is`: string type and url, and a string commit id when
      present. */
  lemma RepositoryInfoExactly(lsp: Lsp, v: Json)
    ensures Conforms(lsp, RepositoryInfo, v) <==> Defined(v) && Field(v, "type").Str? && Field(v, "url").Str? && OptionalString(v, "commitId")
  {
    if Defined(v) {
      assert RepositoryInfo.Keys == {"type", "url", "commitId"};
      Combinators.StringField(lsp, RepositoryInfo, v, "type");
      Combinators.StringField(lsp, RepositoryInfo, v, "url");
      Combinators.OptionalStringField(lsp, RepositoryInfo, v, "commitId");
    }
  }

  /** A group's own fields. `description` is required although the Group
      interface marks it optional. */
  predicate GroupFieldsOk(lsp: Lsp, v: Json)
  {
    && Field(v, "label") == Str("group")
    && Field(v, "uri").Str?
    && EnumIs({"takeDump", "takeDB"}, Field(v, "conflictResolution"))
    && Field(v, "name").Str?
    && Field(v, "rootUri").Str?
    && Field(v, "description").Str?
    && (HasOwn(v, "repository") ==> Conforms(lsp, RepositoryInfo, Field(v, "repository")))
  }

  lemma GroupShape()
    ensures KindFields(GroupFields, "group")
  {
  }

  lemma GroupFieldsNecessary(lsp: Lsp, v: Json)
    requires Conforms(lsp, GroupFields, v)
    ensures GroupFieldsOk(lsp, v)
  {
    Combinators.LiteralField(lsp, GroupFields, v, "label", "group");
    Combinators.StringField(lsp, GroupFields, v, "uri");
    Combinators.EnumField(lsp, GroupFields, v, "conflictResolution", {"takeDump", "takeDB"});
    Combinators.StringField(lsp, GroupFields, v, "name");
    Combinators.StringField(lsp, GroupFields, v, "rootUri");
    Combinators.StringField(lsp, GroupFields, v, "description");
    Combinators.OptionalObjectField(lsp, GroupFields, v, "repository", RepositoryInfo);
  }

  lemma GroupFieldsSufficient(lsp: Lsp, v: Json)
    requires Defined(v) && GroupFieldsOk(lsp, v)
    ensures Conforms(lsp, GroupFields, v)
  {
    forall k | k in GroupFields ensures FieldOk(lsp, GroupFields, v, k) {
      if k == "label" {
        Combinators.LiteralField(lsp, GroupFields, v, "label", "group");
      } else if k == "uri" {
        Combinators.StringField(lsp, GroupFields, v, "uri");
      } else if k == "conflictResolution" {
        Combinators.EnumField(lsp, GroupFields, v, "conflictResolution", {"takeDump", "takeDB"});
      } else if k == "name" {
        Combinators.StringField(lsp, GroupFields, v, "name");
      } else if k == "rootUri" {
        Combinators.StringField(lsp, GroupFields, v, "rootUri");
      } else if k == "description" {
        Combinators.StringField(lsp, GroupFields, v, "description");
      } else {
        Combinators.OptionalObjectField(lsp, GroupFields, v, "repository", RepositoryInfo);
      }
    }
  }

  /** `Group.is`: a vertex labelled "group" with string uri, name, root uri
      and description, a conflict resolution of "takeDump" or "takeDB",
      and repository information that passes its `is` when present. */
  lemma GroupExactly(lsp: Lsp, v: Json)
    ensures Conforms(lsp, Group, v) <==> Conforms(lsp, V, v) && GroupFieldsOk(lsp, v)
  {
    GroupShape();
    KindExactly(lsp, GroupFields, "group", v);
    if Conforms(lsp, GroupFields, v) {
      GroupFieldsNecessary(lsp, v);
    }
    if Defined(v) && GroupFieldsOk(lsp, v) {
      GroupFieldsSufficient(lsp, v);
    }
  }

  /** The descriptor turns away a group without a description, which the
      Group interface allows. */
  lemma GroupDescriptionRequired(lsp: Lsp, m: map<string, Json>)
    requires "description" !in m
    ensures !Conforms(lsp, Group, Obj(m))
  {
    GroupExactly(lsp, Obj(m));
  }

  predicate ProjectFieldsOk(v: Json)
  {
    && Field(v, "label") == Str("project")
    && Field(v, "kind").Str?
    && Field(v, "name").Str?
    && OptionalString(v, "resource")
    && OptionalString(v, "contents")
  }

  lemma ProjectShape()
    ensures KindFields(ProjectFields, "project")
  {
  }

  lemma ProjectFieldsNecessary(lsp: Lsp, v: Json)
    requires Conforms(lsp, ProjectFields, v)
    ensures ProjectFieldsOk(v)
  {
    Combinators.LiteralField(lsp, ProjectFields, v, "label", "project");
    Combinators.StringField(lsp, ProjectFields, v, "kind");
    Combinators.StringField(lsp, ProjectFields, v, "name");
    Combinators.OptionalStringField(lsp, ProjectFields, v, "resource");
    Combinators.OptionalStringField(lsp, ProjectFields, v, "contents");
  }

  lemma ProjectFieldsSufficient(lsp: Lsp, v: Json)
    requires Defined(v) && ProjectFieldsOk(v)
    ensures Conforms(lsp, ProjectFields, v)
  {
    forall k | k in ProjectFields ensures FieldOk(lsp, ProjectFields, v, k) {
      if k == "label" {
        Combinators.LiteralField(lsp, ProjectFields, v, "label", "project");
      } else if k == "kind" {
        Combinators.StringField(lsp, ProjectFields, v, "kind");
      } else if k == "name" {
        Combinators.StringField(lsp, ProjectFields, v, "name");
      } else if k == "resource" {
        Combinators.OptionalStringField(lsp, ProjectFields, v, "resource");
      } else {
        Combinators.OptionalStringField(lsp, ProjectFields, v, "contents");
      }
    }
  }

  /** `Project.is`: a vertex labelled "project" with a string kind and
      name, and a string resource and contents when present. */
  lemma ProjectExactly(lsp: Lsp, v: Json)
    ensures Conforms(lsp, Project, v) <==> Conforms(lsp, V, v) && ProjectFieldsOk(v)
  {
    ProjectShape();
    KindExactly(lsp, ProjectFields, "project", v);
    if Conforms(lsp, ProjectFields, v) {
      ProjectFieldsNecessary(lsp, v);
    }
    if Defined(v) && ProjectFieldsOk(v) {
      ProjectFieldsSufficient(lsp, v);
    }
  }

  predicate DocumentFieldsOk(v: Json)
  {
    && Field(v, "label") == Str("document")
    && Field(v, "uri").Str?
    && Field(v, "languageId").Str?
    && OptionalString(v, "contents")
  }

  lemma DocumentShape()
    ensures KindFields(DocumentFields, "document")
  {
  }

  lemma DocumentFieldsNecessary(lsp: Lsp, v: Json)
    requires Conforms(lsp, DocumentFields, v)
    ensures DocumentFieldsOk(v)
  {
    Combinators.LiteralField(lsp, DocumentFields, v, "label", "document");
    Combinators.StringField(lsp, DocumentFields, v, "uri");
    Combinators.StringField(lsp, DocumentFields, v, "languageId");
    Combinators.OptionalStringField(lsp, DocumentFields, v, "contents");
  }

  lemma DocumentFieldsSufficient(lsp: Lsp, v: Json)
    requires Defined(v) && DocumentFieldsOk(v)
    ensures Conforms(lsp, DocumentFields, v)
  {
    forall k | k in DocumentFields ensures FieldOk(lsp, DocumentFields, v, k) {
      if k == "label" {
        Combinators.LiteralField(lsp, DocumentFields, v, "label", "document");
      } else if k == "uri" {
        Combinators.StringField(lsp, DocumentFields, v, "uri");
      } else if k == "languageId" {
        Combinators.StringField(lsp, DocumentFields, v, "languageId");
      } else {
        Combinators.OptionalStringField(lsp, DocumentFields, v, "contents");
      }
    }
  }

  /** `Document.is`: a vertex labelled "document" with a string uri and
      language id, and string contents when present. */
  lemma DocumentExactly(lsp: Lsp, v: Json)
    ensures Conforms(lsp, Document, v) <==> Conforms(lsp, V, v) && DocumentFieldsOk(v)
  {
    DocumentShape();
    KindExactly(lsp, DocumentFields, "document", v);
    if Conforms(lsp, DocumentFields, v) {
      DocumentFieldsNecessary(lsp, v);
    }
    if Defined(v) && DocumentFieldsOk(v) {
      DocumentFieldsSufficient(lsp, v);
    }
  }

  // ---------------------------------------------------------------------
  // Moniker and PackageInformation
  // ---------------------------------------------------------------------

  predicate MonikerFieldsOk(v: Json)
  {
    && Field(v, "label") == Str("moniker")
    && Field(v, "scheme").Str?
    && Field(v, "identifier").Str?
    && EnumIs(UniquenessLevelValues, Field(v, "unique"))
    && (HasOwn(v, "kind") ==> EnumIs(MonikerKindValues, Field(v, "kind")))
  }

  lemma MonikerShape()
    ensures KindFields(MonikerFields, "moniker")
  {
  }

  lemma MonikerFieldsNecessary(lsp: Lsp, v: Json)
    requires Conforms(lsp, MonikerFields, v)
    ensures MonikerFieldsOk(v)
  {
    Combinators.LiteralField(lsp, MonikerFields, v, "label", "moniker");
    Combinators.StringField(lsp, MonikerFields, v, "scheme");
    Combinators.StringField(lsp, MonikerFields, v, "identifier");
    Combinators.EnumField(lsp, MonikerFields, v, "unique", UniquenessLevelValues);
    Combinators.OptionalEnumField(lsp, MonikerFields, v, "kind", MonikerKindValues);
  }

  lemma MonikerFieldsSufficient(lsp: Lsp, v: Json)
    requires Defined(v) && MonikerFieldsOk(v)
    ensures Conforms(lsp, MonikerFields, v)
  {
    forall k | k in MonikerFields ensures FieldOk(lsp, MonikerFields, v, k) {
      if k == "label" {
        Combinators.LiteralField(lsp, MonikerFields, v, "label", "moniker");
      } else if k == "scheme" {
        Combinators.StringField(lsp, MonikerFields, v, "scheme");
      } else if k == "identifier" {
        Combinators.StringField(lsp, MonikerFields, v, "identifier");
      } else if k == "unique" {
        Combinators.EnumField(lsp, MonikerFields, v, "unique", UniquenessLevelValues);
      } else {
        Combinators.OptionalEnumField(lsp, MonikerFields, v, "kind", MonikerKindValues);
      }
    }
  }

  /** `Moniker.is`: a vertex labelled "moniker" with a string scheme and
      identifier, a uniqueness level, and a moniker kind when present. */
  lemma MonikerExactly(lsp: Lsp, v: Json)
    ensures Conforms(lsp, Moniker, v) <==> Conforms(lsp, V, v) && MonikerFieldsOk(v)
  {
    MonikerShape();
    KindExactly(lsp, MonikerFields, "moniker", v);
    if Conforms(lsp, MonikerFields, v) {
      MonikerFieldsNecessary(lsp, v);
    }
    if Defined(v) && MonikerFieldsOk(v) {
      MonikerFieldsSufficient(lsp, v);
    }
  }

  /** Dropping the required `scheme` makes any object an invalid moniker. */
  lemma MonikerSchemeRequired(lsp: Lsp, m: map<string, Json>)
    ensures !Conforms(lsp, Moniker, Obj(m - {"scheme"}))
  {
    MonikerExactly(lsp, Obj(m - {"scheme"}));
  }

  /** Dropping the optional `kind` keeps a valid moniker valid. */
  lemma MonikerKindDroppable(lsp: Lsp, m: map<string, Json>)
    requires Conforms(lsp, Moniker, Obj(m))
    ensures Conforms(lsp, Moniker, Obj(m - {"kind"}))
  {
    var w := Obj(m - {"kind"});
    MonikerExactly(lsp, Obj(m));
    VExactly(lsp, Obj(m));
    assert Field(w, "id") == Field(Obj(m), "id") && Field(w, "type") == Field(Obj(m), "type");
    assert Field(w, "label") == Field(Obj(m), "label") && Field(w, "scheme") == Field(Obj(m), "scheme");
    assert Field(w, "identifier") == Field(Obj(m), "identifier") && Field(w, "unique") == Field(Obj(m), "unique");
    VExactly(lsp, w);
    MonikerExactly(lsp, w);
  }

  /** The descriptors that extend a base with narrower fields accept no more
      than the base: events and monikers are vertices, and a group event is
      an event. */
  lemma ExtensionsNarrow(lsp: Lsp, v: Json)
    ensures Conforms(lsp, Event, v) ==> Conforms(lsp, V, v)
    ensures Conforms(lsp, GroupEvent, v) ==> Conforms(lsp, Event, v)
    ensures Conforms(lsp, Moniker, v) ==> Conforms(lsp, V, v)
  {
    EventExactly(lsp, v);
    ScopedEvents(lsp, v);
    MonikerExactly(lsp, v);
  }

  predicate PackageInformationFieldsOk(lsp: Lsp, v: Json)
  {
    && Field(v, "label") == Str("packageInformation")
    && Field(v, "name").Str?
    && Field(v, "manager").Str?
    && OptionalString(v, "uri")
    && OptionalString(v, "contents")
    && OptionalString(v, "version")
    && (HasOwn(v, "repository") ==> Conforms(lsp, RepositoryInfo, Field(v, "repository")))
  }

  lemma PackageInformationShape()
    ensures KindFields(PackageInformationFields, "packageInformation")
  {
  }

  lemma PackageInformationFieldsNecessary(lsp: Lsp, v: Json)
    requires Conforms(lsp, PackageInformationFields, v)
    ensures PackageInformationFieldsOk(lsp, v)
  {
    Combinators.LiteralField(lsp, PackageInformationFields, v, "label", "packageInformation");
    Combinators.StringField(lsp, PackageInformationFields, v, "name");
    Combinators.StringField(lsp, PackageInformationFields, v, "manager");
    Combinators.OptionalStringField(lsp, PackageInformationFields, v, "uri");
    Combinators.OptionalStringField(lsp, PackageInformationFields, v, "contents");
    Combinators.OptionalStringField(lsp, PackageInformationFields, v, "version");
    Combinators.OptionalObjectField(lsp, PackageInformationFields, v, "repository", RepositoryInfo);
  }

  lemma PackageInformationFieldsSufficient(lsp: Lsp, v: Json)
    requires Defined(v) && PackageInformationFieldsOk(lsp, v)
    ensures Conforms(lsp, PackageInformationFields, v)
  {
    forall k | k in PackageInformationFields ensures FieldOk(lsp, PackageInformationFields, v, k) {
      if k == "label" {
        Combinators.LiteralField(lsp, PackageInformationFields, v, "label", "packageInformation");
      } else if k == "name" {
        Combinators.StringField(lsp, PackageInformationFields, v, "name");
      } else if k == "manager" {
        Combinators.StringField(lsp, PackageInformationFields, v, "manager");
      } else if k == "uri" {
        Combinators.OptionalStringField(lsp, PackageInformationFields, v, "uri");
      } else if k == "contents" {
        Combinators.OptionalStringField(lsp, PackageInformationFields, v, "contents");
      } else if k == "version" {
        Combinators.OptionalStringField(lsp, PackageInformationFields, v, "version");
      } else {
        Combinators.OptionalObjectField(lsp, PackageInformationFields, v, "repository", RepositoryInfo);
      }
    }
  }

  /** `PackageInformation.is`: a vertex labelled "packageInformation" with
      a string name and manager, optional string uri, contents and version,
      and repository information that passes its `is` when present. */
  lemma PackageInformationExactly(lsp: Lsp, v: Json)
    ensures Conforms(lsp, PackageInformation, v) <==> Conforms(lsp, V, v) && PackageInformationFieldsOk(lsp, v)
  {
    PackageInformationShape();
    KindExactly(lsp, PackageInformationFields, "packageInformation", v);
    if Conforms(lsp, PackageInformationFields, v) {
      PackageInformationFieldsNecessary(lsp, v);
    }
    if Defined(v) && PackageInformationFieldsOk(lsp, v) {
      PackageInformationFieldsSufficient(lsp, v);
    }
  }

  // ---------------------------------------------------------------------
  // Result vertices other than the document symbol result
  // ---------------------------------------------------------------------

  lemma ArrayResultFieldsExactly(lsp: Lsp, l: string, item: LspValidator, v: Json)
    ensures Conforms(lsp, ArrayResultFields(l, item), v) <==>
      && Defined(v)
      && Field(v, "label") == Str(l)
      && Field(v, "result").Arr?
      && forall i | 0 <= i < |Field(v, "result").items| :: lsp(item, Field(v, "result").items[i])
  {
    var f := ArrayResultFields(l, item);
    if Defined(v) {
      assert f.Keys == {"label", "result"};
      Combinators.LiteralField(lsp, f, v, "label", l);
      Combinators.ForeignItemsField(lsp, f, v, "result", item);
    }
  }

  /** `DiagnosticResult.is`, `FoldingRangeResult.is` and
      `DocumentLinkResult.is`: a vertex with the kind's label whose
      `result` is an array every item of which passes the LSP validator. */
  lemma ArrayResultExactly(lsp: Lsp, l: string, item: LspValidator, v: Json)
    requires l in VertexLabelValues
    ensures Conforms(lsp, V + ArrayResultFields(l, item), v) <==>
      && Conforms(lsp, V, v)
      && Field(v, "label") == Str(l)
      && Field(v, "result").Arr?
      && forall i | 0 <= i < |Field(v, "result").items| :: lsp(item, Field(v, "result").items[i])
  {
    assert KindFields(ArrayResultFields(l, item), l);
    KindExactly(lsp, ArrayResultFields(l, item), l, v);
    ArrayResultFieldsExactly(lsp, l, item, v);
  }

  lemma HoverResultShape()
    ensures KindFields(HoverResultFields, "hoverResult")
  {
  }

  lemma HoverResultFieldsExactly(lsp: Lsp, v: Json)
    ensures Conforms(lsp, HoverResultFields, v) <==> Defined(v) && Field(v, "label") == Str("hoverResult") && lsp(LspHover, Field(v, "result"))
  {
    if Defined(v) {
      assert HoverResultFields.Keys == {"label", "result"};
      Combinators.LiteralField(lsp, HoverResultFields, v, "label", "hoverResult");
      Combinators.ForeignField(lsp, HoverResultFields, v, "result", LspHover);
    }
  }

  /** `HoverResult.is`: a vertex labelled "hoverResult" holding an LSP
      hover. */
  lemma HoverResultExactly(lsp: Lsp, v: Json)
    ensures Conforms(lsp, HoverResult, v) <==> Conforms(lsp, V, v) && Field(v, "label") == Str("hoverResult") && lsp(LspHover, Field(v, "result"))
  {
    HoverResultShape();
    KindExactly(lsp, HoverResultFields, "hoverResult", v);
    HoverResultFieldsExactly(lsp, v);
  }
}
