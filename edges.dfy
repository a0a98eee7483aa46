/** The 1:1 edges: the `E11` descriptor, the edge kinds that extend it with
    a fixed label, and `Edge.is11` / `Edge.is1N`. */
module Edges {
  import opened JsonValues
  import opened Enums
  import opened Identifiers
  import opened Schema
  import opened Protocol
  import Combinators
  import PropertyFlags
  import Vertices

  // ---------------------------------------------------------------------
  // E11
  // ---------------------------------------------------------------------

  /** What the `E11` descriptor asks: an id, type "edge", an edge label and
      the ids of both ends. The brand `_` is never looked at. */
  predicate E11Ok(v: Json)
  {
    && Vertices.Defined(v)
    && IdIs(Field(v, "id"))
    && Field(v, "type") == Str("edge")
    && EnumIs(EdgeLabelValues, Field(v, "label"))
    && IdIs(Field(v, "outV"))
    && IdIs(Field(v, "inV"))
  }

  /** The brand accepts whatever is there. */
  lemma BrandField(lsp: Lsp, v: Json)
    requires Vertices.Defined(v)
    ensures FieldOk(lsp, E11, v, "_")
  {
    Combinators.OptionalField(lsp, E11, v, "_", Anything);
  }

  lemma E11Shape()
    ensures E11["label"] == StringEnumProperty(EdgeLabelValues, PropertyFlags.None)
    ensures Combinators.NoSelf(E11)
  {
  }

  lemma E11Necessary(lsp: Lsp, v: Json)
    requires Conforms(lsp, E11, v)
    ensures E11Ok(v)
  {
    E11Shape();
    Combinators.IdField(lsp, E11, v, "id");
    Combinators.LiteralField(lsp, E11, v, "type", "edge");
    Combinators.EnumField(lsp, E11, v, "label", EdgeLabelValues);
    Combinators.IdField(lsp, E11, v, "outV");
    Combinators.IdField(lsp, E11, v, "inV");
  }

  lemma E11Sufficient(lsp: Lsp, v: Json)
    requires E11Ok(v)
    ensures Conforms(lsp, E11, v)
  {
    E11Shape();
    forall k | k in E11 ensures FieldOk(lsp, E11, v, k) {
      if k == "_" {
        BrandField(lsp, v);
      } else if k == "id" {
        Combinators.IdField(lsp, E11, v, "id");
      } else if k == "type" {
        Combinators.LiteralField(lsp, E11, v, "type", "edge");
      } else if k == "label" {
        Combinators.EnumField(lsp, E11, v, "label", EdgeLabelValues);
      } else if k == "outV" {
        Combinators.IdField(lsp, E11, v, "outV");
      } else {
        Combinators.IdField(lsp, E11, v, "inV");
      }
    }
  }

  /** `E11.descriptor.validate`. */
  lemma E11Exactly(lsp: Lsp, v: Json)
    ensures Conforms(lsp, E11, v) <==> E11Ok(v)
  {
    if Conforms(lsp, E11, v) {
      E11Necessary(lsp, v);
    }
    if E11Ok(v) {
      E11Sufficient(lsp, v);
    }
  }

  /** The brand plays no part: setting `_` to anything changes nothing. */
  lemma BrandIgnored(lsp: Lsp, m: map<string, Json>, x: Json)
    ensures Conforms(lsp, E11, Obj(m["_" := x])) == Conforms(lsp, E11, Obj(m))
  {
    E11Exactly(lsp, Obj(m["_" := x]));
    E11Exactly(lsp, Obj(m));
  }

  /** Every 1:1 edge is an element. */
  lemma E11IsElement(lsp: Lsp, v: Json)
    requires Conforms(lsp, E11, v)
    ensures Conforms(lsp, Element, v)
  {
    E11Exactly(lsp, v);
    Vertices.ElementExactly(lsp, v);
  }

  /** No value is both a vertex and a 1:1 edge: `type` tells them apart. */
  lemma VertexEdgeDisjoint(lsp: Lsp, v: Json)
    ensures !(Conforms(lsp, V, v) && Conforms(lsp, E11, v))
  {
    E11Exactly(lsp, v);
    Vertices.VExactly(lsp, v);
  }

  /** What passes the `E11` descriptor passes `Edge.is11`: its `inV` is an
      id, so it is defined. */
  lemma E11IsIs11(lsp: Lsp, v: Json)
    requires Conforms(lsp, E11, v)
    ensures Is11(v)
  {
    E11Exactly(lsp, v);
  }

  /** `Edge.is11` and `Edge.is1N` look at different fields: an object with
      an array `inVs` and no `inV` is 1:N and not 1:1, and one with an `inV`
      and no `inVs` the other way round. */
  lemma Is11AndIs1NApart(m: map<string, Json>)
    ensures "inV" !in m && "inVs" in m && m["inVs"].Arr? ==> Is1N(Obj(m)) && !Is11(Obj(m))
    ensures "inV" in m && m["inV"] != Undefined && "inVs" !in m ==> Is11(Obj(m)) && !Is1N(Obj(m))
  {
  }

  // ---------------------------------------------------------------------
  // Edge kinds
  // ---------------------------------------------------------------------

  /** An edge kind overrides the label with its own. */
  lemma EdgeKindRefines(l: string)
    requires l in EdgeLabelValues
    ensures Combinators.Refines(E11, EdgeLabelFields(l))
    ensures Combinators.NoSelf(EdgeLabelFields(l))
  {
    E11Shape();
    assert Combinators.PropertyNarrows(EdgeLabelFields(l)["label"], E11["label"]);
  }

  /** An edge kind accepts exactly the 1:1 edges carrying its label. */
  lemma EdgeKindExactly(lsp: Lsp, l: string, v: Json)
    requires l in EdgeLabelValues
    ensures Conforms(lsp, E11 + EdgeLabelFields(l), v) <==> E11Ok(v) && Field(v, "label") == Str(l)
  {
    EdgeKindRefines(l);
    Combinators.ExtensionExactly(lsp, E11, EdgeLabelFields(l), v);
    E11Exactly(lsp, v);
    if Vertices.Defined(v) {
      assert EdgeLabelFields(l).Keys == {"label"};
      Combinators.LiteralField(lsp, EdgeLabelFields(l), v, "label", l);
    }
  }

  /** Two edge kinds with different labels accept disjoint sets. */
  lemma EdgeKindsDisjoint(lsp: Lsp, l1: string, l2: string, v: Json)
    requires l1 in EdgeLabelValues && l2 in EdgeLabelValues && l1 != l2
    ensures !(Conforms(lsp, E11 + EdgeLabelFields(l1), v) && Conforms(lsp, E11 + EdgeLabelFields(l2), v))
  {
    EdgeKindExactly(lsp, l1, v);
    EdgeKindExactly(lsp, l2, v);
  }

  /** `attach.is`, `packageInformation.is` and `belongsTo.is`. */
  lemma StructureEdges(lsp: Lsp, v: Json)
    ensures Conforms(lsp, attach, v) <==> E11Ok(v) && Field(v, "label") == Str("attach")
    ensures Conforms(lsp, packageInformation, v) <==> E11Ok(v) && Field(v, "label") == Str("packageInformation")
    ensures Conforms(lsp, belongsTo, v) <==> E11Ok(v) && Field(v, "label") == Str("belongsTo")
  {
    EdgeKindExactly(lsp, "attach", v);
    EdgeKindExactly(lsp, "packageInformation", v);
    EdgeKindExactly(lsp, "belongsTo", v);
  }

  /** The four textDocument 1:1 edges with a runtime descriptor. */
  lemma DocumentEdges(lsp: Lsp, v: Json)
    ensures Conforms(lsp, textDocument_documentSymbol, v) <==> E11Ok(v) && Field(v, "label") == Str("textDocument/documentSymbol")
    ensures Conforms(lsp, textDocument_foldingRange, v) <==> E11Ok(v) && Field(v, "label") == Str("textDocument/foldingRange")
    ensures Conforms(lsp, textDocument_documentLink, v) <==> E11Ok(v) && Field(v, "label") == Str("textDocument/documentLink")
    ensures Conforms(lsp, textDocument_diagnostic, v) <==> E11Ok(v) && Field(v, "label") == Str("textDocument/diagnostic")
  {
    EdgeKindExactly(lsp, "textDocument/documentSymbol", v);
    EdgeKindExactly(lsp, "textDocument/foldingRange", v);
    EdgeKindExactly(lsp, "textDocument/documentLink", v);
    EdgeKindExactly(lsp, "textDocument/diagnostic", v);
  }
}
