/** Document symbols: `RangeBasedDocumentSymbol`, whose `children` are
    checked by its own `is`, and the `DocumentSymbolResult` vertex. */
module Symbols {
  import opened JsonValues
  import opened Enums
  import opened Identifiers
  import opened Schema
  import opened Protocol
  import Combinators
  import Vertices

  // ---------------------------------------------------------------------
  // RangeBasedDocumentSymbol
  // ---------------------------------------------------------------------

  /** What `RangeBasedDocumentSymbol.is` asks of one level of a value. */
  predicate SymbolOk(lsp: Lsp, v: Json)
  {
    && Vertices.Defined(v)
    && IdIs(Field(v, "id"))
    && (HasOwn(v, "children") ==>
          && Field(v, "children").Arr?
          && forall i | 0 <= i < |Field(v, "children").items| ::
               Conforms(lsp, RangeBasedDocumentSymbol, Field(v, "children").items[i]))
  }

  /** `RangeBasedDocumentSymbol.is`: an id, and when `children` is an own
      key, an array each of whose items is again a range based document
      symbol. */
  lemma SymbolExactly(lsp: Lsp, v: Json)
    ensures Conforms(lsp, RangeBasedDocumentSymbol, v) <==> SymbolOk(lsp, v)
  {
    var d := RangeBasedDocumentSymbol;
    if Vertices.Defined(v) {
      assert d.Keys == {"id", "children"};
      Combinators.IdField(lsp, d, v, "id");
      Combinators.OptionalField(lsp, d, v, "children", ArrayOf(Self));
      var x := Field(v, "children");
      if x.Arr? {
        forall i | 0 <= i < |x.items|
          ensures Validate(lsp, d, Self, x.items[i]) == Conforms(lsp, d, x.items[i])
        {
        }
      }
    }
  }

  /** A symbol tree as an emitter holds it: an id and, for a `Node`, the
      list written out as `children`. */
  datatype SymbolTree =
    | Leaf(id: Json)
    | Node(id: Json, children: seq<SymbolTree>)

  /** The object an emitter writes for a tree. */
  function ToJson(t: SymbolTree): Json
    decreases t
  {
    match t
    case Leaf(id) => Obj(map["id" := id])
    case Node(id, cs) =>
      Obj(map["id" := id, "children" := Arr(seq(|cs|, i requires 0 <= i < |cs| => ToJson(cs[i])))])
  }

  /** Every id in the tree is a valid `Id`. */
  predicate IdsValid(t: SymbolTree)
    decreases t
  {
    && IdIs(t.id)
    && (t.Node? ==> forall i | 0 <= i < |t.children| :: IdsValid(t.children[i]))
  }

  /** A written tree passes `RangeBasedDocumentSymbol.is` exactly when every
      id in it, at any depth, is valid. */
  lemma {:induction false} TreeConforms(lsp: Lsp, t: SymbolTree)
    ensures Conforms(lsp, RangeBasedDocumentSymbol, ToJson(t)) <==> IdsValid(t)
    decreases t
  {
    var v := ToJson(t);
    SymbolExactly(lsp, v);
    assert Field(v, "id") == t.id;
    match t
    case Leaf(_) =>
      assert !HasOwn(v, "children");
    case Node(_, cs) =>
      var items := Field(v, "children").items;
      assert |items| == |cs|;
      forall i | 0 <= i < |cs|
        ensures Conforms(lsp, RangeBasedDocumentSymbol, items[i]) <==> IdsValid(cs[i])
      {
        assert items[i] == ToJson(cs[i]);
        TreeConforms(lsp, cs[i]);
      }
  }

  // ---------------------------------------------------------------------
  // DocumentSymbolResult
  // ---------------------------------------------------------------------

  /** The check of `DocumentSymbolResult.result`. */
  const ResultCheck: Check := PickByFirst("id", Object(RangeBasedDocumentSymbol), Foreign(LspDocumentSymbol))

  /** Every item is a range based document symbol. */
  predicate AllRangeBased(lsp: Lsp, items: seq<Json>)
  {
    forall i | 0 <= i < |items| :: Conforms(lsp, RangeBasedDocumentSymbol, items[i])
  }

  /** Every item is an LSP document symbol. */
  predicate AllLspSymbols(lsp: Lsp, items: seq<Json>)
  {
    forall i | 0 <= i < |items| :: lsp(LspDocumentSymbol, items[i])
  }

  /** What `result` accepts: an array that is empty, or whose defined first
      item picks the check for all items — range based symbols when it has
      an `id`, LSP document symbols otherwise. */
  predicate SymbolListOk(lsp: Lsp, x: Json)
  {
    && x.Arr?
    && (|x.items| > 0 ==>
          && Vertices.Defined(x.items[0])
          && (Field(x.items[0], "id") != Undefined ==> AllRangeBased(lsp, x.items))
          && (Field(x.items[0], "id") == Undefined ==> AllLspSymbols(lsp, x.items)))
  }

  lemma ResultCheckExactly(lsp: Lsp, e: Description, x: Json)
    ensures Validate(lsp, e, ResultCheck, x) <==> SymbolListOk(lsp, x)
  {
    if x.Arr? && |x.items| > 0 && Vertices.Defined(x.items[0]) {
      Combinators.PickByFirstExactly(lsp, e, "id", Object(RangeBasedDocumentSymbol), Foreign(LspDocumentSymbol), x.items);
    }
  }

  /** An accepted list is homogeneous: all range based symbols or all LSP
      document symbols. */
  lemma AcceptedListHomogeneous(lsp: Lsp, x: Json)
    requires SymbolListOk(lsp, x)
    ensures AllRangeBased(lsp, x.items) || AllLspSymbols(lsp, x.items)
  {
  }

  /** Any list of range based symbols is accepted: the first one's id is
      defined, so every item is checked as one. */
  lemma RangeBasedListAccepted(lsp: Lsp, items: seq<Json>)
    requires AllRangeBased(lsp, items)
    ensures SymbolListOk(lsp, Arr(items))
  {
    if |items| > 0 {
      SymbolExactly(lsp, items[0]);
    }
  }

  /** A list of LSP document symbols is accepted when its first item is an
      object without an `id`. */
  lemma LspListAccepted(lsp: Lsp, items: seq<Json>)
    requires AllLspSymbols(lsp, items)
    requires |items| > 0 ==> Vertices.Defined(items[0]) && Field(items[0], "id") == Undefined
    ensures SymbolListOk(lsp, Arr(items))
  {
  }

  /** A list led by a range based symbol rejects any later item that is not
      one, even a valid LSP document symbol. */
  lemma MixedListRejected(lsp: Lsp, items: seq<Json>, j: nat)
    requires 0 < j < |items|
    requires Conforms(lsp, RangeBasedDocumentSymbol, items[0])
    requires !Conforms(lsp, RangeBasedDocumentSymbol, items[j])
    ensures !SymbolListOk(lsp, Arr(items))
  {
    SymbolExactly(lsp, items[0]);
  }

  lemma DocumentSymbolResultShape()
    ensures Vertices.KindFields(DocumentSymbolResultFields, "documentSymbolResult")
  {
    assert Combinators.SelfFree(Foreign(LspDocumentSymbol));
    assert Combinators.SelfFree(ResultCheck);
    assert DocumentSymbolResultFields.Keys == {"label", "result"};
  }

  lemma DocumentSymbolResultFieldsExactly(lsp: Lsp, v: Json)
    ensures Conforms(lsp, DocumentSymbolResultFields, v) <==>
      Vertices.Defined(v) && Field(v, "label") == Str("documentSymbolResult") && SymbolListOk(lsp, Field(v, "result"))
  {
    var d := DocumentSymbolResultFields;
    if Vertices.Defined(v) {
      assert d.Keys == {"label", "result"};
      Combinators.LiteralField(lsp, d, v, "label", "documentSymbolResult");
      Combinators.RequiredField(lsp, d, v, "result", ResultCheck);
      ResultCheckExactly(lsp, d, Field(v, "result"));
    }
  }

  /** `DocumentSymbolResult.is`: a vertex labelled "documentSymbolResult"
      whose `result` is an accepted symbol list. */
  lemma DocumentSymbolResultExactly(lsp: Lsp, v: Json)
    ensures Conforms(lsp, DocumentSymbolResult, v) <==>
      Conforms(lsp, V, v) && Field(v, "label") == Str("documentSymbolResult") && SymbolListOk(lsp, Field(v, "result"))
  {
    DocumentSymbolResultShape();
    Vertices.KindExactly(lsp, DocumentSymbolResultFields, "documentSymbolResult", v);
    DocumentSymbolResultFieldsExactly(lsp, v);
  }
}
