/** The range tags, `RangeTag.is`, and the range vertices with and without
    a required tag. */
module Ranges {
  import opened JsonValues
  import opened Enums
  import opened Identifiers
  import opened Schema
  import opened Protocol
  import Combinators
  import PropertyFlags
  import Vertices

  // ---------------------------------------------------------------------
  // Tag descriptors
  // ---------------------------------------------------------------------

  /** What a declaration or definition tag of the given type holds. */
  predicate SymbolTagOk(lsp: Lsp, tagType: string, v: Json)
  {
    && Field(v, "type") == Str(tagType)
    && Field(v, "text").Str?
    && Field(v, "kind").Num?
    && (HasOwn(v, "deprecated") ==> Field(v, "deprecated").Bool?)
    && lsp(LspRange, Field(v, "fullRange"))
    && Vertices.OptionalString(v, "detail")
  }

  lemma SymbolTagNecessary(lsp: Lsp, tagType: string, v: Json)
    requires Conforms(lsp, SymbolTag(tagType), v)
    ensures SymbolTagOk(lsp, tagType, v)
  {
    var d := SymbolTag(tagType);
    Combinators.LiteralField(lsp, d, v, "type", tagType);
    Combinators.StringField(lsp, d, v, "text");
    Combinators.SymbolKindField(lsp, d, v, "kind");
    Combinators.OptionalBooleanField(lsp, d, v, "deprecated");
    Combinators.ForeignField(lsp, d, v, "fullRange", LspRange);
    Combinators.OptionalStringField(lsp, d, v, "detail");
  }

  lemma SymbolTagSufficient(lsp: Lsp, tagType: string, v: Json)
    requires Vertices.Defined(v) && SymbolTagOk(lsp, tagType, v)
    ensures Conforms(lsp, SymbolTag(tagType), v)
  {
    var d := SymbolTag(tagType);
    forall k | k in d ensures FieldOk(lsp, d, v, k) {
      if k == "type" {
        Combinators.LiteralField(lsp, d, v, "type", tagType);
      } else if k == "text" {
        Combinators.StringField(lsp, d, v, "text");
      } else if k == "kind" {
        Combinators.SymbolKindField(lsp, d, v, "kind");
      } else if k == "deprecated" {
        Combinators.OptionalBooleanField(lsp, d, v, "deprecated");
      } else if k == "fullRange" {
        Combinators.ForeignField(lsp, d, v, "fullRange", LspRange);
      } else {
        Combinators.OptionalStringField(lsp, d, v, "detail");
      }
    }
  }

  /** `DeclarationTag.is` and `DefinitionTag.is`: the tag's type, a string
      text, a numeric symbol kind, an LSP full range, and a boolean
      deprecated flag and string detail when present. */
  lemma SymbolTagExactly(lsp: Lsp, tagType: string, v: Json)
    ensures Conforms(lsp, SymbolTag(tagType), v) <==> Vertices.Defined(v) && SymbolTagOk(lsp, tagType, v)
  {
    if Conforms(lsp, SymbolTag(tagType), v) {
      SymbolTagNecessary(lsp, tagType, v);
    }
    if Vertices.Defined(v) && SymbolTagOk(lsp, tagType, v) {
      SymbolTagSufficient(lsp, tagType, v);
    }
  }

  /** `ReferenceTag.is` and `UnknownTag.is`: the tag's type and a string
      text. */
  lemma TextTagExactly(lsp: Lsp, tagType: string, v: Json)
    ensures Conforms(lsp, TextTag(tagType), v) <==>
      Vertices.Defined(v) && Field(v, "type") == Str(tagType) && Field(v, "text").Str?
  {
    var d := TextTag(tagType);
    if Vertices.Defined(v) {
      assert d.Keys == {"type", "text"};
      Combinators.LiteralField(lsp, d, v, "type", tagType);
      Combinators.StringField(lsp, d, v, "text");
    }
  }

  // ---------------------------------------------------------------------
  // RangeTag.is
  // ---------------------------------------------------------------------

  /** The union the `RangeTag` type names. */
  predicate IsRangeTag(lsp: Lsp, v: Json)
  {
    || Conforms(lsp, DefinitionTag, v)
    || Conforms(lsp, DeclarationTag, v)
    || Conforms(lsp, ReferenceTag, v)
    || Conforms(lsp, UnknownTag, v)
  }

  /** Every case of the switch is the tag whose type it tests. */
  lemma RangeTagCasesFixType()
    ensures Combinators.CasesFixKey("type", RangeTag.cases)
    ensures RangeTag.cases.Keys == RangeTagTypeValues
  {
  }

  /** The four cases of the switch, by the type each answers to. */
  lemma RangeTagCaseList()
    ensures "definition" in RangeTag.cases && RangeTag.cases["definition"] == DefinitionTag
    ensures "declaration" in RangeTag.cases && RangeTag.cases["declaration"] == DeclarationTag
    ensures "reference" in RangeTag.cases && RangeTag.cases["reference"] == ReferenceTag
    ensures "unknown" in RangeTag.cases && RangeTag.cases["unknown"] == UnknownTag
  {
  }

  lemma RangeTagNecessary(lsp: Lsp, e: Description, v: Json)
    requires Validate(lsp, e, RangeTag, v)
    ensures IsRangeTag(lsp, v)
  {
    RangeTagCasesFixType();
    RangeTagCaseList();
    Combinators.DispatchIsUnion(lsp, e, "type", RangeTagTypeValues, RangeTag.cases, v);
    var s :| s in RangeTagTypeValues && s in RangeTag.cases && Conforms(lsp, RangeTag.cases[s], v);
    RangeTagTypeCases(s);
  }

  lemma RangeTagSufficient(lsp: Lsp, e: Description, v: Json)
    requires IsRangeTag(lsp, v)
    ensures Validate(lsp, e, RangeTag, v)
  {
    RangeTagCasesFixType();
    RangeTagCaseList();
    Combinators.DispatchIsUnion(lsp, e, "type", RangeTagTypeValues, RangeTag.cases, v);
    var s :=
      if Conforms(lsp, DefinitionTag, v) then "definition"
      else if Conforms(lsp, DeclarationTag, v) then "declaration"
      else if Conforms(lsp, ReferenceTag, v) then "reference"
      else "unknown";
    assert s in RangeTagTypeValues && s in RangeTag.cases && Conforms(lsp, RangeTag.cases[s], v);
  }

  /** `RangeTag.is` accepts exactly the four tags: checking `type` first
      and switching on it loses nothing and adds nothing. */
  lemma RangeTagExactly(lsp: Lsp, e: Description, v: Json)
    ensures Validate(lsp, e, RangeTag, v) <==> IsRangeTag(lsp, v)
  {
    if Validate(lsp, e, RangeTag, v) {
      RangeTagNecessary(lsp, e, v);
    }
    if IsRangeTag(lsp, v) {
      RangeTagSufficient(lsp, e, v);
    }
  }

  /** The switch of `RangeTag.is`: a `type` outside the four tag types
      fails, and each tag type hands the value to its own tag's `is`. */
  lemma RangeTagSwitch(lsp: Lsp, e: Description, v: Json)
    ensures !EnumIs(RangeTagTypeValues, Field(v, "type")) ==> !Validate(lsp, e, RangeTag, v)
    ensures Field(v, "type") == Str("definition") ==> (Validate(lsp, e, RangeTag, v) <==> Conforms(lsp, DefinitionTag, v))
    ensures Field(v, "type") == Str("declaration") ==> (Validate(lsp, e, RangeTag, v) <==> Conforms(lsp, DeclarationTag, v))
    ensures Field(v, "type") == Str("reference") ==> (Validate(lsp, e, RangeTag, v) <==> Conforms(lsp, ReferenceTag, v))
    ensures Field(v, "type") == Str("unknown") ==> (Validate(lsp, e, RangeTag, v) <==> Conforms(lsp, UnknownTag, v))
  {
    RangeTagCaseList();
  }

  /** A value is at most one kind of tag: each fixes `type` to its own
      name. */
  lemma TagsDisjoint(lsp: Lsp, v: Json, s: string, t: string)
    requires s in RangeTag.cases && t in RangeTag.cases && s != t
    ensures !(Conforms(lsp, RangeTag.cases[s], v) && Conforms(lsp, RangeTag.cases[t], v))
  {
    RangeTagCasesFixType();
    if Conforms(lsp, RangeTag.cases[s], v) && Conforms(lsp, RangeTag.cases[t], v) {
      Combinators.LiteralFieldFixed(lsp, RangeTag.cases[s], "type", s, v);
      Combinators.LiteralFieldFixed(lsp, RangeTag.cases[t], "type", t, v);
    }
  }

  // ---------------------------------------------------------------------
  // Range
  // ---------------------------------------------------------------------

  predicate RangeFieldsOk(lsp: Lsp, v: Json)
  {
    && Field(v, "label") == Str("range")
    && (HasOwn(v, "tag") ==> IsRangeTag(lsp, Field(v, "tag")))
    && lsp(LspPosition, Field(v, "start"))
    && lsp(LspPosition, Field(v, "end"))
  }

  lemma RangeShape()
    ensures Vertices.KindFields(RangeFields, "range")
  {
  }

  lemma RangeFieldsNecessary(lsp: Lsp, v: Json)
    requires Conforms(lsp, RangeFields, v)
    ensures RangeFieldsOk(lsp, v)
  {
    var d := RangeFields;
    Combinators.LiteralField(lsp, d, v, "label", "range");
    Combinators.OptionalField(lsp, d, v, "tag", RangeTag);
    RangeTagExactly(lsp, d, Field(v, "tag"));
    Combinators.ForeignField(lsp, d, v, "start", LspPosition);
    Combinators.ForeignField(lsp, d, v, "end", LspPosition);
  }

  lemma RangeFieldsSufficient(lsp: Lsp, v: Json)
    requires Vertices.Defined(v) && RangeFieldsOk(lsp, v)
    ensures Conforms(lsp, RangeFields, v)
  {
    var d := RangeFields;
    forall k | k in d ensures FieldOk(lsp, d, v, k) {
      if k == "label" {
        Combinators.LiteralField(lsp, d, v, "label", "range");
      } else if k == "tag" {
        Combinators.OptionalField(lsp, d, v, "tag", RangeTag);
        RangeTagExactly(lsp, d, Field(v, "tag"));
      } else if k == "start" {
        Combinators.ForeignField(lsp, d, v, "start", LspPosition);
      } else {
        Combinators.ForeignField(lsp, d, v, "end", LspPosition);
      }
    }
  }

  /** `Range.is`: a vertex labelled "range" with LSP start and end
      positions and, when `tag` is an own key, one of the four tags. */
  lemma RangeExactly(lsp: Lsp, v: Json)
    ensures Conforms(lsp, Range, v) <==> Conforms(lsp, V, v) && RangeFieldsOk(lsp, v)
  {
    RangeShape();
    Vertices.KindExactly(lsp, RangeFields, "range", v);
    if Conforms(lsp, RangeFields, v) {
      RangeFieldsNecessary(lsp, v);
    }
    if Vertices.Defined(v) && RangeFieldsOk(lsp, v) {
      RangeFieldsSufficient(lsp, v);
    }
  }

  // ---------------------------------------------------------------------
  // Ranges with a required tag
  // ---------------------------------------------------------------------

  lemma RangeNoSelf()
    ensures Combinators.NoSelf(Range)
  {
    RangeShape();
    Vertices.VNoSelf();
    Combinators.NoSelfMerge(V, RangeFields);
  }

  /** Range checks `tag` with `RangeTag.is`, optionally. */
  lemma RangeTagProperty()
    ensures "tag" in Range && Range["tag"] == Property(RangeTag, PropertyFlags.Optional)
  {
  }

  /** Each tag is the case of `RangeTag` for its own type. */
  lemma TagsAreCases()
    ensures Combinators.CaseOf(DefinitionTag, RangeTag)
    ensures Combinators.CaseOf(DeclarationTag, RangeTag)
    ensures Combinators.CaseOf(ReferenceTag, RangeTag)
    ensures Combinators.CaseOf(UnknownTag, RangeTag)
  {
    RangeTagCaseList();
  }

  /** A tagged range is a range whose tag is present and passes the tag's
      own `is`. */
  lemma TaggedRangeExactly(lsp: Lsp, tag: Description, v: Json)
    requires Combinators.CaseOf(tag, RangeTag)
    ensures Conforms(lsp, TaggedRange(tag), v) <==> Conforms(lsp, Range, v) && Conforms(lsp, tag, Field(v, "tag"))
  {
    RangeNoSelf();
    RangeTagProperty();
    Combinators.CaseExtensionExactly(lsp, Range, "tag", tag, v);
  }

  /** `DefinitionRange.is`, and `DeclarationRange.is` and
      `ReferenceRange.is` with the tag check the interfaces declare. */
  lemma TaggedRanges(lsp: Lsp, v: Json)
    ensures Conforms(lsp, DefinitionRange, v) <==> Conforms(lsp, Range, v) && Conforms(lsp, DefinitionTag, Field(v, "tag"))
    ensures Conforms(lsp, DeclarationRange, v) <==> Conforms(lsp, Range, v) && Conforms(lsp, DeclarationTag, Field(v, "tag"))
    ensures Conforms(lsp, ReferenceRange, v) <==> Conforms(lsp, Range, v) && Conforms(lsp, ReferenceTag, Field(v, "tag"))
  {
    TagsAreCases();
    TaggedRangeExactly(lsp, DefinitionTag, v);
    TaggedRangeExactly(lsp, DeclarationTag, v);
    TaggedRangeExactly(lsp, ReferenceTag, v);
  }

  // ---------------------------------------------------------------------
  // DeclarationRange and ReferenceRange as written
  // ---------------------------------------------------------------------

  /** The keys of the range descriptors as `Object.keys` lists them:
      `Object.assign` keeps an overridden key where it first appeared, so
      `label` stays after V's `id` and `type`, and `tag` after `label`. */
  const RangeKeyOrder: seq<string> := ["id", "type", "label", "tag", "start", "end"]

  /** The fields the loop checks before `tag`. */
  predicate RangeHeadOk(v: Json)
  {
    && IdIs(Field(v, "id"))
    && Field(v, "type") == Str("vertex")
    && Field(v, "label") == Str("range")
  }

  lemma RangeKeys()
    ensures Range.Keys == {"id", "type", "label", "tag", "start", "end"}
  {
    Vertices.VEntries();
    assert RangeFields.Keys == {"label", "tag", "start", "end"};
  }

  lemma RangeHeadEntries()
    ensures "id" in Range && Range["id"] == IdProperty(PropertyFlags.None)
    ensures "type" in Range && Range["type"] == Req(Equals("vertex"))
    ensures "label" in Range && Range["label"] == Req(Equals("range"))
  {
    RangeShape();
    Vertices.VEntries();
    Vertices.KindEntries(RangeFields, "range");
  }

  /** The loop over a description with the keys and head of `Range` and an
      unassigned `tag` validator. */
  lemma {:induction false} UnassignedTagThrows(lsp: Lsp, base: Description, v: Json)
    requires base.Keys == {"id", "type", "label", "tag", "start", "end"}
    requires base["id"] == IdProperty(PropertyFlags.None)
    requires base["type"] == Req(Equals("vertex")) && base["label"] == Req(Equals("range"))
    ensures ValidateInOrder(lsp, base + map["tag" := Req(Unassigned)], RangeKeyOrder, v) ==
      if Vertices.Defined(v) && RangeHeadOk(v) then Threw else Rejected
  {
    var d := base + map["tag" := Req(Unassigned)];
    var o := RangeKeyOrder;
    assert o[0] == "id" && o[1] == "type" && o[2] == "label" && o[3] == "tag";
    assert forall i | 0 <= i < |o| :: o[i] in d;
    if v != Undefined && v != Null {
      Combinators.ThrowsAfterThree(lsp, d, o, v);
      Combinators.IdField(lsp, d, v, "id");
      Combinators.LiteralField(lsp, d, v, "type", "vertex");
      Combinators.LiteralField(lsp, d, v, "label", "range");
    }
  }

  /** `DeclarationRange.is` and `ReferenceRange.is` as written throw a
      TypeError on every value whose id, type and label pass, when the loop
      reaches the unassigned tag validator, and return false on every other
      value: no value is ever accepted. */
  lemma AsWrittenRangesThrow(lsp: Lsp, v: Json)
    ensures ValidateInOrder(lsp, DeclarationRangeAsWritten, RangeKeyOrder, v) ==
      if Vertices.Defined(v) && RangeHeadOk(v) then Threw else Rejected
    ensures ValidateInOrder(lsp, ReferenceRangeAsWritten, RangeKeyOrder, v) ==
      if Vertices.Defined(v) && RangeHeadOk(v) then Threw else Rejected
  {
    RangeKeys();
    RangeHeadEntries();
    UnassignedTagThrows(lsp, Range, v);
  }

  /** The same in the model's boolean reading, where the throw is false. */
  lemma AsWrittenRangesRejectAll(lsp: Lsp, v: Json)
    ensures !Conforms(lsp, DeclarationRangeAsWritten, v)
    ensures !Conforms(lsp, ReferenceRangeAsWritten, v)
  {
    Combinators.UnassignedFieldRejectsAll(lsp, Range + map["tag" := Req(Unassigned)], "tag", v);
  }

  lemma RangeOrderFacts()
    ensures Combinators.ListsKeys(Range, RangeKeyOrder)
    ensures Combinators.NoUnassigned(Range) && "tag" in Range
  {
    RangeKeys();
    RangeNoSelf();
    Combinators.NoSelfAssigned(Range);
  }

  /** With the tag checks the interfaces declare, the loop never throws,
      and the key order does not change the verdict. */
  lemma CorrectedRangeInOrder(lsp: Lsp, tag: Description, v: Json)
    ensures ValidateInOrder(lsp, TaggedRange(tag), RangeKeyOrder, v) != Threw
    ensures ValidateInOrder(lsp, TaggedRange(tag), RangeKeyOrder, v) == Accepted <==> Conforms(lsp, TaggedRange(tag), v)
  {
    RangeOrderFacts();
    Combinators.ExtendedInOrder(lsp, Range, "tag", Req(Object(tag)), RangeKeyOrder, v);
  }

  /** A declaration tag, as an emitter writes one. */
  function SampleDeclarationTag(fullRange: Json): Json
  {
    Obj(map[
      "type" := Str("declaration"),
      "text" := Str("x"),
      "kind" := Num(12.0),
      "fullRange" := fullRange
    ])
  }

  /** A range vertex with a declaration tag, as an emitter writes one. */
  function SampleDeclarationRange(start: Json, end: Json, fullRange: Json): Json
  {
    Obj(map[
      "id" := Str("r"),
      "type" := Str("vertex"),
      "label" := Str("range"),
      "start" := start,
      "end" := end,
      "tag" := SampleDeclarationTag(fullRange)
    ])
  }

  lemma SampleTagAccepted(lsp: Lsp, fullRange: Json)
    requires lsp(LspRange, fullRange)
    ensures Conforms(lsp, DeclarationTag, SampleDeclarationTag(fullRange))
  {
    var t := SampleDeclarationTag(fullRange);
    assert Field(t, "type") == Str("declaration") && Field(t, "text") == Str("x") && Field(t, "kind") == Num(12.0);
    assert !HasOwn(t, "deprecated") && !HasOwn(t, "detail") && Field(t, "fullRange") == fullRange;
    SymbolTagSufficient(lsp, "declaration", t);
  }

  lemma SampleIsVertex(lsp: Lsp, start: Json, end: Json, fullRange: Json)
    ensures Conforms(lsp, V, SampleDeclarationRange(start, end, fullRange))
  {
    var w := SampleDeclarationRange(start, end, fullRange);
    assert Field(w, "id") == Str("r") && Field(w, "type") == Str("vertex") && Field(w, "label") == Str("range");
    assert "range" in VertexLabelValues;
    Vertices.VExactly(lsp, w);
  }

  lemma SampleRangeAccepted(lsp: Lsp, start: Json, end: Json, fullRange: Json)
    requires lsp(LspPosition, start) && lsp(LspPosition, end) && lsp(LspRange, fullRange)
    ensures Conforms(lsp, Range, SampleDeclarationRange(start, end, fullRange))
  {
    var w := SampleDeclarationRange(start, end, fullRange);
    SampleTagAccepted(lsp, fullRange);
    SampleIsVertex(lsp, start, end, fullRange);
    assert RangeFieldsOk(lsp, w);
    RangeExactly(lsp, w);
  }

  lemma SampleHead(start: Json, end: Json, fullRange: Json)
    ensures Vertices.Defined(SampleDeclarationRange(start, end, fullRange))
    ensures RangeHeadOk(SampleDeclarationRange(start, end, fullRange))
  {
    var w := SampleDeclarationRange(start, end, fullRange);
    assert Field(w, "id") == Str("r") && Field(w, "type") == Str("vertex") && Field(w, "label") == Str("range");
  }

  /** The witness for the finding on `DeclarationRange`: an ordinary
      declaration range that the corrected check accepts and on which the
      check as written throws. */
  lemma DeclarationRangeAsWrittenThrowsOnSample(lsp: Lsp, start: Json, end: Json, fullRange: Json)
    requires lsp(LspPosition, start) && lsp(LspPosition, end) && lsp(LspRange, fullRange)
    ensures Conforms(lsp, DeclarationRange, SampleDeclarationRange(start, end, fullRange))
    ensures ValidateInOrder(lsp, DeclarationRangeAsWritten, RangeKeyOrder, SampleDeclarationRange(start, end, fullRange)) == Threw
  {
    var w := SampleDeclarationRange(start, end, fullRange);
    SampleTagAccepted(lsp, fullRange);
    SampleRangeAccepted(lsp, start, end, fullRange);
    TaggedRanges(lsp, w);
    SampleHead(start, end, fullRange);
    AsWrittenRangesThrow(lsp, w);
  }
}
