/** Properties of the validator combinators: `Property.validate`,
    `ObjectDescriptor.validate`, descriptor extension, narrowing on a
    discriminant, arrays and enums. */
module Combinators {
  import opened JsonValues
  import opened Enums
  import opened Identifiers
  import opened Schema
  import PropertyFlags

  // ---------------------------------------------------------------------
  // Property.validate
  // ---------------------------------------------------------------------

  /** Adding flags never makes a property reject a value it accepted. */
  lemma FlagsOnlyWiden(lsp: Lsp, e: Description, c: Check, f: Flags, g: Flags, v: Json)
    requires PropertyValid(lsp, e, Property(c, f), v)
    ensures PropertyValid(lsp, e, Property(c, f | g), v)
  {
    PropertyFlags.UnionTests(f, g);
  }

  /** Without the undefined and null bits a property is exactly its
      validator. */
  lemma NoEscapeWithoutFlags(lsp: Lsp, e: Description, c: Check, v: Json)
    ensures PropertyValid(lsp, e, Property(c, PropertyFlags.None), v) == Validate(lsp, e, c, v)
    ensures PropertyValid(lsp, e, Property(c, PropertyFlags.Optional), v) == Validate(lsp, e, c, v)
  {
    PropertyFlags.NamedFlags();
  }

  // ---------------------------------------------------------------------
  // ObjectDescriptor.validate
  // ---------------------------------------------------------------------

  /** Keys the description does not name are ignored. */
  lemma UndescribedKeyIgnored(lsp: Lsp, desc: Description, m: map<string, Json>, k: string, x: Json)
    requires k !in desc
    ensures Conforms(lsp, desc, Obj(m[k := x])) == Conforms(lsp, desc, Obj(m))
  {
    forall j | j in desc
      ensures FieldOk(lsp, desc, Obj(m[k := x]), j) == FieldOk(lsp, desc, Obj(m), j)
    {
      assert j != k;
    }
  }

  /** Removing a required field whose property rejects undefined makes the
      object invalid. */
  lemma RequiredFieldNeeded(lsp: Lsp, desc: Description, m: map<string, Json>, k: string)
    requires k in desc && !PropertyFlags.IsOptional(desc[k].flags)
    requires !PropertyValid(lsp, desc, desc[k], Undefined)
    ensures !Conforms(lsp, desc, Obj(m - {k}))
  {
    assert !FieldOk(lsp, desc, Obj(m - {k}), k);
  }

  /** A key that is present and holds undefined is validated, even when the
      field is optional. */
  lemma PresentUndefinedChecked(lsp: Lsp, desc: Description, m: map<string, Json>, k: string)
    requires k in desc && !PropertyValid(lsp, desc, desc[k], Undefined)
    ensures !Conforms(lsp, desc, Obj(m[k := Undefined]))
  {
    assert !FieldOk(lsp, desc, Obj(m[k := Undefined]), k);
  }

  /** An optional field constrains the object only when present: the object
      conforms iff it conforms without the field and the field, if there,
      holds a valid value. */
  lemma OptionalFieldDropped(lsp: Lsp, desc: Description, m: map<string, Json>, k: string)
    requires k in desc && PropertyFlags.IsOptional(desc[k].flags)
    ensures Conforms(lsp, desc, Obj(m)) <==>
      Conforms(lsp, desc, Obj(m - {k})) && (k in m ==> PropertyValid(lsp, desc, desc[k], m[k]))
  {
    var w := Obj(m - {k});
    assert FieldOk(lsp, desc, w, k);
    forall j | j in desc && j != k
      ensures FieldOk(lsp, desc, w, j) == FieldOk(lsp, desc, Obj(m), j)
    {
    }
  }

  /** A field fixed to one literal string holds exactly that string in
      every conforming object. */
  lemma LiteralFieldFixed(lsp: Lsp, desc: Description, key: string, s: string, v: Json)
    requires key in desc && desc[key] == Req(Equals(s))
    requires Conforms(lsp, desc, v)
    ensures Field(v, key) == Str(s)
  {
    assert FieldOk(lsp, desc, v, key);
    PropertyFlags.NamedFlags();
  }

  // ---------------------------------------------------------------------
  // What one described field of a defined value accepts, by property kind
  // ---------------------------------------------------------------------

  lemma LiteralField(lsp: Lsp, d: Description, v: Json, key: string, s: string)
    requires key in d && d[key] == Req(Equals(s)) && v != Undefined && v != Null
    ensures FieldOk(lsp, d, v, key) <==> Field(v, key) == Str(s)
  {
    PropertyFlags.NamedFlags();
  }

  lemma StringField(lsp: Lsp, d: Description, v: Json, key: string)
    requires key in d && d[key] == StringProperty(PropertyFlags.None) && v != Undefined && v != Null
    ensures FieldOk(lsp, d, v, key) <==> Field(v, key).Str?
  {
    PropertyFlags.NamedFlags();
  }

  /** An optional string may be missing, but a present undefined fails. */
  lemma OptionalStringField(lsp: Lsp, d: Description, v: Json, key: string)
    requires key in d && d[key] == StringProperty(PropertyFlags.Optional) && v != Undefined && v != Null
    ensures FieldOk(lsp, d, v, key) <==> (HasOwn(v, key) ==> Field(v, key).Str?)
  {
    PropertyFlags.NamedFlags();
  }

  lemma EnumField(lsp: Lsp, d: Description, v: Json, key: string, values: set<string>)
    requires key in d && d[key] == StringEnumProperty(values, PropertyFlags.None) && v != Undefined && v != Null
    ensures FieldOk(lsp, d, v, key) <==> EnumIs(values, Field(v, key))
  {
    PropertyFlags.NamedFlags();
  }

  lemma OptionalEnumField(lsp: Lsp, d: Description, v: Json, key: string, values: set<string>)
    requires key in d && d[key] == StringEnumProperty(values, PropertyFlags.Optional) && v != Undefined && v != Null
    ensures FieldOk(lsp, d, v, key) <==> (HasOwn(v, key) ==> EnumIs(values, Field(v, key)))
  {
    PropertyFlags.NamedFlags();
  }

  lemma IdField(lsp: Lsp, d: Description, v: Json, key: string)
    requires key in d && d[key] == IdProperty(PropertyFlags.None) && v != Undefined && v != Null
    ensures FieldOk(lsp, d, v, key) <==> IdIs(Field(v, key))
  {
    PropertyFlags.NamedFlags();
  }

  lemma ForeignField(lsp: Lsp, d: Description, v: Json, key: string, f: LspValidator)
    requires key in d && d[key] == Req(Foreign(f)) && v != Undefined && v != Null
    ensures FieldOk(lsp, d, v, key) <==> lsp(f, Field(v, key))
  {
    PropertyFlags.NamedFlags();
  }

  lemma ObjectField(lsp: Lsp, d: Description, v: Json, key: string, desc: Description)
    requires key in d && d[key] == Req(Object(desc)) && v != Undefined && v != Null
    ensures FieldOk(lsp, d, v, key) <==> Conforms(lsp, desc, Field(v, key))
  {
    PropertyFlags.NamedFlags();
  }

  /** A nested descriptor is run on the field when the field is an own
      key. */
  lemma OptionalObjectField(lsp: Lsp, d: Description, v: Json, key: string, desc: Description)
    requires key in d && d[key] == Opt(Object(desc)) && v != Undefined && v != Null
    ensures FieldOk(lsp, d, v, key) <==> (HasOwn(v, key) ==> Conforms(lsp, desc, Field(v, key)))
  {
    PropertyFlags.NamedFlags();
  }

  lemma ForeignItemsField(lsp: Lsp, d: Description, v: Json, key: string, f: LspValidator)
    requires key in d && d[key] == ArrayProperty(Foreign(f), PropertyFlags.None) && v != Undefined && v != Null
    ensures FieldOk(lsp, d, v, key) <==>
      Field(v, key).Arr? && forall i | 0 <= i < |Field(v, key).items| :: lsp(f, Field(v, key).items[i])
  {
    PropertyFlags.NamedFlags();
    var x := Field(v, key);
    if x.Arr? {
      forall i | 0 <= i < |x.items|
        ensures Validate(lsp, d, Foreign(f), x.items[i]) == lsp(f, x.items[i])
      {
      }
    }
  }

  /** `Is.symbolKind` only asks for a number. */
  lemma SymbolKindField(lsp: Lsp, d: Description, v: Json, key: string)
    requires key in d && d[key] == Req(IsSymbolKind) && v != Undefined && v != Null
    ensures FieldOk(lsp, d, v, key) <==> Field(v, key).Num?
  {
    PropertyFlags.NamedFlags();
  }

  lemma OptionalBooleanField(lsp: Lsp, d: Description, v: Json, key: string)
    requires key in d && d[key] == BooleanProperty(PropertyFlags.Optional) && v != Undefined && v != Null
    ensures FieldOk(lsp, d, v, key) <==> (HasOwn(v, key) ==> Field(v, key).Bool?)
  {
    PropertyFlags.NamedFlags();
  }

  /** Any optional field: validated by its check exactly when present. */
  lemma OptionalField(lsp: Lsp, d: Description, v: Json, key: string, c: Check)
    requires key in d && d[key] == Opt(c) && v != Undefined && v != Null
    ensures FieldOk(lsp, d, v, key) <==> (HasOwn(v, key) ==> Validate(lsp, d, c, Field(v, key)))
  {
    PropertyFlags.NamedFlags();
  }

  /** Any required field without flags: validated by its check. */
  lemma RequiredField(lsp: Lsp, d: Description, v: Json, key: string, c: Check)
    requires key in d && d[key] == Req(c) && v != Undefined && v != Null
    ensures FieldOk(lsp, d, v, key) <==> Validate(lsp, d, c, Field(v, key))
  {
    PropertyFlags.NamedFlags();
  }

  lemma OptionalStringArrayField(lsp: Lsp, d: Description, v: Json, key: string)
    requires key in d && d[key] == StringArrayProperty(PropertyFlags.Optional) && v != Undefined && v != Null
    ensures FieldOk(lsp, d, v, key) <==>
      (HasOwn(v, key) ==> Field(v, key).Arr? && forall i | 0 <= i < |Field(v, key).items| :: Field(v, key).items[i].Str?)
  {
    PropertyFlags.NamedFlags();
  }

  // ---------------------------------------------------------------------
  // Self-reference
  // ---------------------------------------------------------------------

  /** A check that never refers to the `is` of its enclosing descriptor
      and never calls an unassigned validator. */
  predicate SelfFree(c: Check)
  {
    match c
    case Self => false
    case Unassigned => false
    case ArrayOf(item) => SelfFree(item)
    case PickByFirst(_, present, absent) => SelfFree(present) && SelfFree(absent)
    case _ => true
  }

  /** A check free of `Self` means the same inside every descriptor. */
  lemma {:induction false} SelfFreeIndependent(lsp: Lsp, e1: Description, e2: Description, c: Check, v: Json)
    requires SelfFree(c)
    ensures Validate(lsp, e1, c, v) == Validate(lsp, e2, c, v)
  {
    match c
    case ArrayOf(item) =>
      if v.Arr? {
        forall i | 0 <= i < |v.items|
          ensures Validate(lsp, e1, item, v.items[i]) == Validate(lsp, e2, item, v.items[i])
        {
          SelfFreeIndependent(lsp, e1, e2, item, v.items[i]);
        }
      }
    case PickByFirst(key, present, absent) =>
      if v.Arr? && |v.items| > 0 {
        var item := if Field(v.items[0], key) != Undefined then present else absent;
        forall i | 0 <= i < |v.items|
          ensures Validate(lsp, e1, item, v.items[i]) == Validate(lsp, e2, item, v.items[i])
        {
          SelfFreeIndependent(lsp, e1, e2, item, v.items[i]);
        }
      }
    case _ =>
  }

  // ---------------------------------------------------------------------
  // Narrowing on a discriminant: RangeTag.is
  // ---------------------------------------------------------------------

  /** Every case of a dispatch fixes the discriminant to its own name. */
  predicate CasesFixKey(key: string, cases: map<string, Description>)
  {
    forall s | s in cases :: key in cases[s] && cases[s][key] == Req(Equals(s))
  }

  /** When every case fixes the discriminant, a dispatch accepts exactly the
      values that some case of an allowed kind accepts. */
  lemma DispatchIsUnion(lsp: Lsp, e: Description, key: string, kinds: set<string>, cases: map<string, Description>, v: Json)
    requires CasesFixKey(key, cases)
    ensures Validate(lsp, e, Dispatch(key, kinds, cases), v) <==>
      exists s | s in kinds && s in cases :: Conforms(lsp, cases[s], v)
  {
    if s :| s in kinds && s in cases && Conforms(lsp, cases[s], v) {
      LiteralFieldFixed(lsp, cases[s], key, s, v);
    }
  }

  // ---------------------------------------------------------------------
  // Extension: Object.assign({}, base, extension)
  // ---------------------------------------------------------------------

  /** `desc` is the case of dispatch `d` for the discriminant it fixes. */
  predicate CaseOf(desc: Description, d: Check)
    requires d.Dispatch?
  {
    && d.key in desc
    && desc[d.key].check.Equals?
    && desc[d.key] == Req(Equals(desc[d.key].check.s))
    && desc[d.key].check.s in d.kinds
    && desc[d.key].check.s in d.cases
    && d.cases[desc[d.key].check.s] == desc
  }

  /** A validator that accepts no more than another wherever it is used:
      the same validator free of `Self`, a literal within an enum's values,
      or one case's `is` within a dispatch. */
  predicate CheckNarrows(c: Check, d: Check)
  {
    || (c == d && SelfFree(c))
    || (c.Equals? && d.OneOf? && c.s in d.values)
    || (c.Object? && d.Dispatch? && CaseOf(c.desc, d))
  }

  lemma CheckNarrowsSound(lsp: Lsp, e1: Description, e2: Description, c: Check, d: Check, v: Json)
    requires CheckNarrows(c, d)
    ensures Validate(lsp, e1, c, v) ==> Validate(lsp, e2, d, v)
  {
    if c == d && SelfFree(c) {
      SelfFreeIndependent(lsp, e1, e2, c, v);
    } else if c.Object? && d.Dispatch? && Validate(lsp, e1, c, v) {
      LiteralFieldFixed(lsp, c.desc, d.key, c.desc[d.key].check.s, v);
    }
  }

  /** A property that accepts no more than another and is no more
      permissive in any flag. */
  predicate PropertyNarrows(p: Property, q: Property)
  {
    && CheckNarrows(p.check, q.check)
    && (PropertyFlags.IsOptional(p.flags) ==> PropertyFlags.IsOptional(q.flags))
    && (PropertyFlags.IsUndefined(p.flags) ==> PropertyFlags.IsUndefined(q.flags))
    && (PropertyFlags.IsNull(p.flags) ==> PropertyFlags.IsNull(q.flags))
  }

  lemma PropertyNarrowsSound(lsp: Lsp, e1: Description, e2: Description, p: Property, q: Property, v: Json)
    requires PropertyNarrows(p, q)
    ensures PropertyValid(lsp, e1, p, v) ==> PropertyValid(lsp, e2, q, v)
  {
    CheckNarrowsSound(lsp, e1, e2, p.check, q.check, v);
  }

  /** A description none of whose checks refers to its own `is`. */
  predicate NoSelf(desc: Description)
  {
    forall k | k in desc :: SelfFree(desc[k].check)
  }

  lemma NoSelfMerge(a: Description, b: Description)
    requires NoSelf(a) && NoSelf(b)
    ensures NoSelf(a + b)
  {
  }

  /** The base refers to no `Self`, and every field the extension overrides
      is narrowed. */
  predicate Refines(base: Description, ext: Description)
  {
    NoSelf(base) && forall k | k in ext && k in base :: PropertyNarrows(ext[k], base[k])
  }

  /** A descriptor built by overriding fields of a base description with
      narrower properties accepts a subset of what the base accepts. */
  lemma ExtensionNarrows(lsp: Lsp, base: Description, ext: Description, v: Json)
    requires Refines(base, ext)
    ensures Conforms(lsp, base + ext, v) ==> Conforms(lsp, base, v)
  {
    if Conforms(lsp, base + ext, v) {
      forall k | k in base
        ensures FieldOk(lsp, base, v, k)
      {
        assert FieldOk(lsp, base + ext, v, k);
        if k in ext {
          PropertyNarrowsSound(lsp, base + ext, base, ext[k], base[k], Field(v, k));
        } else {
          SelfFreeIndependent(lsp, base + ext, base, base[k].check, Field(v, k));
        }
      }
    }
  }

  /** When neither side refers to its own `is`, the extended descriptor
      accepts exactly what both the base and the extension accept. */
  lemma ExtensionExactly(lsp: Lsp, base: Description, ext: Description, v: Json)
    requires Refines(base, ext) && NoSelf(ext)
    ensures Conforms(lsp, base + ext, v) <==> Conforms(lsp, base, v) && Conforms(lsp, ext, v)
  {
    ExtensionNarrows(lsp, base, ext, v);
    if Conforms(lsp, base + ext, v) {
      forall k | k in ext
        ensures FieldOk(lsp, ext, v, k)
      {
        assert FieldOk(lsp, base + ext, v, k);
        SelfFreeIndependent(lsp, base + ext, ext, ext[k].check, Field(v, k));
      }
    }
    if Conforms(lsp, base, v) && Conforms(lsp, ext, v) {
      forall k | k in base + ext
        ensures FieldOk(lsp, base + ext, v, k)
      {
        if k in ext {
          assert FieldOk(lsp, ext, v, k);
          SelfFreeIndependent(lsp, ext, base + ext, ext[k].check, Field(v, k));
        } else {
          assert FieldOk(lsp, base, v, k);
          SelfFreeIndependent(lsp, base, base + ext, base[k].check, Field(v, k));
        }
      }
    }
  }

  /** Overriding a field the base checks with a dispatch by one required
      case of that dispatch: the result accepts exactly the base's values
      whose field passes that case. */
  lemma CaseExtensionExactly(lsp: Lsp, base: Description, key: string, tag: Description, v: Json)
    requires NoSelf(base) && key in base && base[key].check.Dispatch? && CaseOf(tag, base[key].check)
    ensures Conforms(lsp, base + map[key := Req(Object(tag))], v) <==>
      Conforms(lsp, base, v) && Conforms(lsp, tag, Field(v, key))
  {
    var ext := map[key := Req(Object(tag))];
    PropertyFlags.NamedFlags();
    assert PropertyNarrows(ext[key], base[key]);
    ExtensionExactly(lsp, base, ext, v);
    if v != Undefined && v != Null {
      ObjectField(lsp, ext, v, key, tag);
    }
  }

  // ---------------------------------------------------------------------
  // Key order
  // ---------------------------------------------------------------------

  /** `order` lists the keys of `desc`, each at least once. */
  predicate ListsKeys(desc: Description, order: seq<string>)
  {
    && (forall i | 0 <= i < |order| :: order[i] in desc)
    && (forall k | k in desc :: k in order)
  }

  /** Every validator of `desc` is assigned. */
  predicate NoUnassigned(desc: Description)
  {
    forall k | k in desc :: desc[k].check != Unassigned
  }

  /** Without an unassigned validator on the keys it visits, the loop never
      throws, and it accepts exactly when every visited field is
      acceptable. */
  lemma {:induction false} ValidateFieldsAgrees(lsp: Lsp, desc: Description, order: seq<string>, v: Json)
    requires forall i | 0 <= i < |order| :: order[i] in desc
    requires v != Undefined && v != Null
    requires forall i | 0 <= i < |order| :: desc[order[i]].check != Unassigned
    ensures ValidateFields(lsp, desc, order, v) != Threw
    ensures ValidateFields(lsp, desc, order, v) == Accepted <==>
      forall i | 0 <= i < |order| :: FieldOk(lsp, desc, v, order[i])
    decreases |order|
  {
    if |order| > 0 {
      var rest := order[1..];
      assert forall i | 1 <= i < |order| :: order[i] == rest[i - 1];
      ValidateFieldsAgrees(lsp, desc, rest, v);
      assert (forall i | 0 <= i < |order| :: FieldOk(lsp, desc, v, order[i])) <==>
        FieldOk(lsp, desc, v, order[0]) && forall i | 0 <= i < |rest| :: FieldOk(lsp, desc, v, rest[i]);
    }
  }

  /** When no validator is unassigned, the order of the keys does not
      matter: the loop never throws and accepts exactly what `Conforms`
      accepts. */
  lemma InOrderIsConforms(lsp: Lsp, desc: Description, order: seq<string>, v: Json)
    requires ListsKeys(desc, order) && NoUnassigned(desc)
    ensures ValidateInOrder(lsp, desc, order, v) != Threw
    ensures ValidateInOrder(lsp, desc, order, v) == Accepted <==> Conforms(lsp, desc, v)
  {
    if v != Undefined && v != Null {
      ValidateFieldsAgrees(lsp, desc, order, v);
      if forall i | 0 <= i < |order| :: FieldOk(lsp, desc, v, order[i]) {
        forall k | k in desc ensures FieldOk(lsp, desc, v, k) {
          var i :| 0 <= i < |order| && order[i] == k;
        }
      }
    }
  }

  /** A required field whose validator is unassigned throws when the loop
      reaches it: the loop throws exactly when every field before it
      passes, and rejects otherwise. */
  lemma {:induction false} ThrowsAtUnassigned(lsp: Lsp, desc: Description, order: seq<string>, v: Json, j: nat)
    requires forall i | 0 <= i < |order| :: order[i] in desc
    requires v != Undefined && v != Null
    requires j < |order| && desc[order[j]] == Req(Unassigned)
    requires forall i | 0 <= i < j :: desc[order[i]].check != Unassigned
    ensures ValidateFields(lsp, desc, order, v) ==
      if forall i | 0 <= i < j :: FieldOk(lsp, desc, v, order[i]) then Threw else Rejected
    decreases j
  {
    PropertyFlags.NamedFlags();
    if j > 0 {
      var rest := order[1..];
      assert forall i | 1 <= i < |order| :: order[i] == rest[i - 1];
      ThrowsAtUnassigned(lsp, desc, rest, v, j - 1);
      assert (forall i | 0 <= i < j :: FieldOk(lsp, desc, v, order[i])) <==>
        FieldOk(lsp, desc, v, order[0]) && forall i | 0 <= i < j - 1 :: FieldOk(lsp, desc, v, rest[i]);
    }
  }

  /** A helper for `Ranges.UnassignedTagThrows`: `ThrowsAtUnassigned` at
      the fourth key, with its three-key conjunction written out. */
  lemma ThrowsAfterThree(lsp: Lsp, desc: Description, order: seq<string>, v: Json)
    requires forall i | 0 <= i < |order| :: order[i] in desc
    requires v != Undefined && v != Null
    requires |order| > 3 && desc[order[3]] == Req(Unassigned)
    requires desc[order[0]].check != Unassigned && desc[order[1]].check != Unassigned && desc[order[2]].check != Unassigned
    ensures ValidateFields(lsp, desc, order, v) ==
      if FieldOk(lsp, desc, v, order[0]) && FieldOk(lsp, desc, v, order[1]) && FieldOk(lsp, desc, v, order[2])
      then Threw else Rejected
  {
    ThrowsAtUnassigned(lsp, desc, order, v, 3);
    assert (forall i | 0 <= i < 3 :: FieldOk(lsp, desc, v, order[i])) <==>
      FieldOk(lsp, desc, v, order[0]) && FieldOk(lsp, desc, v, order[1]) && FieldOk(lsp, desc, v, order[2]);
  }

  /** A required field whose validator is unassigned rejects every value
      in the boolean reading, where the throw is false. */
  lemma UnassignedFieldRejectsAll(lsp: Lsp, d: Description, key: string, v: Json)
    requires key in d && d[key] == Req(Unassigned)
    ensures !Conforms(lsp, d, v)
  {
    if v != Undefined && v != Null {
      PropertyFlags.NamedFlags();
      assert !FieldOk(lsp, d, v, key);
    }
  }

  /** The loop over an extension of `base` at one of base's keys, by a
      property whose validator is assigned, never throws and agrees with
      `Conforms`, whatever the order of the keys. */
  lemma ExtendedInOrder(lsp: Lsp, base: Description, key: string, p: Property, order: seq<string>, v: Json)
    requires ListsKeys(base, order) && NoUnassigned(base) && key in base && p.check != Unassigned
    ensures ValidateInOrder(lsp, base + map[key := p], order, v) != Threw
    ensures ValidateInOrder(lsp, base + map[key := p], order, v) == Accepted <==> Conforms(lsp, base + map[key := p], v)
  {
    var d := base + map[key := p];
    assert d.Keys == base.Keys;
    assert ListsKeys(d, order);
    InOrderIsConforms(lsp, d, order, v);
  }

  lemma NoSelfAssigned(d: Description)
    requires NoSelf(d)
    ensures NoUnassigned(d)
  {
  }

  // ---------------------------------------------------------------------
  // Arrays
  // ---------------------------------------------------------------------

  /** `ArrayProperty`'s validator accepts a concatenation iff it accepts
      both parts; with `[]` accepted this says an array is accepted iff
      every item passes. */
  lemma ArrayOfConcat(lsp: Lsp, e: Description, c: Check, xs: seq<Json>, ys: seq<Json>)
    ensures Validate(lsp, e, ArrayOf(c), Arr([]))
    ensures Validate(lsp, e, ArrayOf(c), Arr(xs + ys)) <==>
      Validate(lsp, e, ArrayOf(c), Arr(xs)) && Validate(lsp, e, ArrayOf(c), Arr(ys))
  {
    var zs := xs + ys;
    if Validate(lsp, e, ArrayOf(c), Arr(xs)) && Validate(lsp, e, ArrayOf(c), Arr(ys)) {
      forall i | 0 <= i < |zs| ensures Validate(lsp, e, c, zs[i]) {
        if i >= |xs| {
          assert zs[i] == ys[i - |xs|];
        }
      }
    }
    if Validate(lsp, e, ArrayOf(c), Arr(zs)) {
      forall i | 0 <= i < |xs| ensures Validate(lsp, e, c, xs[i]) {
        assert xs[i] == zs[i];
      }
      forall i | 0 <= i < |ys| ensures Validate(lsp, e, c, ys[i]) {
        assert ys[i] == zs[|xs| + i];
      }
    }
  }

  /** `Is.isStringArray` is `ArrayProperty` over `Is.string`. */
  lemma StringArrayIsArrayOfStrings(lsp: Lsp, e: Description, v: Json)
    ensures Validate(lsp, e, IsStringArray, v) == Validate(lsp, e, ArrayOf(IsString), v)
  {
  }

  /** The first item decides: when it has an `key`, the array is accepted
      iff every item passes `present`; when it is an object without one,
      iff every item passes `absent`. A mixed array is rejected. */
  lemma PickByFirstExactly(lsp: Lsp, e: Description, key: string, present: Check, absent: Check, items: seq<Json>)
    requires |items| > 0 && items[0] != Undefined && items[0] != Null
    ensures Field(items[0], key) != Undefined ==>
      (Validate(lsp, e, PickByFirst(key, present, absent), Arr(items)) <==>
       Validate(lsp, e, ArrayOf(present), Arr(items)))
    ensures Field(items[0], key) == Undefined ==>
      (Validate(lsp, e, PickByFirst(key, present, absent), Arr(items)) <==>
       Validate(lsp, e, ArrayOf(absent), Arr(items)))
  {
  }

  // ---------------------------------------------------------------------
  // Enums and literal labels
  // ---------------------------------------------------------------------

  /** `X.property(flags)` of a string enum X accepts exactly the enum's
      declared values, plus undefined or null only when flagged. */
  lemma EnumPropertyExactly(lsp: Lsp, e: Description, en: StringEnum, f: Flags, v: Json)
    ensures PropertyValid(lsp, e, StringEnumProperty(Values(en), f), v) <==>
      || (exists k | k in en :: v == Str(en[k]))
      || (v == Undefined && PropertyFlags.IsUndefined(f))
      || (v == Null && PropertyFlags.IsNull(f))
  {
    if v.Str? && v.s in Values(en) {
      var k :| k in en && en[k] == v.s;
      assert v == Str(en[k]);
    }
  }

  /** `VertexLabels.property(l)` / `EdgeLabels.property(l)` accept the
      single label `l`, and nothing else. */
  lemma LabelPropertyExactly(lsp: Lsp, e: Description, values: set<string>, l: string, v: Json)
    ensures PropertyValid(lsp, e, LabelsProperty(values, Label(l), PropertyFlags.None), v) <==> v == Str(l)
  {
    PropertyFlags.NamedFlags();
  }

  /** The label overloads with flags passed first: as written the flags are
      lost, so `property(PropertyFlags.optional)` is not optional; the
      corrected overload keeps them. */
  lemma LabelFlagsDropped(values: set<string>)
    ensures !PropertyFlags.IsOptional(LabelsPropertyAsWritten(values, LabelFlags(PropertyFlags.Optional), PropertyFlags.None).flags)
    ensures PropertyFlags.IsOptional(LabelsProperty(values, LabelFlags(PropertyFlags.Optional), PropertyFlags.None).flags)
  {
    PropertyFlags.NamedFlags();
  }

  /** On every call the protocol makes (a label, or no flags first) the two
      overloads agree. */
  lemma LabelOverloadsAgree(values: set<string>, valueOrFlags: LabelOrFlags, flags: Flags)
    requires valueOrFlags.Label? || valueOrFlags.flags == flags
    ensures LabelsPropertyAsWritten(values, valueOrFlags, flags) == LabelsProperty(values, valueOrFlags, flags)
  {
  }

  /** The corrected overload honours the flags it is given first: it is the
      enum property with those flags. */
  lemma LabelFlagsHonoured(lsp: Lsp, e: Description, en: StringEnum, f: Flags, v: Json)
    ensures PropertyValid(lsp, e, LabelsProperty(Values(en), LabelFlags(f), PropertyFlags.None), v) <==>
      || (exists k | k in en :: v == Str(en[k]))
      || (v == Undefined && PropertyFlags.IsUndefined(f))
      || (v == Null && PropertyFlags.IsNull(f))
  {
    EnumPropertyExactly(lsp, e, en, f, v);
  }
}
