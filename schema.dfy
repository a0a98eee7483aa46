/** The validator combinators of the LSIF schema: the checks properties are
    built from, `Property.validate` and `ObjectDescriptor.validate`. */
module Schema {
  import opened JsonValues
  import opened Enums
  import opened Identifiers
  import PropertyFlags

  type Flags = PropertyFlags.Flags

  /** The validators of `vscode-languageserver-protocol` the schema calls;
      their definitions live outside this model. */
  datatype LspValidator =
    | LspRange
    | LspPosition
    | LspHover
    | LspDiagnostic
    | LspDocumentSymbol
    | LspFoldingRange
    | LspDocumentLink

  /** An interpretation of the foreign validators. */
  type Lsp = (LspValidator, Json) -> bool

  /** Every validator function the schema builds its properties from. */
  datatype Check =
    | IsBoolean                  // Is.boolean
    | IsString                   // Is.string
    | IsStringArray              // Is.isStringArray
    | IsSymbolKind               // Is.symbolKind: any number
    | IsId                       // Id.is
    | Equals(s: string)          // value => value === s
    | OneOf(values: set<string>) // value => values.has(value)
    | ArrayOf(item: Check)       // the validator of ArrayProperty
    | Object(desc: Description)  // X.is, which runs X.descriptor.validate
    | Self                       // the `is` of the descriptor whose field this is
    | Unassigned                 // a validator read before it was assigned: undefined
    | Anything                   // () => true, the edge brand
    | Foreign(f: LspValidator)   // lsp.X.is
      /** Narrow on the string in field `key`: it must be one of `kinds`, and
          the object must pass the `is` of the case for it. */
    | Dispatch(key: string, kinds: set<string>, cases: map<string, Description>)
      /** An array whose first item picks the validator of every item:
          `present` when the first item's `key` is defined, else `absent`. */
    | PickByFirst(key: string, present: Check, absent: Check)

  /** `Property`: a validator and its flags. */
  datatype Property = Property(check: Check, flags: Flags)

  /** `ObjectDescription`: field name to property. */
  type Description = map<string, Property>

  // ---------------------------------------------------------------------
  // Property constructors, one per property class of the protocol
  // ---------------------------------------------------------------------

  /** `new Property(validator)` and `new Property(validator, optional)`. */
  function Req(c: Check): Property { Property(c, PropertyFlags.None) }
  function Opt(c: Check): Property { Property(c, PropertyFlags.Optional) }

  function StringProperty(flags: Flags): Property { Property(IsString, flags) }
  function BooleanProperty(flags: Flags): Property { Property(IsBoolean, flags) }
  function StringArrayProperty(flags: Flags): Property { Property(IsStringArray, flags) }
  function ArrayProperty(item: Check, flags: Flags): Property { Property(ArrayOf(item), flags) }
  function StringEnumProperty(values: set<string>, flags: Flags): Property { Property(OneOf(values), flags) }
  function IdProperty(flags: Flags): Property { Property(IsId, flags) }

  /** The first argument of `VertexLabels.property` / `EdgeLabels.property`:
      a label, or flags. */
  datatype LabelOrFlags = Label(value: string) | LabelFlags(flags: Flags)

  /** `VertexLabels.property` / `EdgeLabels.property` as written: given a
      label, a property accepting exactly that label; otherwise the enum
      property with the SECOND argument's flags, so flags passed first are
      dropped. */
  function LabelsPropertyAsWritten(values: set<string>, valueOrFlags: LabelOrFlags, flags: Flags): Property
  {
    match valueOrFlags
    case Label(l) => Property(Equals(l), flags)
    case LabelFlags(_) => StringEnumProperty(values, flags)
  }

  /** The same with the flags of the one-argument overload honoured. */
  function LabelsProperty(values: set<string>, valueOrFlags: LabelOrFlags, flags: Flags): Property
  {
    match valueOrFlags
    case Label(l) => Property(Equals(l), flags)
    case LabelFlags(f) => StringEnumProperty(values, f)
  }

  /** `VertexLabels.property(l)` / `EdgeLabels.property(l)`: given a label,
      the enum's values play no part. */
  function VertexLabel(l: string): (p: Property)
    ensures p == LabelsProperty(VertexLabelValues, Label(l), PropertyFlags.None)
  {
    Req(Equals(l))
  }

  function EdgeLabel(l: string): (p: Property)
    ensures p == LabelsProperty(EdgeLabelValues, Label(l), PropertyFlags.None)
  {
    Req(Equals(l))
  }

  // ---------------------------------------------------------------------
  // Interpretation
  // ---------------------------------------------------------------------

  /** Running a validator function on a value; `Self` stands for the `is`
      of the descriptor `enclosing`. Each call either looks at a smaller
      value or hands the same value to `Conforms`. */
  function Validate(lsp: Lsp, enclosing: Description, c: Check, v: Json): bool
    decreases v != Undefined, v, 2
  {
    match c
    case IsBoolean => v.Bool?
    case IsString => v.Str?
    case IsStringArray => v.Arr? && forall i | 0 <= i < |v.items| :: v.items[i].Str?
    case IsSymbolKind => v.Num?
    case IsId => IdIs(v)
    case Equals(s) => v == Str(s)
    case OneOf(values) => v.Str? && v.s in values
    case ArrayOf(item) => v.Arr? && forall i | 0 <= i < |v.items| :: Validate(lsp, enclosing, item, v.items[i])
    case Object(desc) => Conforms(lsp, desc, v)
    case Self => Conforms(lsp, enclosing, v)
    case Unassigned =>
      // The source throws a TypeError when it calls undefined; the model answers false.
      false
    case Anything => true
    case Foreign(f) => lsp(f, v)
    case Dispatch(key, kinds, cases) =>
      // The source throws when `v` is undefined or null; the model answers false.
      var t := Field(v, key);
      t.Str? && t.s in kinds && t.s in cases && Conforms(lsp, cases[t.s], v)
    case PickByFirst(key, present, absent) =>
      // The source throws when the first item is undefined or null; the model answers false.
      v.Arr? &&
      (|v.items| == 0 ||
       (v.items[0] != Undefined && v.items[0] != Null &&
        var item := if Field(v.items[0], key) != Undefined then present else absent;
        forall i | 0 <= i < |v.items| :: Validate(lsp, enclosing, item, v.items[i])))
  }

  /** `Property.validate`: undefined and null pass when their flag is set;
      everything else goes to the validator. */
  function PropertyValid(lsp: Lsp, enclosing: Description, p: Property, v: Json): (r: bool)
    ensures r <==>
      || (v == Undefined && PropertyFlags.IsUndefined(p.flags))
      || (v == Null && PropertyFlags.IsNull(p.flags))
      || Validate(lsp, enclosing, p.check, v)
    decreases v != Undefined, v, 3
  {
    if PropertyFlags.IsUndefined(p.flags) && v == Undefined then true
    else if PropertyFlags.IsNull(p.flags) && v == Null then true
    else Validate(lsp, enclosing, p.check, v)
  }

  /** Whether the described field `key` of `v` is acceptable: skipped only
      when it is optional AND not an own key; otherwise its value is
      validated. */
  predicate FieldOk(lsp: Lsp, desc: Description, v: Json, key: string)
    requires key in desc && v != Undefined && v != Null
    decreases v != Undefined, v, 0
  {
    (PropertyFlags.IsOptional(desc[key].flags) && !HasOwn(v, key)) ||
    PropertyValid(lsp, desc, desc[key], Field(v, key))
  }

  /** `ObjectDescriptor.validate`. Keys that the description does not name
      are not looked at. */
  function Conforms(lsp: Lsp, desc: Description, v: Json): bool
    decreases v != Undefined, v, 1
  {
    v != Undefined && v != Null && forall k | k in desc :: FieldOk(lsp, desc, v, k)
  }

  // ---------------------------------------------------------------------
  // The validation loop in key order
  // ---------------------------------------------------------------------

  /** The three ways `ObjectDescriptor.validate` can end. */
  datatype Outcome = Accepted | Rejected | Threw

  /** Whether `Property.validate` hands `v` to the validator, that is,
      neither flag lets it through first. */
  predicate CallsValidator(p: Property, v: Json)
  {
    !(v == Undefined && PropertyFlags.IsUndefined(p.flags)) &&
    !(v == Null && PropertyFlags.IsNull(p.flags))
  }

  /** The loop of `ObjectDescriptor.validate` over the keys `order`, as
      `Object.keys` lists them: an optional key that is not an own key is
      skipped, the first field that fails ends the loop, and calling an
      unassigned validator throws. (`Object.keys` lists only keys of the
      description; a key `order` names that `desc` lacks is passed over.) */
  function ValidateFields(lsp: Lsp, desc: Description, order: seq<string>, v: Json): Outcome
    requires v != Undefined && v != Null
    decreases |order|
  {
    if |order| == 0 then Accepted
    else if order[0] !in desc then ValidateFields(lsp, desc, order[1..], v)
    else
      var k := order[0];
      var p := desc[k];
      if PropertyFlags.IsOptional(p.flags) && !HasOwn(v, k) then ValidateFields(lsp, desc, order[1..], v)
      else if p.check == Unassigned && CallsValidator(p, Field(v, k)) then Threw
      else if !PropertyValid(lsp, desc, p, Field(v, k)) then Rejected
      else ValidateFields(lsp, desc, order[1..], v)
  }

  /** `ObjectDescriptor.validate` with its keys in `order`. */
  function ValidateInOrder(lsp: Lsp, desc: Description, order: seq<string>, v: Json): Outcome
  {
    if v == Undefined || v == Null then Rejected else ValidateFields(lsp, desc, order, v)
  }
}
