// The reference set member index document: its field-name dispatching
// builder, the typed storage of concrete-domain values, the projection of
// the non-null member-specific fields, the constructor's validation of the
// referenced component type, and two of its query expression factories.

module RefsetMember {
  import opened Wrappers

  // ---------------------------------------------------------------------
  // Values and fields
  // ---------------------------------------------------------------------

  /** A decimal number, kept abstract: only its identity matters here. */
  datatype Decimal = Decimal(text: string)

  /** The concrete-domain data types. */
  datatype DataType = BooleanData | DecimalData | IntegerData | StringData

  /** A boxed field value as the builder receives it. Java's Integer and
      Long are different classes, so they are different values here. */
  datatype Value =
    | Str(s: string)
    | Int(i: int)
    | Long(l: int)
    | Bool(b: bool)
    | Dec(d: Decimal)
    | TypeValue(t: DataType)

  /** The member-specific fields the builder dispatches on by name. */
  datatype MemberField =
    | TargetComponent | ValueId
    | DataTypeField | RelationshipGroup | TypeId | SerializedValue | CharacteristicTypeId
    | DescriptionLength | DescriptionFormat
    | AcceptabilityId
    | SourceEffectiveTime | TargetEffectiveTime
    | MapTarget | MapTargetDescription
    | MapCategoryId | CorrelationId | MapAdvice | MapRule | MapGroup | MapPriority
    | Query
    | OwlExpression
    | DomainConstraint | ParentDomain | ProximalPrimitiveConstraint | ProximalPrimitiveRefinement
    | DomainTemplateForPrecoordination | DomainTemplateForPostcoordination | EditorialGuideReference
    | DomainId | Grouped | AttributeCardinality | AttributeInGroupCardinality | RuleStrengthId | ContentTypeId
    | RangeConstraint | AttributeRule
    | MrcmRuleRefsetId
    | MapBlock

  /** Every member field, in the order the additional-field projection
      visits them. */
  const AllFields: seq<MemberField> := [
    TargetComponent, ValueId,
    DataTypeField, RelationshipGroup, TypeId, SerializedValue, CharacteristicTypeId,
    DescriptionLength, DescriptionFormat,
    AcceptabilityId,
    SourceEffectiveTime, TargetEffectiveTime,
    MapTarget, MapTargetDescription,
    MapCategoryId, CorrelationId, MapAdvice, MapRule, MapGroup, MapPriority,
    Query,
    OwlExpression,
    DomainConstraint, ParentDomain, ProximalPrimitiveConstraint, ProximalPrimitiveRefinement,
    DomainTemplateForPrecoordination, DomainTemplateForPostcoordination, EditorialGuideReference,
    DomainId, Grouped, AttributeCardinality, AttributeInGroupCardinality, RuleStrengthId, ContentTypeId,
    RangeConstraint, AttributeRule,
    MrcmRuleRefsetId,
    MapBlock
  ]

  lemma AllFieldsComplete(f: MemberField)
    ensures f in AllFields
  {
  }

  /** The Java class a builder slot is declared with. */
  datatype FieldKind = StringKind | IntegerKind | LongKind | BooleanKind | DataTypeKind | AnyKind

  function KindOf(f: MemberField): FieldKind {
    match f
    case RelationshipGroup | DescriptionLength | MapGroup | MapPriority | MapBlock => IntegerKind
    case SourceEffectiveTime | TargetEffectiveTime => LongKind
    case Grouped => BooleanKind
    case DataTypeField => DataTypeKind
    case SerializedValue => AnyKind
    case _ => StringKind
  }

  /** The cast in the slot assignment succeeds. */
  predicate KindFits(f: MemberField, v: Value) {
    match KindOf(f)
    case StringKind => v.Str?
    case IntegerKind => v.Int?
    case LongKind => v.Long?
    case BooleanKind => v.Bool?
    case DataTypeKind => v.TypeValue?
    case AnyKind => true
  }

  predicate SlotsTyped(slots: map<MemberField, Value>) {
    forall f :: f in slots ==> KindFits(f, slots[f])
  }

  function SlotOf(slots: map<MemberField, Value>, f: MemberField): Option<Value> {
    if f in slots then Some(slots[f]) else None
  }

  /** The RF2 header names of the fields are defined outside this model;
      all that matters is that different fields have different names. */
  predicate Injective(nameOf: MemberField -> string) {
    forall f, g :: nameOf(f) == nameOf(g) ==> f == g
  }

  function Find(fs: seq<MemberField>, nameOf: MemberField -> string, n: string): (r: Option<MemberField>)
    ensures r.Some? ==> r.value in fs && nameOf(r.value) == n
    ensures r.None? ==> forall i :: 0 <= i < |fs| ==> nameOf(fs[i]) != n
  {
    if |fs| == 0 then None
    else if nameOf(fs[0]) == n then Some(fs[0])
    else Find(fs[1..], nameOf, n)
  }

  /** The field-name switch of the builder: the field a name selects, or
      none for an unknown name. */
  function FieldNamed(nameOf: MemberField -> string, n: string): (r: Option<MemberField>)
    ensures r.Some? ==> nameOf(r.value) == n
    ensures r.None? ==> forall f :: nameOf(f) != n
  {
    var r := Find(AllFields, nameOf, n);
    if r.None? then
      forall f ensures nameOf(f) != n {
        AllFieldsComplete(f);
      }
      r
    else r
  }

  /** Each field's own name selects that field and no other. */
  lemma FieldNamedSelectsField(nameOf: MemberField -> string, f: MemberField)
    requires Injective(nameOf)
    ensures FieldNamed(nameOf, nameOf(f)) == Some(f)
  {
  }

  datatype MemberError =
    | UnknownField(name: string)
    | ClassCast(name: string)
    | InvalidComponentType(componentType: int)
    | BadRequest
    | IllegalArgument
    | NoSuchElement
    | UnsupportedComponentType(componentType: int)

  /** Nulling the slot of a field nulls exactly the slot that field's name
      selects. */
  lemma ClearSlot(slots: map<MemberField, Value>, nameOf: MemberField -> string, field: MemberField)
    requires Injective(nameOf) && SlotsTyped(slots)
    ensures SlotsTyped(slots - {field})
    ensures forall g :: SlotOf(slots - {field}, g) == if nameOf(g) == nameOf(field) then None else SlotOf(slots, g)
  {
    forall g ensures SlotOf(slots - {field}, g) == if nameOf(g) == nameOf(field) then None else SlotOf(slots, g) {
      if nameOf(g) == nameOf(field) {
        assert g == field;
      }
    }
  }

  /** Filling the slot of a field with a value of its class fills exactly
      the slot that field's name selects. */
  lemma SetSlot(slots: map<MemberField, Value>, nameOf: MemberField -> string, field: MemberField, value: Value)
    requires Injective(nameOf) && SlotsTyped(slots) && KindFits(field, value)
    ensures SlotsTyped(slots[field := value])
    ensures forall g :: SlotOf(slots[field := value], g) == if nameOf(g) == nameOf(field) then Some(value) else SlotOf(slots, g)
  {
    forall g ensures SlotOf(slots[field := value], g) == if nameOf(g) == nameOf(field) then Some(value) else SlotOf(slots, g) {
      if nameOf(g) == nameOf(field) {
        assert g == field;
      }
    }
  }

  predicate Accepts(nameOf: MemberField -> string, n: string, v: Option<Value>) {
    var f := FieldNamed(nameOf, n);
    f.Some? && (v.None? || KindFits(f.value, v.value))
  }

  // ---------------------------------------------------------------------
  // The index document
  // ---------------------------------------------------------------------

  /** The attributes every component document has. */
  datatype Core = Core(id: Option<string>, moduleId: Option<string>, released: Option<bool>,
                       active: Option<bool>, effectiveTime: Option<int>)

  /** The terminology registry's component type numbers and its mapping
      from a component identifier to its type number. */
  datatype Registry = Registry(unspecified: int, refset: int, concept: int, description: int,
                               relationship: int, typeOfId: string -> int)

  /** The parser for concrete-domain values given as strings. */
  datatype Deserializer = Deserializer(toBool: string -> bool, toDecimal: string -> Decimal, toInt: string -> int)

  datatype Entry = Entry(
    core: Core,
    docLabel: Option<string>,
    referencedComponentId: Option<string>,
    referencedComponentType: int,
    referenceSetId: Option<string>,
    referenceSetType: Option<string>,
    classAxioms: Option<seq<string>>,
    gciAxioms: Option<seq<string>>,
    dataType: Option<DataType>,
    booleanValue: Option<bool>,
    decimalValue: Option<Decimal>,
    integerValue: Option<int>,
    stringValue: Option<string>,
    /** every member-specific field except the data type and the value */
    plain: map<MemberField, Value>)

  datatype IndexField = BooleanValueField | StringValueField | IntegerValueField | DecimalValueField | RelationshipGroupField

  datatype Expr =
    | Match(field: IndexField, value: Value)
    | MatchAny(field: IndexField, values: set<Value>)
    | MatchRange(field: IndexField, lower: int, upper: int)

  /** The value a document has under an index field. */
  function Indexed(e: Entry, field: IndexField): Option<Value> {
    match field
    case BooleanValueField => if e.booleanValue.Some? then Some(Bool(e.booleanValue.value)) else None
    case StringValueField => if e.stringValue.Some? then Some(Str(e.stringValue.value)) else None
    case IntegerValueField => if e.integerValue.Some? then Some(Int(e.integerValue.value)) else None
    case DecimalValueField => if e.decimalValue.Some? then Some(Dec(e.decimalValue.value)) else None
    case RelationshipGroupField => SlotOf(e.plain, RelationshipGroup)
  }

  /** The index field holding the values of a data type. */
  function ValueField(t: DataType): IndexField {
    match t
    case BooleanData => BooleanValueField
    case DecimalData => DecimalValueField
    case IntegerData => IntegerValueField
    case StringData => StringValueField
  }

  /** The concrete-domain value, read from the slot the data type selects. */
  function GetValue(e: Entry): (r: Option<Value>)
    ensures e.dataType.None? ==> r.None?
    ensures e.dataType.Some? ==> r == Indexed(e, ValueField(e.dataType.value))
  {
    match e.dataType
    case None => None
    case Some(BooleanData) => if e.booleanValue.Some? then Some(Bool(e.booleanValue.value)) else None
    case Some(DecimalData) => if e.decimalValue.Some? then Some(Dec(e.decimalValue.value)) else None
    case Some(IntegerData) => if e.integerValue.Some? then Some(Int(e.integerValue.value)) else None
    case Some(StringData) => if e.stringValue.Some? then Some(Str(e.stringValue.value)) else None
  }

  /** The value a member field has on the document (the data type and the
      value are read through their getters). */
  function FieldValue(e: Entry, f: MemberField): Option<Value> {
    match f
    case DataTypeField => if e.dataType.Some? then Some(TypeValue(e.dataType.value)) else None
    case SerializedValue => GetValue(e)
    case _ => SlotOf(e.plain, f)
  }

  /** The non-null member-specific fields keyed by their names. */
  function AdditionalFields(e: Entry, nameOf: MemberField -> string): (r: map<string, Value>)
    requires Injective(nameOf)
    ensures forall f :: nameOf(f) in r <==> FieldValue(e, f).Some?
    ensures forall f :: nameOf(f) in r ==> r[nameOf(f)] == FieldValue(e, f).value
    ensures forall n :: n in r ==> FieldNamed(nameOf, n).Some?
  {
    var r := map f | f in AllFields && FieldValue(e, f).Some? :: nameOf(f) := FieldValue(e, f).value;
    assert forall f :: nameOf(f) in r ==> f in AllFields && FieldValue(e, f).Some? by {
      forall f | nameOf(f) in r ensures f in AllFields && FieldValue(e, f).Some? {
        var g :| g in AllFields && FieldValue(e, g).Some? && nameOf(g) == nameOf(f);
      }
    }
    forall f ensures FieldValue(e, f).Some? ==> nameOf(f) in r {
      AllFieldsComplete(f);
    }
    r
  }

  /** Only the slot of the declared data type may hold a value. */
  predicate ValueSlotsFollowType(e: Entry) {
    (e.dataType != Some(BooleanData) ==> e.booleanValue.None?) &&
    (e.dataType != Some(DecimalData) ==> e.decimalValue.None?) &&
    (e.dataType != Some(IntegerData) ==> e.integerValue.None?) &&
    (e.dataType != Some(StringData) ==> e.stringValue.None?)
  }

  /** A document as the builder produces it. */
  predicate WellFormed(reg: Registry, e: Entry) {
    && e.referencedComponentType >= reg.unspecified
    && (e.referencedComponentType == reg.unspecified && NonEmpty(e.referencedComponentId) ==>
          reg.typeOfId(e.referencedComponentId.value) == reg.unspecified)
    && ValueSlotsFollowType(e)
    && DataTypeField !in e.plain && SerializedValue !in e.plain
    && SlotsTyped(e.plain)
  }

  /** The registry derives no type number below the unspecified one. */
  ghost predicate TypesNotBelowUnspecified(reg: Registry) {
    forall id :: reg.typeOfId(id) >= reg.unspecified
  }

  predicate NonEmpty(id: Option<string>) {
    id.Some? && id.value != ""
  }

  /** The constructor's rule for the referenced component type: an
      unspecified type is derived from a non-empty identifier. */
  function ComponentTypeOf(reg: Registry, id: Option<string>, componentType: int): (r: Result<int, MemberError>)
    ensures r.Failure? <==> componentType < reg.unspecified
    ensures r.Success? && NonEmpty(id) && componentType == reg.unspecified ==> r.value == reg.typeOfId(id.value)
    ensures r.Success? && !(NonEmpty(id) && componentType == reg.unspecified) ==> r.value == componentType
  {
    if componentType < reg.unspecified then Failure(InvalidComponentType(componentType))
    else if NonEmpty(id) && componentType == reg.unspecified then Success(reg.typeOfId(id.value))
    else Success(componentType)
  }

  /** The kind of document the referenced component is. */
  datatype DocClass = ConceptDoc | DescriptionDoc | RelationshipDoc

  function ReferencedComponentDocClass(reg: Registry, componentType: int): (r: Result<DocClass, MemberError>)
    ensures r.Success? <==> componentType in {reg.refset, reg.concept, reg.description, reg.relationship}
    ensures componentType in {reg.refset, reg.concept} ==> r == Success(ConceptDoc)
    ensures r == Success(DescriptionDoc) ==> componentType == reg.description
    ensures r == Success(RelationshipDoc) ==> componentType == reg.relationship
  {
    if componentType == reg.refset || componentType == reg.concept then Success(ConceptDoc)
    else if componentType == reg.description then Success(DescriptionDoc)
    else if componentType == reg.relationship then Success(RelationshipDoc)
    else Failure(UnsupportedComponentType(componentType))
  }

  // ---------------------------------------------------------------------
  // Building
  // ---------------------------------------------------------------------

  datatype BuilderState = BuilderState(
    core: Core,
    docLabel: Option<string>,
    referencedComponentId: Option<string>,
    referencedComponentType: int,
    referenceSetId: Option<string>,
    referenceSetType: Option<string>,
    classAxioms: Option<seq<string>>,
    gciAxioms: Option<seq<string>>,
    slots: map<MemberField, Value>)

  /** The four concrete-domain slots of a document. */
  datatype ValueSlots = ValueSlots(b: Option<bool>, d: Option<Decimal>, i: Option<int>, s: Option<string>)

  const NoValues := ValueSlots(None, None, None, None)

  /** The typed storage of the builder's value: a value of the declared
      type's class is stored as is, a string is parsed, anything else is
      dropped; a string data type casts the value. */
  function StoreValue(dataType: Option<DataType>, value: Option<Value>, de: Deserializer): Result<ValueSlots, MemberError> {
    match dataType
    case None => Success(NoValues)
    case Some(BooleanData) =>
      if value.Some? && value.value.Bool? then Success(NoValues.(b := Some(value.value.b)))
      else if value.Some? && value.value.Str? then Success(NoValues.(b := Some(de.toBool(value.value.s))))
      else Success(NoValues)
    case Some(DecimalData) =>
      if value.Some? && value.value.Dec? then Success(NoValues.(d := Some(value.value.d)))
      else if value.Some? && value.value.Str? then Success(NoValues.(d := Some(de.toDecimal(value.value.s))))
      else Success(NoValues)
    case Some(IntegerData) =>
      if value.Some? && value.value.Int? then Success(NoValues.(i := Some(value.value.i)))
      else if value.Some? && value.value.Str? then Success(NoValues.(i := Some(de.toInt(value.value.s))))
      else Success(NoValues)
    case Some(StringData) =>
      if value.None? then Success(NoValues)
      else if value.value.Str? then Success(NoValues.(s := Some(value.value.s)))
      else Failure(ClassCast("value"))
  }

  function DeclaredType(slots: map<MemberField, Value>): Option<DataType>
    requires SlotsTyped(slots)
  {
    if DataTypeField in slots then Some(slots[DataTypeField].t) else None
  }

  /** The value of the declared data type's class. */
  predicate TypedValueOf(t: DataType, v: Value) {
    match t
    case BooleanData => v.Bool?
    case DecimalData => v.Dec?
    case IntegerData => v.Int?
    case StringData => v.Str?
  }

  function Parsed(t: DataType, s: string, de: Deserializer): Value {
    match t
    case BooleanData => Bool(de.toBool(s))
    case DecimalData => Dec(de.toDecimal(s))
    case IntegerData => Int(de.toInt(s))
    case StringData => Str(s)
  }

  /** The document a builder state builds. */
  function Built(st: BuilderState, reg: Registry, de: Deserializer): (r: Result<Entry, MemberError>)
    requires SlotsTyped(st.slots)
    ensures r.Failure? <==> (st.referencedComponentType < reg.unspecified ||
      (DeclaredType(st.slots) == Some(StringData) && SerializedValue in st.slots && !st.slots[SerializedValue].Str?))
    ensures r.Success? && TypesNotBelowUnspecified(reg) ==> WellFormed(reg, r.value)
    ensures r.Success? ==> r.value.dataType == DeclaredType(st.slots)
    ensures r.Success? ==> forall f :: f != DataTypeField && f != SerializedValue ==> FieldValue(r.value, f) == SlotOf(st.slots, f)
    ensures r.Success? ==> r.value.referencedComponentType == ComponentTypeOf(reg, st.referencedComponentId, st.referencedComponentType).value
    ensures (r.Success? && DeclaredType(st.slots).Some? && SerializedValue in st.slots &&
             TypedValueOf(DeclaredType(st.slots).value, st.slots[SerializedValue])) ==>
        GetValue(r.value) == Some(st.slots[SerializedValue])
    ensures r.Success? && DeclaredType(st.slots).Some? && SerializedValue in st.slots && st.slots[SerializedValue].Str? ==>
      GetValue(r.value) == Some(Parsed(DeclaredType(st.slots).value, st.slots[SerializedValue].s, de))
    ensures (r.Success? && (SerializedValue !in st.slots ||
             (!st.slots[SerializedValue].Str? &&
              (DeclaredType(st.slots).None? || !TypedValueOf(DeclaredType(st.slots).value, st.slots[SerializedValue]))))) ==>
        GetValue(r.value) == None
  {
    var ct := ComponentTypeOf(reg, st.referencedComponentId, st.referencedComponentType);
    var dataType := DeclaredType(st.slots);
    var stored := StoreValue(dataType, SlotOf(st.slots, SerializedValue), de);
    if ct.Failure? then Failure(ct.error)
    else if stored.Failure? then Failure(stored.error)
    else
      var v := stored.value;
      var plain := st.slots - {DataTypeField, SerializedValue};
      assert forall f :: f != DataTypeField && f != SerializedValue ==> SlotOf(plain, f) == SlotOf(st.slots, f);
      Success(Entry(st.core, st.docLabel, st.referencedComponentId, ct.value, st.referenceSetId,
                    st.referenceSetType, st.classAxioms, st.gciAxioms,
                    dataType, v.b, v.d, v.i, v.s, plain))
  }

  /** A builder state is a copy of the document, except for its docLabel. */
  predicate Copies(st: BuilderState, e: Entry) {
    && st.core == e.core
    && st.docLabel == None
    && st.referencedComponentId == e.referencedComponentId
    && st.referencedComponentType == e.referencedComponentType
    && st.referenceSetId == e.referenceSetId
    && st.referenceSetType == e.referenceSetType
    && st.classAxioms == e.classAxioms
    && st.gciAxioms == e.gciAxioms
    && forall f :: SlotOf(st.slots, f) == FieldValue(e, f)
  }

  /** A copy of a well-formed document has typed slots. */
  lemma CopiesTyped(reg: Registry, st: BuilderState, e: Entry)
    requires WellFormed(reg, e) && Copies(st, e)
    ensures SlotsTyped(st.slots)
  {
    forall f | f in st.slots ensures KindFits(f, st.slots[f]) {
      assert SlotOf(st.slots, f) == FieldValue(e, f);
    }
  }

  /** The plain slots of a copy are the document's. */
  lemma CopiesPlain(reg: Registry, st: BuilderState, e: Entry)
    requires WellFormed(reg, e) && Copies(st, e)
    ensures st.slots - {DataTypeField, SerializedValue} == e.plain
  {
    var plain := st.slots - {DataTypeField, SerializedValue};
    forall f ensures SlotOf(plain, f) == SlotOf(e.plain, f) {
      if f != DataTypeField && f != SerializedValue {
        assert SlotOf(st.slots, f) == FieldValue(e, f);
      }
    }
    forall f ensures f in plain <==> f in e.plain {
      assert SlotOf(plain, f) == SlotOf(e.plain, f);
    }
    forall f | f in plain ensures plain[f] == e.plain[f] {
      assert SlotOf(plain, f) == SlotOf(e.plain, f);
    }
  }

  /** Storing the copied value refills the value slots of the document. */
  lemma CopiesValues(reg: Registry, de: Deserializer, st: BuilderState, e: Entry)
    requires WellFormed(reg, e) && Copies(st, e)
    ensures SlotsTyped(st.slots)
    ensures DeclaredType(st.slots) == e.dataType
    ensures StoreValue(DeclaredType(st.slots), SlotOf(st.slots, SerializedValue), de) ==
      Success(ValueSlots(e.booleanValue, e.decimalValue, e.integerValue, e.stringValue))
  {
    CopiesTyped(reg, st, e);
    assert SlotOf(st.slots, DataTypeField) == FieldValue(e, DataTypeField);
    assert SlotOf(st.slots, SerializedValue) == FieldValue(e, SerializedValue);
  }

  /** Copying a document into a builder and building again gives the same
      document, with its docLabel dropped. */
  lemma RebuildsSource(reg: Registry, de: Deserializer, st: BuilderState, e: Entry)
    requires WellFormed(reg, e)
    requires Copies(st, e)
    ensures SlotsTyped(st.slots)
    ensures Built(st, reg, de) == Success(e.(docLabel := None))
  {
    CopiesValues(reg, de, st, e);
    CopiesPlain(reg, st, e);
    assert ComponentTypeOf(reg, st.referencedComponentId, st.referencedComponentType) == Success(e.referencedComponentType);
  }

  /** The builder of a member document. The member-specific slots are a
      map from field to value; an absent key is a null slot. */
  class MemberBuilder {
    var core: Core
    var docLabel: Option<string>
    var referencedComponentId: Option<string>
    var referencedComponentType: int
    var referenceSetId: Option<string>
    var referenceSetType: Option<string>
    var classAxioms: Option<seq<string>>
    var gciAxioms: Option<seq<string>>
    var slots: map<MemberField, Value>

    function State(): BuilderState
      reads this
    {
      BuilderState(core, docLabel, referencedComponentId, referencedComponentType, referenceSetId,
                   referenceSetType, classAxioms, gciAxioms, slots)
    }

    /** Everything but the member-specific slots. */
    function Attributes(): BuilderState
      reads this
    {
      State().(slots := map[])
    }

    function Slot(f: MemberField): Option<Value>
      reads this
    {
      SlotOf(slots, f)
    }

    /** An empty builder: every slot null, the component type unspecified. */
    constructor(reg: Registry)
      ensures State() == BuilderState(Core(None, None, None, None, None), None, None, reg.unspecified,
                                      None, None, None, None, map[])
    {
      core := Core(None, None, None, None, None);
      docLabel := None;
      referencedComponentId := None;
      referencedComponentType := reg.unspecified;
      referenceSetId := None;
      referenceSetType := None;
      classAxioms := None;
      gciAxioms := None;
      slots := map[];
    }

    /** A builder holding a copy of the document: the core attributes are
        copied and the additional fields are fed back by name. */
    constructor FromSource(reg: Registry, nameOf: MemberField -> string, e: Entry)
      requires Injective(nameOf)
      requires WellFormed(reg, e)
      ensures Copies(State(), e)
      ensures SlotsTyped(slots)
    {
      core := e.core;
      docLabel := None;
      referencedComponentId := e.referencedComponentId;
      referencedComponentType := e.referencedComponentType;
      referenceSetId := e.referenceSetId;
      referenceSetType := e.referenceSetType;
      classAxioms := e.classAxioms;
      gciAxioms := e.gciAxioms;
      slots := map[];
      new;
      var fields := AdditionalFields(e, nameOf);
      forall n | n in fields ensures Accepts(nameOf, n, Some(fields[n])) {
        var f := FieldNamed(nameOf, n).value;
        assert nameOf(f) in fields;
        if f in e.plain {
          assert KindFits(f, e.plain[f]);
        }
      }
      var r := Fields(nameOf, fields);
    }

    /** Assigns the slot a known field name selects; an unknown name or a
        value of another class is refused and nothing changes. */
    method Field(nameOf: MemberField -> string, name: string, v: Option<Value>) returns (r: Result<(), MemberError>)
      requires Injective(nameOf)
      requires SlotsTyped(slots)
      modifies this
      ensures SlotsTyped(slots)
      ensures r.Success? <==> Accepts(nameOf, name, v)
      ensures FieldNamed(nameOf, name).None? ==> r == Failure(UnknownField(name))
      ensures r.Success? ==> forall f :: Slot(f) == (if nameOf(f) == name then v else old(Slot(f)))
      ensures r.Failure? ==> slots == old(slots)
      ensures Attributes() == old(Attributes())
    {
      var f := FieldNamed(nameOf, name);
      if f.None? {
        return Failure(UnknownField(name));
      }
      var field := f.value;
      match v {
        case None =>
          ClearSlot(slots, nameOf, field);
          slots := slots - {field};
        case Some(value) =>
          if !KindFits(field, value) {
            return Failure(ClassCast(name));
          }
          SetSlot(slots, nameOf, field, value);
          slots := slots[field := value];
      }
      r := Success(());
    }

    /** Feeds every entry of a map through the field dispatch, in the map's
        iteration order; the first refused entry stops the feed. */
    method Fields(nameOf: MemberField -> string, m: map<string, Value>) returns (r: Result<(), MemberError>)
      requires Injective(nameOf)
      requires SlotsTyped(slots)
      modifies this
      ensures SlotsTyped(slots)
      ensures r.Success? <==> forall n :: n in m ==> Accepts(nameOf, n, Some(m[n]))
      ensures r.Success? ==> forall f :: Slot(f) == (if nameOf(f) in m then Some(m[nameOf(f)]) else old(Slot(f)))
      ensures Attributes() == old(Attributes())
    {
      var rest := m.Keys;
      ghost var done: set<string> := {};
      while rest != {}
        invariant rest + done == m.Keys && rest !! done
        invariant SlotsTyped(slots)
        invariant forall n :: n in done ==> Accepts(nameOf, n, Some(m[n]))
        invariant forall f :: Slot(f) == (if nameOf(f) in done then Some(m[nameOf(f)]) else old(Slot(f)))
        invariant Attributes() == old(Attributes())
        decreases rest
      {
        var n :| n in rest;
        var res := Field(nameOf, n, Some(m[n]));
        if res.Failure? {
          return Failure(res.error);
        }
        rest := rest - {n};
        done := done + {n};
      }
      r := Success(());
    }

    /** Builds the document: validates the component type and stores the
        value in the slot of the declared data type. */
    method Build(reg: Registry, de: Deserializer) returns (r: Result<Entry, MemberError>)
      requires SlotsTyped(slots)
      ensures r == Built(State(), reg, de)
    {
      var ct := ComponentTypeOf(reg, referencedComponentId, referencedComponentType);
      if ct.Failure? {
        return Failure(ct.error);
      }
      var dataType := if DataTypeField in slots then Some(slots[DataTypeField].t) else None;
      var stored := StoreValue(dataType, Slot(SerializedValue), de);
      if stored.Failure? {
        return Failure(stored.error);
      }
      var v := stored.value;
      r := Success(Entry(core, docLabel, referencedComponentId, ct.value, referenceSetId,
                         referenceSetType, classAxioms, gciAxioms,
                         dataType, v.b, v.d, v.i, v.s, slots - {DataTypeField, SerializedValue}));
    }
  }

  // ---------------------------------------------------------------------
  // Query expressions
  // ---------------------------------------------------------------------

  /** Whether a document matches an expression; ranges include both ends. */
  predicate Satisfies(e: Entry, x: Expr) {
    var v := Indexed(e, x.field);
    match x
    case Match(_, value) => v == Some(value)
    case MatchAny(_, values) => v.Some? && v.value in values
    case MatchRange(_, lower, upper) => v.Some? && v.value.Int? && lower <= v.value.i <= upper
  }

  /** The filter on concrete-domain values: a boolean filter takes exactly
      one boolean, the other types keep the values of their class. */
  function ValuesFilter(t: DataType, vs: seq<Value>): (r: Result<Expr, MemberError>)
    ensures |vs| > 1 && t == BooleanData ==> r == Failure(BadRequest)
    ensures r.Success? <==> (t == BooleanData ==> |vs| == 1 && vs[0].Bool?)
  {
    match t
    case BooleanData =>
      if |vs| > 1 then Failure(BadRequest)
      else if |vs| == 0 then Failure(NoSuchElement)
      else if !vs[0].Bool? then Failure(ClassCast("values"))
      else Success(Match(BooleanValueField, vs[0]))
    case StringData => Success(MatchAny(StringValueField, set v | v in vs && v.Str?))
    case IntegerData => Success(MatchAny(IntegerValueField, set v | v in vs && v.Int?))
    case DecimalData => Success(MatchAny(DecimalValueField, set v | v in vs && v.Dec?))
  }

  /** A document of the filtered type matches the values filter exactly
      when its value is one of the listed values. */
  lemma ValuesFilterMatchesListedValues(t: DataType, vs: seq<Value>, e: Entry)
    requires e.dataType == Some(t)
    requires ValuesFilter(t, vs).Success?
    ensures Satisfies(e, ValuesFilter(t, vs).value) <==> GetValue(e).Some? && GetValue(e).value in vs
  {
  }

  function RelationshipGroupFilter(group: int): Expr {
    Match(RelationshipGroupField, Int(group))
  }

  /** The relationship group range filter; an empty range is refused. */
  function RelationshipGroupRange(start: int, end: int): (r: Result<Expr, MemberError>)
    ensures r.Failure? <==> start > end
    ensures r.Failure? ==> r.error == IllegalArgument
  {
    if start > end then Failure(IllegalArgument)
    else if start == end then Success(RelationshipGroupFilter(start))
    else Success(MatchRange(RelationshipGroupField, start, end))
  }

  /** Collapsing an equal-ended range to an exact match loses nothing: the
      filter matches exactly the groups between the two ends. */
  lemma RelationshipGroupRangeMatches(start: int, end: int, e: Entry)
    requires start <= end
    ensures Satisfies(e, RelationshipGroupRange(start, end).value) <==>
      (var g := SlotOf(e.plain, RelationshipGroup); g.Some? && g.value.Int? && start <= g.value.i <= end)
  {
  }
}
