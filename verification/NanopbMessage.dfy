/**
 nanopb message descriptors and the values of the structs they describe.  Fields are
 statically allocated; sizes are those of a build with 32-bit pb_size_t.
 */
module NanopbMessage {
  import opened Bits
  import opened Bytes

  datatype LType =
    | VarintT | UVarintT | SVarintT | Fixed32T | Fixed64T
    | BytesT | StringT | SubmessageT | FixedLengthBytesT
  {
    predicate Packable() { VarintT? || UVarintT? || SVarintT? || Fixed32T? || Fixed64T? }
  }

  /** Required and Optional are proto2, Optional with a has_ flag; Singular is proto3;
      Repeated has a count, FixedCount has none; OneOf names the union it shares. */
  datatype HType = Required | Optional | Singular | Repeated | FixedCount | OneOf(union: nat)
  {
    predicate Array() { Repeated? || FixedCount? }
  }

  datatype Field = Field(tag: nat, ltype: LType, htype: HType, dataSize: nat, arraySize: nat,
                         sub: seq<Field>, dflt: Option<Value>)

  datatype Value = Num(n: int) | Blob(bs: seq<byte>) | Rec(slots: seq<Slot>)

  /** What the struct holds for a field; in a union all members but the picked one are None. */
  datatype Slot = One(v: Value) | Opt(has: bool, v: Value) | Many(items: seq<Value>) | Choice(picked: Option<Value>)

  const BYTES_HEADER: nat := 4
  const PB_SIZE_MAX: nat := 0xFFFF_FFFF
  const PB_MAX_REQUIRED_FIELDS: nat := 64

  // Default values.

  function Zeros(n: nat): seq<byte> { seq(n, i => 0) }

  function DefaultValue(f: Field): Value
    decreases f, 0
  {
    if f.ltype.SubmessageT? then Rec(Defaults(f.sub))
    else match f.dflt
      case Some(v) => v
      case None =>
        if f.ltype.Packable() then Num(0)
        else Blob(if f.ltype.FixedLengthBytesT? then Zeros(f.dataSize) else [])
  }

  function DefaultSlot(f: Field): Slot
    decreases f, 1
  {
    match f.htype
    case Required => One(DefaultValue(f))
    case Singular => One(DefaultValue(f))
    case Optional => Opt(false, DefaultValue(f))
    case Repeated => Many([])
    case FixedCount => Many([])
    case OneOf(_) => Choice(None)
  }

  function Defaults(fields: seq<Field>): (slots: seq<Slot>)
    ensures |slots| == |fields|
  {
    if |fields| == 0 then [] else [DefaultSlot(fields[0])] + Defaults(fields[1..])
  }

  lemma {:induction false} DefaultsAt(fields: seq<Field>, i: nat)
    requires i < |fields|
    ensures Defaults(fields)[i] == DefaultSlot(fields[i])
  {
    if i > 0 {
      DefaultsAt(fields[1..], i - 1);
    }
  }

  // Descriptors the generator emits.

  predicate ValidSize(f: Field) { f.dataSize == 1 || f.dataSize == 2 || f.dataSize == 4 || f.dataSize == 8 }

  /** tags are distinct and encodable, and sizes fit the types. */
  predicate FieldOk(f: Field)
    decreases f
  {
    && 1 <= f.tag < 0x2000_0000
    && (f.ltype in {VarintT, UVarintT, SVarintT} ==> ValidSize(f))
    && (f.htype == Singular ==> f.dflt == None)
    && (f.ltype.FixedLengthBytesT? ==> f.dataSize <= PB_SIZE_MAX)
    && FieldsOk(f.sub)
    && (f.htype == Singular && f.ltype.SubmessageT? ==> NoFixedCount(f.sub))
  }

  predicate FieldsOk(fields: seq<Field>) {
    && (forall i, j | 0 <= i < j < |fields| :: fields[i].tag != fields[j].tag)
    && forall f <- fields :: FieldOk(f)
  }

  /** No fixed-count array anywhere in the fields of a proto3 submessage. */
  predicate NoFixedCount(fields: seq<Field>) {
    forall f <- fields ::
      !f.htype.FixedCount? && (f.htype.Singular? && f.ltype.SubmessageT? ==> NoFixedCount(f.sub))
  }

  // Messages in bounds and in normal form.

  predicate InRange(f: Field, n: int) {
    if f.ltype.Fixed32T? then 0 <= n < 0x1_0000_0000
    else if f.ltype.Fixed64T? then 0 <= n < 0x1_0000_0000_0000_0000
    else if f.ltype.UVarintT? then 0 <= n < Pow2(8 * f.dataSize)
    else f.dataSize > 0 && 0 - Half(f) <= n < Half(f)
  }

  /** Half the range of a signed field. */
  function Half(f: Field): int
    requires f.dataSize > 0
  {
    Pow2(8 * f.dataSize - 1)
  }

  ghost predicate ValueOk(f: Field, v: Value)
    decreases f, 0
  {
    if f.ltype.Packable() then v.Num? && InRange(f, v.n)
    else if f.ltype.BytesT? then v.Blob? && |v.bs| + BYTES_HEADER <= f.dataSize && |v.bs| <= PB_SIZE_MAX
    else if f.ltype.StringT? then v.Blob? && |v.bs| + 1 <= f.dataSize && 0 !in v.bs
    else if f.ltype.FixedLengthBytesT? then v.Blob? && |v.bs| == f.dataSize
    else v.Rec? && MessageOk(f.sub, v.slots)
  }

  /** The slot holds in-bounds data of its field, and the default where it is absent. */
  ghost predicate SlotOk(f: Field, s: Slot)
    decreases f, 1
  {
    match f.htype
    case Required => s.One? && ValueOk(f, s.v)
    case Singular => s.One? && ValueOk(f, s.v)
    case Optional => s.Opt? && (if s.has then ValueOk(f, s.v) else s.v == DefaultValue(f))
    case Repeated => s.Many? && |s.items| <= f.arraySize && forall v <- s.items :: ValueOk(f, v)
    case FixedCount => s.Many? && |s.items| == f.arraySize && forall v <- s.items :: ValueOk(f, v)
    case OneOf(_) => s.Choice? && (s.picked.Some? ==> ValueOk(f, s.picked.value))
  }

  /** A message in bounds and in normal form: every slot fits its field, and at most
      one member of each union is picked. */
  ghost predicate MessageOk(fields: seq<Field>, slots: seq<Slot>)
    decreases fields, 0
  {
    && |slots| == |fields|
    && (forall i | 0 <= i < |fields| :: SlotOk(fields[i], slots[i]))
    && forall i, j | 0 <= i < j < |fields| && SameUnion(fields[i], fields[j]) ::
         !(Picked(slots[i]) && Picked(slots[j]))
  }

  predicate SameUnion(f: Field, g: Field) { f.htype.OneOf? && f.htype == g.htype }

  predicate Picked(s: Slot) { s.Choice? && s.picked.Some? }

  // The zero check that decides whether a proto3 field is sent.

  predicate IsZero(f: Field, v: Value)
    decreases f, 0
  {
    match v
    case Num(n) => n == 0
    case Blob(bs) =>
      if f.ltype.FixedLengthBytesT? then f.dataSize == 0
      else |bs| == 0 || (f.ltype.StringT? && bs[0] == 0)
    case Rec(slots) => AllDefault(f.sub, slots)
  }

  predicate IsDefault(f: Field, s: Slot)
    decreases f, 1
  {
    match s
    case One(v) => f.htype != Required && IsZero(f, v)
    case Opt(has, _) => !has
    case Many(items) => |items| == 0
    case Choice(picked) => picked.None?
  }

  predicate AllDefault(fields: seq<Field>, slots: seq<Slot>) {
    |slots| == |fields| && forall i | 0 <= i < |fields| :: IsDefault(fields[i], slots[i])
  }

  /** In a message in normal form, a value the zero check skips is the default value. */
  lemma {:induction false} ZeroIsDefault(f: Field, v: Value)
    requires FieldOk(f) && ValueOk(f, v) && IsZero(f, v) && f.dflt == None
    ensures v == DefaultValue(f)
    decreases f, 0
  {
    match v
    case Num(_) =>
    case Blob(_) =>
    case Rec(slots) => AllDefaultIsDefaults(f.sub, slots);
  }

  lemma {:induction false} AllDefaultIsDefaults(fields: seq<Field>, slots: seq<Slot>)
    requires FieldsOk(fields) && MessageOk(fields, slots) && AllDefault(fields, slots)
    ensures slots == Defaults(fields)
    decreases fields, 0
  {
    forall i | 0 <= i < |fields| ensures slots[i] == Defaults(fields)[i] {
      DefaultsAt(fields, i);
      assert IsDefault(fields[i], slots[i]) && SlotOk(fields[i], slots[i]) && FieldOk(fields[i]);
      if fields[i].htype.Singular? {
        ZeroIsDefault(fields[i], slots[i].v);
      }
    }
  }
}
