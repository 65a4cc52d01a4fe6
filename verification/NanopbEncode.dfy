/** What nanopb writes for a message: one record for every value or packed array. */
module NanopbEncode {
  import opened Bits
  import opened Bytes
  import opened Wire
  import opened NanopbMessage

  const WT_VARINT: nat := 0
  const WT_64BIT: nat := 1
  const WT_STRING: nat := 2
  const WT_32BIT: nat := 5

  function WireType(t: LType): (wt: nat)
    ensures wt < 8
  {
    if t.Fixed32T? then WT_32BIT
    else if t.Fixed64T? then WT_64BIT
    else if t.Packable() then WT_VARINT
    else WT_STRING
  }

  function Tag(tag: nat, wireType: nat): seq<byte> { Varint(tag * 8 + wireType) }

  /** Length of the C string at the start of bs, at most max. */
  function StrNLen(bs: seq<byte>, max: nat): (n: nat)
    ensures n <= |bs| && n <= max
  {
    if max == 0 || |bs| == 0 || bs[0] == 0 then 0 else 1 + StrNLen(bs[1..], max - 1)
  }

  function Delimited(bs: seq<byte>): seq<byte> { Varint(|bs|) + bs }

  /** A number of a packable type; None for a size the encoder does not know. */
  function EncNumber(f: Field, n: int): Option<seq<byte>> {
    if f.ltype.Fixed32T? then Some(LeBytes(n % TWO_32, 4))
    else if f.ltype.Fixed64T? then Some(LeBytes(n % TWO_64, 8))
    else if !ValidSize(f) then None
    else if f.ltype.SVarintT? then Some(Varint(ZigZag(n) % TWO_64))
    else Some(Varint(n % TWO_64))
  }

  /** The value without its tag; None if it does not fit its field. */
  function EncValue(f: Field, v: Value): Option<seq<byte>>
    decreases f, 0, 0
  {
    if f.ltype.Packable() then if v.Num? then EncNumber(f, v.n) else None
    else if f.ltype.SubmessageT? then
      if !v.Rec? then None
      else
        var body := EncMessage(f.sub, v.slots);
        if body.None? then None else Some(Delimited(body.value))
    else if !v.Blob? then None
    else if f.ltype.BytesT? then
      if |v.bs| + BYTES_HEADER > f.dataSize then None else Some(Delimited(v.bs))
    else if f.ltype.StringT? then Some(Delimited(v.bs[..StrNLen(v.bs, f.dataSize)]))
    else if |v.bs| != f.dataSize then None
    else Some(Delimited(v.bs))
  }

  function Tagged(f: Field, v: Value): Option<seq<byte>>
    decreases f, 1, 0
  {
    var bs := EncValue(f, v);
    if bs.None? then None else Some(Tag(f.tag, WireType(f.ltype)) + bs.value)
  }

  /** The payload of a packed array. */
  function Payload(f: Field, items: seq<Value>): Option<seq<byte>>
    decreases f, 1, |items|
  {
    if |items| == 0 then Some([])
    else
      var first, rest := EncValue(f, items[0]), Payload(f, items[1..]);
      if first.None? || rest.None? then None else Some(first.value + rest.value)
  }

  /** The records of an array that is not packed. */
  function TaggedItems(f: Field, items: seq<Value>): Option<seq<seq<byte>>>
    decreases f, 2, |items|
  {
    if |items| == 0 then Some([])
    else
      var first, rest := Tagged(f, items[0]), TaggedItems(f, items[1..]);
      if first.None? || rest.None? then None else Some([first.value] + rest.value)
  }

  function ArrayRecords(f: Field, items: seq<Value>): Option<seq<seq<byte>>>
    decreases f, 3, 0
  {
    if |items| == 0 then Some([])
    else if |items| > f.arraySize then None
    else if f.ltype.Packable() then
      var payload := Payload(f, items);
      if payload.None? then None else Some([Tag(f.tag, WT_STRING) + Delimited(payload.value)])
    else TaggedItems(f, items)
  }

  function OneRecord(bs: Option<seq<byte>>): Option<seq<seq<byte>>> {
    if bs.None? then None else Some([bs.value])
  }

  /** The records of one field; None if the slot is not one of this field's, or does
      not fit. */
  function FieldRecords(f: Field, s: Slot): Option<seq<seq<byte>>>
    decreases f, 4, 0
  {
    match s
    case One(v) =>
      if f.htype.Singular? then if IsZero(f, v) then Some([]) else OneRecord(Tagged(f, v))
      else if f.htype.Required? then OneRecord(Tagged(f, v))
      else None
    case Opt(has, v) =>
      if !f.htype.Optional? then None
      else if has then OneRecord(Tagged(f, v))
      else Some([])
    case Many(items) =>
      if f.htype.Repeated? || (f.htype.FixedCount? && |items| == f.arraySize) then ArrayRecords(f, items)
      else None
    case Choice(picked) =>
      if !f.htype.OneOf? then None
      else if picked.Some? then OneRecord(Tagged(f, picked.value))
      else Some([])
  }

  /** The records of a message, field by field. */
  function Records(fields: seq<Field>, slots: seq<Slot>): Option<seq<seq<byte>>>
    decreases fields, 0, 0
  {
    if |fields| != |slots| then None
    else if |fields| == 0 then Some([])
    else
      var first, rest := FieldRecords(fields[0], slots[0]), Records(fields[1..], slots[1..]);
      if first.None? || rest.None? then None else Some(first.value + rest.value)
  }

  /** The encoding of a message; None exactly when the encoder reports an error other
      than a full stream. */
  function EncMessage(fields: seq<Field>, slots: seq<Slot>): Option<seq<byte>>
    decreases fields, 1, 0
  {
    var recs := Records(fields, slots);
    if recs.None? then None else Some(Concat(recs.value))
  }

  function Flat(recs: Option<seq<seq<byte>>>): Option<seq<byte>> {
    if recs.None? then None else Some(Concat(recs.value))
  }

  // The structs an encoder can be given.

  /** What is written, if anything, has a length a size_t can hold. */
  predicate Small(bs: Option<seq<byte>>) { bs.Some? ==> |bs.value| < TWO_64 }

  /** The value has the C type of its field; it may still be too long for it. */
  ghost predicate Typed(f: Field, v: Value)
    decreases f, 0
  {
    if f.ltype.Packable() then v.Num?
    else if f.ltype.SubmessageT? then v.Rec? && StructOf(f.sub, v.slots) && Small(EncMessage(f.sub, v.slots))
    else v.Blob? && |v.bs| < TWO_64 && (f.ltype.FixedLengthBytesT? ==> |v.bs| == f.dataSize)
  }

  ghost predicate SlotTyped(f: Field, s: Slot)
    decreases f, 2
  {
    match f.htype
    case Required => s.One? && Typed(f, s.v)
    case Singular => s.One? && Typed(f, s.v)
    case Optional => s.Opt? && (s.has ==> Typed(f, s.v))
    case Repeated => s.Many? && ItemsTyped(f, s.items)
    case FixedCount => s.Many? && |s.items| == f.arraySize && ItemsTyped(f, s.items)
    case OneOf(_) => s.Choice? && (s.picked.Some? ==> Typed(f, s.picked.value))
  }

  ghost predicate ItemsTyped(f: Field, items: seq<Value>)
    decreases f, 1
  {
    (forall v <- items :: Typed(f, v)) && (f.ltype.Packable() ==> Small(Payload(f, items)))
  }

  /** The slots are a struct the descriptor describes. */
  ghost predicate StructOf(fields: seq<Field>, slots: seq<Slot>)
    decreases fields, 0
  {
    |slots| == |fields| && forall i | 0 <= i < |fields| :: fields[i].tag < TWO_32 && SlotTyped(fields[i], slots[i])
  }

  lemma {:induction false} RecordWithin(recs: seq<seq<byte>>, k: nat)
    requires k < |recs|
    ensures |recs[k]| <= |Concat(recs)|
  {
    if k > 0 {
      RecordWithin(recs[1..], k - 1);
    }
  }
}
