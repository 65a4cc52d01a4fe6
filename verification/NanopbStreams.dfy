/** Messages in normal form, through the encoder's and the decoder's streams. */
module NanopbStreams {
  import opened Bits
  import opened Bytes
  import opened Wire
  import opened NanopbMessage
  import opened NanopbEncode
  import opened NanopbDecode
  import opened NanopbRoundTrip
  import opened NanopbWriter
  import opened NanopbReader
  import opened NanopbSink

  // A message in normal form is a struct the encoder can be given.

  /** What is not sent because it is zero has an empty encoding. */
  lemma {:induction false} ZeroTyped(f: Field, v: Value)
    requires FieldOk(f) && ValueOk(f, v) && IsZero(f, v)
    ensures Typed(f, v)
    decreases f, 0
  {
    if v.Rec? {
      DefaultsTyped(f.sub, v.slots);
    }
  }

  lemma {:induction false} DefaultsTyped(fields: seq<Field>, slots: seq<Slot>)
    requires FieldsOk(fields) && MessageOk(fields, slots) && AllDefault(fields, slots)
    ensures StructOf(fields, slots) && EncMessage(fields, slots) == Some([])
    decreases fields, 0
  {
    forall i | 0 <= i < |fields|
      ensures fields[i].tag < TWO_32 && SlotTyped(fields[i], slots[i]) && FieldRecords(fields[i], slots[i]) == Some([])
    {
      assert FieldOk(fields[i]) && SlotOk(fields[i], slots[i]) && IsDefault(fields[i], slots[i]);
      if slots[i].One? {
        ZeroTyped(fields[i], slots[i].v);
      }
    }
    NoRecords(fields, slots);
  }

  lemma {:induction false} NoRecords(fields: seq<Field>, slots: seq<Slot>)
    requires |fields| == |slots| && forall i | 0 <= i < |fields| :: FieldRecords(fields[i], slots[i]) == Some([])
    ensures Records(fields, slots) == Some([])
  {
    if |fields| > 0 {
      forall i | 0 <= i < |fields[1..]| ensures FieldRecords(fields[1..][i], slots[1..][i]) == Some([]) {
        assert fields[1..][i] == fields[i + 1] && slots[1..][i] == slots[i + 1];
      }
      NoRecords(fields[1..], slots[1..]);
      assert FieldRecords(fields[0], slots[0]).value + Records(fields[1..], slots[1..]).value == [];
    }
  }

  /** The records of a field are among those of the message. */
  lemma {:induction false} FieldWithin(fields: seq<Field>, slots: seq<Slot>, i: nat)
    requires i < |fields| == |slots| && Records(fields, slots).Some?
    ensures FieldRecords(fields[i], slots[i]).Some?
    ensures forall r <- FieldRecords(fields[i], slots[i]).value :: r in Records(fields, slots).value
  {
    if i > 0 {
      assert fields[1..][i - 1] == fields[i] && slots[1..][i - 1] == slots[i];
      FieldWithin(fields[1..], slots[1..], i - 1);
    }
  }

  predicate Fits32(bs: Option<seq<byte>>) { bs.Some? && |bs.value| < TWO_32 }

  ghost predicate ShortRecords(recs: Option<seq<seq<byte>>>) { recs.Some? && Short(recs.value) }

  lemma {:induction false} ValueTyped(f: Field, v: Value)
    requires FieldOk(f) && ValueOk(f, v) && Fits32(EncValue(f, v))
    ensures Typed(f, v)
    decreases f, 0
  {
    if f.ltype.SubmessageT? {
      RecordsShort(f.sub, v.slots);
      MessageIsStruct(f.sub, v.slots);
    } else if f.ltype.StringT? {
      StringShort(f, v);
    }
  }

  lemma {:induction false} ItemsAreTyped(f: Field, items: seq<Value>)
    requires FieldOk(f) && (forall v <- items :: ValueOk(f, v)) && !f.ltype.Packable()
    requires ShortRecords(TaggedItems(f, items))
    ensures forall v <- items :: Typed(f, v)
    decreases f, 1, |items|
  {
    if |items| > 0 {
      var first, rest := Tagged(f, items[0]).value, TaggedItems(f, items[1..]).value;
      assert TaggedItems(f, items).value == [first] + rest && first in [first] + rest;
      ValueTyped(f, items[0]);
      ItemsAreTyped(f, items[1..]);
      assert items == [items[0]] + items[1..];
    }
  }

  lemma ArrayTyped(f: Field, items: seq<Value>)
    requires FieldOk(f) && (forall v <- items :: ValueOk(f, v))
    requires ShortRecords(ArrayRecords(f, items))
    ensures ItemsTyped(f, items)
    decreases f, 2, 0
  {
    if |items| > 0 {
      if f.ltype.Packable() {
        PackedRecord(f, items);
      } else {
        ItemsAreTyped(f, items);
      }
    }
  }

  lemma {:induction false} SlotIsTyped(f: Field, s: Slot)
    requires FieldOk(f) && SlotOk(f, s)
    requires ShortRecords(FieldRecords(f, s))
    ensures SlotTyped(f, s)
    decreases f, 3, 0
  {
    match s
    case One(v) =>
      if f.htype.Singular? && IsZero(f, v) {
        ZeroTyped(f, v);
      } else {
        assert Tagged(f, v).value in FieldRecords(f, s).value;
        ValueTyped(f, v);
      }
    case Opt(has, v) =>
      if has {
        assert Tagged(f, v).value in FieldRecords(f, s).value;
        ValueTyped(f, v);
      }
    case Many(items) => ArrayTyped(f, items);
    case Choice(picked) =>
      if picked.Some? {
        assert Tagged(f, picked.value).value in FieldRecords(f, s).value;
        ValueTyped(f, picked.value);
      }
  }

  lemma {:induction false} MessageIsStruct(fields: seq<Field>, slots: seq<Slot>)
    requires FieldsOk(fields) && MessageOk(fields, slots) && ShortRecords(Records(fields, slots))
    ensures StructOf(fields, slots)
    decreases fields, 0, 0
  {
    forall i | 0 <= i < |fields| ensures fields[i].tag < TWO_32 && SlotTyped(fields[i], slots[i]) {
      assert FieldOk(fields[i]) && SlotOk(fields[i], slots[i]);
      FieldWithin(fields, slots, i);
      SlotIsTyped(fields[i], slots[i]);
    }
  }

  lemma {:induction false} FieldsDistinct(fields: seq<Field>)
    requires FieldsOk(fields)
    ensures Distinct(fields)
  {
    forall f | f in fields ensures Distinct(f.sub) {
      assert FieldOk(f);
      FieldsDistinct(f.sub);
    }
  }

  /** A message in normal form, encoded into a buffer and decoded from what was written:
      it succeeds exactly if the buffer is long enough, and gives back the message. */
  method ThroughBuffer(fields: seq<Field>, slots: seq<Slot>, buffer: array<byte>) returns (back: Option<seq<Slot>>)
    requires FieldsOk(fields) && MessageOk(fields, slots) && ShortRecords(Records(fields, slots))
    modifies buffer
    ensures back == if |EncMessage(fields, slots).value| <= buffer.Length then Some(slots) else None
  {
    MessageIsStruct(fields, slots);
    FieldsDistinct(fields);
    MessageRoundTrip(fields, slots);
    hide StructOf, FieldsOk, MessageOk, EncMessage, DecNoInit, Distinct;
    var out := new OStream.Over(buffer, 0, buffer.Length);
    ghost var start := out.State();
    var ok := out.Encode(fields, slots);
    if !ok {
      return None;
    }
    assert buffer[..out.written] == EncMessage(fields, slots).value;
    var stream := new IStream(buffer[..out.written]);
    back := stream.Decode(fields);
  }
}
