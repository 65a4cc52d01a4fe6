/** The format on the wire: what every reader can pass over, what ends a message, and what
    is refused or kept exact. */
module NanopbFormat {
  import opened Bits
  import opened Bytes
  import opened Wire
  import opened NanopbMessage
  import opened NanopbEncode
  import opened NanopbDecode
  import opened NanopbRoundTrip
  import opened NanopbRequired

  // Readers that do not know the fields.

  lemma {:induction false} VarintPassed(n: nat, rest: seq<byte>)
    ensures SkipVarint(Varint(n) + rest) == Some(rest)
    decreases n
  {
    var s := Varint(n) + rest;
    if n < 128 {
      assert s[1..] == rest;
    } else {
      VarintPassed(n / 128, rest);
      assert s[1..] == Varint(n / 128) + rest;
    }
  }

  /** What is written for a value is skipped by its wire type. */
  lemma ValuePassed(f: Field, v: Value, rest: seq<byte>)
    requires EncValue(f, v).Some? && |EncValue(f, v).value| < TWO_32
    ensures SkipField(EncValue(f, v).value + rest, WireType(f.ltype)) == Some(rest)
  {
    hide SkipVarint, Decode32, Varint, EncMessage, LeBytes, ZigZag, StrNLen;
    var bs := EncValue(f, v).value;
    if f.ltype.Packable() {
      if f.ltype.Fixed32T? {
        assert (bs + rest)[4..] == rest;
      } else if f.ltype.Fixed64T? {
        assert (bs + rest)[8..] == rest;
      } else {
        VarintPassed(if f.ltype.SVarintT? then ZigZag(v.n) % TWO_64 else v.n % TWO_64, rest);
      }
    } else {
      var content :| bs == Delimited(content);
      DelimitedPassed(content, rest);
    }
  }

  lemma DelimitedPassed(content: seq<byte>, rest: seq<byte>)
    requires |Delimited(content)| < TWO_32
    ensures SkipField(Delimited(content) + rest, WT_STRING) == Some(rest)
  {
    hide SkipVarint, Decode32, Varint;
    DelimitedRoundTrip(content, rest);
    assert (content + rest)[|content|..] == rest;
  }

  /** The record costs a reader that does not know its field one turn and nothing else. */
  ghost predicate Passed(older: seq<Field>, rec: seq<byte>) {
    |rec| > 0
    && forall st: State, rest: seq<byte> | |st.slots| == |older| :: OneTurn(older, st, rec + rest) == Next(st, rest)
  }

  predicate NotIn(older: seq<Field>, tag: nat) { forall g <- older :: g.tag != tag }

  lemma TaggedPassed(older: seq<Field>, tag: nat, wireType: nat, body: seq<byte>)
    requires 1 <= tag < 0x2000_0000 && wireType < 8 && NotIn(older, tag)
    requires forall rest :: SkipField(body + rest, wireType) == Some(rest)
    ensures Passed(older, Tag(tag, wireType) + body)
  {
    hide Decode32, SkipField, DecField;
    var rec := Tag(tag, wireType) + body;
    VarintNotEmpty(tag * 8 + wireType);
    assert (tag * 8 + wireType) / 8 == tag && (tag * 8 + wireType) % 8 == wireType;
    forall st: State, rest: seq<byte> | |st.slots| == |older| ensures OneTurn(older, st, rec + rest) == Next(st, rest) {
      TagRoundTrip(tag, wireType, body + rest);
      assert rec + rest == Tag(tag, wireType) + (body + rest);
      hide Tag;
      assert SkipField(body + rest, wireType) == Some(rest);
    }
  }

  lemma ValueRecordPassed(older: seq<Field>, f: Field, v: Value)
    requires 1 <= f.tag < 0x2000_0000 && NotIn(older, f.tag)
    requires Tagged(f, v).Some? && |Tagged(f, v).value| < TWO_32
    ensures Passed(older, Tagged(f, v).value)
  {
    hide Passed, SkipField, EncValue;
    var bs := EncValue(f, v).value;
    forall rest ensures SkipField(bs + rest, WireType(f.ltype)) == Some(rest) {
      ValuePassed(f, v, rest);
    }
    TaggedPassed(older, f.tag, WireType(f.ltype), bs);
  }

  lemma {:induction false} ItemPassed(older: seq<Field>, f: Field, items: seq<Value>, rec: seq<byte>)
    requires 1 <= f.tag < 0x2000_0000 && NotIn(older, f.tag)
    requires TaggedItems(f, items).Some? && rec in TaggedItems(f, items).value && |rec| < TWO_32
    ensures Passed(older, rec)
    decreases |items|
  {
    hide Passed, Tagged, NotIn;
    if rec == Tagged(f, items[0]).value {
      ValueRecordPassed(older, f, items[0]);
    } else {
      ItemPassed(older, f, items[1..], rec);
    }
  }

  lemma RecordPassed(older: seq<Field>, f: Field, s: Slot, rec: seq<byte>)
    requires 1 <= f.tag < 0x2000_0000 && NotIn(older, f.tag)
    requires FieldRecords(f, s).Some? && rec in FieldRecords(f, s).value && |rec| < TWO_32
    ensures Passed(older, rec)
  {
    hide Passed, Tagged, NotIn, TaggedItems, Payload, SkipField, Tag;
    match s
    case One(v) => ValueRecordPassed(older, f, v);
    case Opt(_, v) => ValueRecordPassed(older, f, v);
    case Choice(picked) => ValueRecordPassed(older, f, picked.value);
    case Many(items) =>
      if f.ltype.Packable() {
        var content := Payload(f, items).value;
        forall rest ensures SkipField(Delimited(content) + rest, WT_STRING) == Some(rest) {
          DelimitedPassed(content, rest);
        }
        TaggedPassed(older, f.tag, WT_STRING, Delimited(content));
      } else {
        ItemPassed(older, f, items, rec);
      }
  }

  lemma {:induction false} WalkPassed(older: seq<Field>, st: State, recs: seq<seq<byte>>)
    requires |st.slots| == |older| && forall r <- recs :: Passed(older, r)
    ensures Loop(older, st, Concat(recs)) == Some(st)
    decreases |recs|
  {
    if |recs| > 0 {
      assert Passed(older, recs[0]);
      assert OneTurn(older, st, recs[0] + Concat(recs[1..])) == Next(st, Concat(recs[1..]));
      WalkPassed(older, st, recs[1..]);
    }
  }

  lemma {:induction false} OneOfTheRecords(fields: seq<Field>, slots: seq<Slot>, rec: seq<byte>) returns (i: nat)
    requires Records(fields, slots).Some? && rec in Records(fields, slots).value
    ensures i < |fields| == |slots| && FieldRecords(fields[i], slots[i]).Some? && rec in FieldRecords(fields[i], slots[i]).value
  {
    if rec in FieldRecords(fields[0], slots[0]).value {
      i := 0;
    } else {
      var j := OneOfTheRecords(fields[1..], slots[1..], rec);
      i := j + 1;
    }
  }

  /** What is written for a message is passed over by a reader that knows none of its
      fields, in any state: each record says by its wire type how long it is. */
  lemma OlderReaderSkips(fields: seq<Field>, slots: seq<Slot>, older: seq<Field>, st: State)
    requires FieldsOk(fields) && Records(fields, slots).Some? && Short(Records(fields, slots).value)
    requires |st.slots| == |older| && forall f <- fields :: NotIn(older, f.tag)
    ensures Loop(older, st, EncMessage(fields, slots).value) == Some(st)
  {
    hide Passed, NotIn, FieldRecords, Records;
    var recs := Records(fields, slots).value;
    forall r | r in recs ensures Passed(older, r) {
      var i := OneOfTheRecords(fields, slots, r);
      TagOk(fields, i);
      RecordPassed(older, fields[i], slots[i], r);
    }
    WalkPassed(older, st, recs);
  }

  // What ends a message, and what is refused.

  /** A zero key ends a message, whatever is behind it. */
  lemma {:induction false} ZeroEnds(fields: seq<Field>, states: seq<State>, recs: seq<seq<byte>>, k: nat, junk: seq<byte>)
    requires Path(fields, states, recs) && k <= |recs|
    ensures Loop(fields, states[k], Concat(recs[k..]) + ([0] + junk)) == Some(states[|recs|])
    decreases |recs| - k
  {
    var tail := [0] + junk;
    if k == |recs| {
      ZeroKey(junk);
      assert Concat(recs[k..]) + tail == tail;
    } else {
      assert recs[k..][0] == recs[k] && recs[k..][1..] == recs[k + 1..];
      var rest := Concat(recs[k + 1..]) + tail;
      assert Concat(recs[k..]) + tail == recs[k] + rest;
      assert Reads(fields, states[k], recs[k], states[k + 1]);
      assert OneTurn(fields, states[k], recs[k] + rest) == Next(states[k + 1], rest);
      ZeroEnds(fields, states, recs, k + 1, junk);
    }
  }

  lemma ZeroKey(junk: seq<byte>)
    ensures Decode32([0] + junk) == Some((0, junk))
  {
    Decode32Inverts(0, junk);
    assert Varint(0) == [0];
  }

  lemma MessageBeforeZero(fields: seq<Field>, slots: seq<Slot>, junk: seq<byte>)
    requires FieldsOk(fields) && MessageOk(fields, slots)
    requires Records(fields, slots).Some? && Short(Records(fields, slots).value)
    ensures DecMessage(fields, EncMessage(fields, slots).value + ([0] + junk)) == Some(slots)
  {
    var recs := Records(fields, slots).value;
    assert fields[0..] == fields && slots[0..] == slots && recs[0..] == recs;
    var states := MessagePath(fields, slots, 0);
    ZeroEnds(fields, states, recs, 0, junk);
    StartsAtDefaults(fields, slots);
    FinishesWell(fields, slots);
  }

  /** Groups, and wire types there are not, are refused. */
  lemma WireTypeRefused(fields: seq<Field>, st: State, tag: nat, wireType: nat, rest: seq<byte>)
    requires |st.slots| == |fields| && 1 <= tag < 0x2000_0000 && NotIn(fields, tag) && wireType in {3, 4, 6, 7}
    ensures OneTurn(fields, st, Tag(tag, wireType) + rest) == Bad
  {
    hide Decode32, DecField, Tag;
    TagRoundTrip(tag, wireType, rest);
    assert (tag * 8 + wireType) / 8 == tag && (tag * 8 + wireType) % 8 == wireType;
  }

  /** A number that is read is the number that is there. */
  lemma NumberIsExact(f: Field, s: seq<byte>)
    requires f.ltype.Packable() && DecNumber(f, s).Some?
    ensures var n := DecNumber(f, s).value.0;
            if f.ltype.Fixed32T? then n == Le(s[..4])
            else if f.ltype.Fixed64T? then n == Le(s[..8])
            else
              var u := Decode64(s).value.0;
              n == if f.ltype.UVarintT? then u else if f.ltype.SVarintT? then UnZigZag(u)
                   else Signed(u, if f.dataSize == 8 then 64 else 32)
  {
    hide Pow2, Decode64, Le;
  }

  /** A string that is read is the bytes behind its length, all of them. */
  lemma BlobIsExact(f: Field, s: seq<byte>)
    requires DecBlob(f, s).Some? && !(f.ltype.FixedLengthBytesT? && Decode32(s).value.0 == 0)
    ensures Decode32(s).Some?
    ensures var (bs, rest) := DecBlob(f, s).value;
            |bs| == Decode32(s).value.0 && bs + rest == Decode32(s).value.1
  {
    hide Decode32;
  }

  // What is written and what is not.

  lemma FieldTakesNothing(f: Field, s: Slot)
    requires IsDefault(f, s) && FieldRecords(f, s).Some?
    ensures FieldRecords(f, s) == Some([])
  {
    hide Tagged, IsZero;
  }

  lemma {:induction false} NothingWritten(fields: seq<Field>, slots: seq<Slot>)
    requires AllDefault(fields, slots) && Records(fields, slots).Some?
    ensures Records(fields, slots) == Some([])
    decreases |fields|
  {
    hide FieldRecords, IsDefault;
    if |fields| > 0 {
      FieldTakesNothing(fields[0], slots[0]);
      var rest, restSlots := fields[1..], slots[1..];
      forall i | 0 <= i < |rest| ensures IsDefault(rest[i], restSlots[i]) {
        assert rest[i] == fields[i + 1] && restSlots[i] == slots[i + 1];
      }
      NothingWritten(rest, restSlots);
      assert FieldRecords(fields[0], slots[0]).value + Records(rest, restSlots).value == [];
    }
  }

  /** A message of nothing but defaults that need not be sent takes no byte. */
  lemma DefaultsTakeNothing(fields: seq<Field>, slots: seq<Slot>)
    requires AllDefault(fields, slots) && Records(fields, slots).Some?
    ensures EncMessage(fields, slots) == Some([])
  {
    NothingWritten(fields, slots);
  }

  /** A packed array is one record, and other arrays one for each entry. */
  lemma ArrayIsPacked(f: Field, items: seq<Value>)
    requires ArrayRecords(f, items).Some?
    ensures |ArrayRecords(f, items).value|
         == if f.ltype.Packable() && |items| > 0 then 1 else |items|
    ensures |items| <= f.arraySize || |items| == 0
  {
    hide Payload, Tagged;
    if !f.ltype.Packable() {
      OneEach(f, items);
    }
  }

  lemma {:induction false} OneEach(f: Field, items: seq<Value>)
    requires TaggedItems(f, items).Some?
    ensures |TaggedItems(f, items).value| == |items|
    decreases |items|
  {
    if |items| > 0 {
      OneEach(f, items[1..]);
    }
  }

  lemma FieldOnce(f: Field, s: Slot)
    requires FieldRecords(f, s).Some? && !UnpackedArray(f)
    ensures |FieldRecords(f, s).value| <= 1
  {
    hide Tagged, Payload, IsZero;
  }

  predicate UnpackedArray(f: Field) { f.htype.Array() && !f.ltype.Packable() }

  /** Records stand in the order of their fields, and no field but an array that is not
      packed has two. */
  lemma {:induction false} RecordsInOrder(fields: seq<Field>, slots: seq<Slot>, a: nat, b: nat) returns (i: nat, j: nat)
    requires Records(fields, slots).Some? && a < b < |Records(fields, slots).value|
    ensures i <= j < |fields| && (i == j ==> UnpackedArray(fields[i]))
    ensures Begins(Records(fields, slots).value[a], fields[i].tag) && Begins(Records(fields, slots).value[b], fields[j].tag)
    decreases |fields|
  {
    hide FieldRecords, Begins;
    var first, rest := FieldRecords(fields[0], slots[0]).value, Records(fields[1..], slots[1..]).value;
    if |first| <= a {
      i, j := RecordsInOrder(fields[1..], slots[1..], a - |first|, b - |first|);
      i, j := i + 1, j + 1;
    } else {
      RecordBegins(fields[0], slots[0], first[a]);
      if b < |first| {
        i, j := 0, 0;
        RecordBegins(fields[0], slots[0], first[b]);
        if !UnpackedArray(fields[0]) {
          FieldOnce(fields[0], slots[0]);
        }
      } else {
        var rec := rest[b - |first|];
        var k := OneOfTheRecords(fields[1..], slots[1..], rec);
        RecordBegins(fields[1..][k], slots[1..][k], rec);
        i, j := 0, k + 1;
      }
    }
  }

  /** Only strings that fit are written; yet a string that fills its array, and leaves no
      room for the terminator, is written and cannot be read back. */
  lemma UnterminatedString(f: Field, bs: seq<byte>, rest: seq<byte>, prior: Value)
    requires f.ltype.StringT? && 0 !in bs && |bs| == f.dataSize < TWO_32
    ensures EncValue(f, Blob(bs)) == Some(Delimited(bs))
    ensures DecValue(f, Delimited(bs) + rest, prior) == None
  {
    hide Decode32, Varint;
    WholeString(bs, f.dataSize);
    assert bs[..|bs|] == bs;
    DelimitedRoundTrip(bs, rest);
  }
}
