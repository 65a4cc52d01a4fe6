/** Decoding inverts encoding, with or without unknown fields in between. */
module NanopbRoundTrip {
  import opened Bits
  import opened Bytes
  import opened Wire
  import opened NanopbMessage
  import opened NanopbEncode
  import opened NanopbDecode

  // Values.

  lemma SignedOfWord(n: int, bits: nat)
    requires bits in {32, 64} && 0 - Pow2(bits - 1) <= n < Pow2(bits - 1)
    ensures Signed(n % TWO_64, bits) == n
  {
    Pow2Widths();
    hide Pow2;
    SignedIdentity(n, bits);
    assert n % TWO_64 % TWO_32 == n % TWO_32;
  }

  lemma SizeWidths(f: Field)
    requires ValidSize(f)
    ensures Pow2(8 * f.dataSize) <= TWO_64 && Pow2(8 * f.dataSize - 1) <= Pow2(63)
    ensures f.dataSize != 8 ==> Pow2(8 * f.dataSize - 1) <= Pow2(31)
  {
    Pow2Widths();
    Pow2Monotone(8 * f.dataSize, 64);
    Pow2Monotone(8 * f.dataSize - 1, 63);
    if f.dataSize != 8 {
      Pow2Monotone(8 * f.dataSize - 1, 31);
    }
  }

  lemma UnsignedNumber(f: Field, n: int, rest: seq<byte>)
    requires f.ltype.UVarintT? && ValidSize(f) && InRange(f, n)
    ensures EncNumber(f, n) == Some(Varint(n))
    ensures DecNumber(f, Varint(n) + rest) == Some((n, rest))
  {
    SizeWidths(f);
    hide Pow2, Varint, Decode64;
    SmallMod(n, TWO_64);
    SmallMod(n, Pow2(8 * f.dataSize));
    Decode64Inverts(n, rest);
  }

  lemma ZigZagNumber(f: Field, n: int, rest: seq<byte>)
    requires f.ltype.SVarintT? && ValidSize(f) && InRange(f, n)
    ensures EncNumber(f, n) == Some(Varint(ZigZag(n)))
    ensures DecNumber(f, Varint(ZigZag(n)) + rest) == Some((n, rest))
  {
    hide Pow2, Varint, Decode64, Signed;
    SizeWidths(f);
    ZigZagFits(f, n);
    ZigZagInverts(n);
    hide ZigZag, UnZigZag;
    Decode64Inverts(ZigZag(n), rest);
    SignedIdentity(n, 8 * f.dataSize);
  }

  lemma ZigZagFits(f: Field, n: int)
    requires f.ltype.SVarintT? && ValidSize(f) && InRange(f, n)
    ensures ZigZag(n) < TWO_64 && ZigZag(n) % TWO_64 == ZigZag(n)
  {
    SizeWidths(f);
    Pow2Widths();
    hide Pow2;
    SmallMod(ZigZag(n), TWO_64);
  }

  lemma SignedNumber(f: Field, n: int, rest: seq<byte>)
    requires f.ltype.VarintT? && ValidSize(f) && InRange(f, n)
    ensures EncNumber(f, n) == Some(Varint(n % TWO_64))
    ensures DecNumber(f, Varint(n % TWO_64) + rest) == Some((n, rest))
  {
    hide Pow2, Varint, Decode64, Signed;
    SizeWidths(f);
    Decode64Inverts(n % TWO_64, rest);
    SignedWord(f, n);
    SignedDecodes(f, n % TWO_64, n, Varint(n % TWO_64) + rest, rest);
  }

  lemma SignedWord(f: Field, n: int)
    requires f.ltype.VarintT? && ValidSize(f) && InRange(f, n)
    ensures Signed(n % TWO_64, if f.dataSize == 8 then 64 else 32) == n == Signed(n, 8 * f.dataSize)
  {
    hide Pow2, Signed;
    SizeWidths(f);
    SignedOfWord(n, if f.dataSize == 8 then 64 else 32);
    SignedIdentity(n, 8 * f.dataSize);
  }

  lemma SignedDecodes(f: Field, w: nat, n: int, s: seq<byte>, rest: seq<byte>)
    requires f.ltype.VarintT? && ValidSize(f) && Decode64(s) == Some((w, rest))
    requires Signed(w, if f.dataSize == 8 then 64 else 32) == n == Signed(n, 8 * f.dataSize)
    ensures DecNumber(f, s) == Some((n, rest))
  {
    hide Pow2, Decode64, Signed;
  }

  lemma ZigZagInverts(n: int)
    ensures UnZigZag(ZigZag(n)) == n
  {
  }

  lemma FixedNumber(f: Field, n: int, rest: seq<byte>)
    requires (f.ltype.Fixed32T? || f.ltype.Fixed64T?) && InRange(f, n)
    ensures EncNumber(f, n).Some?
    ensures DecNumber(f, EncNumber(f, n).value + rest) == Some((n, rest))
  {
    var w := if f.ltype.Fixed32T? then 4 else 8;
    Pow2Widths();
    LeRoundTrip(n, w);
    hide Pow2, LeBytes, Le;
    SmallMod(n, Pow2(8 * w));
    var s := LeBytes(n, w) + rest;
    assert s[..w] == LeBytes(n, w) && s[w..] == rest;
  }

  lemma NumberRoundTrip(f: Field, n: int, rest: seq<byte>)
    requires f.ltype.Packable() && FieldOk(f) && InRange(f, n)
    ensures EncNumber(f, n).Some?
    ensures DecNumber(f, EncNumber(f, n).value + rest) == Some((n, rest))
  {
    hide EncNumber, DecNumber, InRange, Varint;
    if f.ltype.Fixed32T? || f.ltype.Fixed64T? { FixedNumber(f, n, rest); }
    else if f.ltype.UVarintT? { UnsignedNumber(f, n, rest); }
    else if f.ltype.SVarintT? { ZigZagNumber(f, n, rest); }
    else { SignedNumber(f, n, rest); }
  }

  lemma DelimitedRoundTrip(bs: seq<byte>, rest: seq<byte>)
    requires |bs| < TWO_32
    ensures Decode32(Delimited(bs) + rest) == Some((|bs|, bs + rest))
    ensures DecDelimited(Delimited(bs) + rest) == Some((bs, rest))
  {
    Decode32Inverts(|bs|, bs + rest);
    assert Delimited(bs) + rest == Varint(|bs|) + (bs + rest);
  }

  lemma {:induction false} WholeString(bs: seq<byte>, max: nat)
    requires 0 !in bs && |bs| <= max
    ensures StrNLen(bs, max) == |bs|
  {
    if |bs| > 0 {
      WholeString(bs[1..], max - 1);
    }
  }

  lemma BlobRoundTrip(f: Field, v: Value, rest: seq<byte>)
    requires !f.ltype.Packable() && !f.ltype.SubmessageT? && FieldOk(f) && ValueOk(f, v)
    requires |v.bs| < TWO_32
    ensures EncValue(f, v) == Some(Delimited(v.bs))
    ensures DecBlob(f, Delimited(v.bs) + rest) == Some((v.bs, rest))
  {
    hide Decode32, Varint;
    if f.ltype.StringT? {
      WholeString(v.bs, f.dataSize);
      assert v.bs[..|v.bs|] == v.bs;
    }
    DelimitedRoundTrip(v.bs, rest);
    if |v.bs| == 0 {
      assert v.bs + rest == rest && Zeros(0) == v.bs;
    }
  }

  // Messages: the decoder walks through the encoder's records, one turn for each.

  function SeenBefore(fields: seq<Field>, i: nat): set<nat>
    requires i <= |fields|
  {
    if i == 0 then {}
    else NoteRequired(fields, State([], SeenBefore(fields, i - 1), None), i - 1).seen
  }

  function LastFixed(fields: seq<Field>, i: nat): Option<nat>
    requires i <= |fields|
  {
    if i == 0 then None
    else if fields[i - 1].htype.FixedCount? && fields[i - 1].arraySize > 0 then Some(i - 1)
    else LastFixed(fields, i - 1)
  }

  /** The decoder's state when the fields before i are read, and the first j entries
      of field i if it is an array. */
  ghost function Progress(fields: seq<Field>, slots: seq<Slot>, i: nat, j: nat): (st: State)
    requires i <= |fields| == |slots|
    requires j > 0 ==> i < |fields| && j <= |Items(slots[i])|
    ensures |st.slots| == |fields|
  {
    var done := slots[..i] + Defaults(fields)[i..];
    if j == 0 then State(done, SeenBefore(fields, i), LastFixed(fields, i))
    else State(done[i := Many(Items(slots[i])[..j])], SeenBefore(fields, i),
               if fields[i].htype.FixedCount? then Some(i) else LastFixed(fields, i))
  }

  /** The record rec, whatever follows it, takes the decoder from st to st'. */
  ghost predicate Reads(fields: seq<Field>, st: State, rec: seq<byte>, st': State) {
    && |rec| > 0 && |st.slots| == |fields| == |st'.slots|
    && forall rest :: OneTurn(fields, st, rec + rest) == Next(st', rest)
  }

  ghost predicate Path(fields: seq<Field>, states: seq<State>, recs: seq<seq<byte>>) {
    && |states| == |recs| + 1
    && (forall st <- states :: |st.slots| == |fields|)
    && forall k | 0 <= k < |recs| :: Reads(fields, states[k], recs[k], states[k + 1])
  }

  lemma JoinPaths(fields: seq<Field>, a: seq<State>, p: seq<seq<byte>>, b: seq<State>, q: seq<seq<byte>>)
    requires Path(fields, a, p) && Path(fields, b, q) && a[|p|] == b[0]
    ensures Path(fields, a + b[1..], p + q)
    ensures (a + b[1..])[0] == a[0] && (a + b[1..])[|p + q|] == b[|q|]
  {
    hide Reads;
    var states, recs := a + b[1..], p + q;
    forall k | 0 <= k < |recs| ensures Reads(fields, states[k], recs[k], states[k + 1]) {
      if k < |p| {
        assert Reads(fields, a[k], p[k], a[k + 1]) && states[k] == a[k] && states[k + 1] == a[k + 1];
      } else {
        assert Reads(fields, b[k - |p|], q[k - |p|], b[k - |p| + 1]);
        assert states[k] == b[k - |p|] && states[k + 1] == b[k - |p| + 1];
      }
    }
  }

  lemma {:induction false} FindsField(fields: seq<Field>, i: nat)
    requires i < |fields|
    requires forall j, k | 0 <= j < k < |fields| :: fields[j].tag != fields[k].tag
    ensures Find(fields, fields[i].tag) == Some(i)
  {
    if i > 0 {
      assert fields[1..][i - 1] == fields[i];
      FindsField(fields[1..], i - 1);
    }
  }

  lemma TagRoundTrip(tag: nat, wireType: nat, rest: seq<byte>)
    requires tag < 0x2000_0000 && wireType < 8
    ensures Decode32(Tag(tag, wireType) + rest) == Some((tag * 8 + wireType, rest))
  {
    Decode32Inverts(tag * 8 + wireType, rest);
  }

  lemma TurnReadsBefore(fields: seq<Field>, st: State, i: nat, wireType: nat, body: seq<byte>, st': State, rest: seq<byte>)
    requires FieldsOk(fields) && i < |fields| && |st.slots| == |fields| && wireType < 8
    requires DecField(fields, st, i, wireType, body + rest) == Some((st', rest))
    ensures OneTurn(fields, st, Tag(fields[i].tag, wireType) + body + rest) == Next(st', rest)
  {
    FindsField(fields, i);
    assert FieldOk(fields[i]);
    TagInRange(fields[i]);
    hide Decode32, DecField, Find, FieldOk, FieldsOk, SkipField, Varint, Tag;
    var f := fields[i];
    TagRoundTrip(f.tag, wireType, body + rest);
    assert Tag(f.tag, wireType) + body + rest == Tag(f.tag, wireType) + (body + rest);
    assert (f.tag * 8 + wireType) / 8 == f.tag && (f.tag * 8 + wireType) % 8 == wireType;
  }

  /** A tagged body that DecField consumes whole is a record the decoder reads. */
  lemma TurnReads(fields: seq<Field>, st: State, i: nat, wireType: nat, body: seq<byte>, st': State)
    requires FieldsOk(fields) && i < |fields| && |st.slots| == |fields| == |st'.slots| && wireType < 8
    requires forall rest :: DecField(fields, st, i, wireType, body + rest) == Some((st', rest))
    ensures Reads(fields, st, Tag(fields[i].tag, wireType) + body, st')
  {
    var rec := Tag(fields[i].tag, wireType) + body;
    forall rest ensures OneTurn(fields, st, rec + rest) == Next(st', rest) {
      TurnReadsBefore(fields, st, i, wireType, body, st', rest);
    }
  }

  lemma TagInRange(f: Field)
    requires FieldOk(f)
    ensures 1 <= f.tag < 0x2000_0000
  {
  }

  // One field.

  lemma ProgressSlots(fields: seq<Field>, slots: seq<Slot>, i: nat)
    requires i < |fields| == |slots|
    ensures Progress(fields, slots, i, 0).slots[i] == DefaultSlot(fields[i])
    ensures Progress(fields, slots, i + 1, 0).slots == Progress(fields, slots, i, 0).slots[i := slots[i]]
  {
    DefaultsAt(fields, i);
  }

  lemma {:induction false} LastFixedBefore(fields: seq<Field>, i: nat)
    requires i <= |fields|
    ensures var p := LastFixed(fields, i); p.Some? ==> p.value < i && fields[p.value].htype.FixedCount?
  {
    if i > 0 && !(fields[i - 1].htype.FixedCount? && fields[i - 1].arraySize > 0) {
      LastFixedBefore(fields, i - 1);
    }
  }

  lemma ProgressFixedComplete(fields: seq<Field>, slots: seq<Slot>, i: nat)
    requires MessageOk(fields, slots) && i <= |fields|
    ensures FixedComplete(fields, Progress(fields, slots, i, 0))
  {
    LastFixedBefore(fields, i);
    var p := LastFixed(fields, i);
    if p.Some? {
      assert SlotOk(fields[p.value], slots[p.value]);
    }
  }

  /** A field that is not sent leaves the default it must hold. */
  lemma SkippedField(fields: seq<Field>, slots: seq<Slot>, i: nat)
    requires MessageOk(fields, slots) && FieldsOk(fields) && i < |fields|
    requires FieldRecords(fields[i], slots[i]) == Some([])
    ensures Progress(fields, slots, i + 1, 0) == Progress(fields, slots, i, 0)
  {
    var f, s := fields[i], slots[i];
    assert SlotOk(f, s) && FieldOk(f);
    ProgressSlots(fields, slots, i);
    if s.One? {
      ZeroIsDefault(f, s.v);
    }
    if s.Many? && |s.items| > 0 {
      SomeRecord(f, s.items);
    }
    var before, after := Progress(fields, slots, i, 0), Progress(fields, slots, i + 1, 0);
    assert s == DefaultSlot(f);
    assert after.slots == before.slots;
  }

  lemma SomeRecord(f: Field, items: seq<Value>)
    requires |items| > 0 && ArrayRecords(f, items).Some?
    ensures |ArrayRecords(f, items).value| > 0
  {
  }

  /** A single value, sent as one record. */
  lemma SingleField(fields: seq<Field>, slots: seq<Slot>, i: nat, wireType: nat, bs: seq<byte>, v: Value, rest: seq<byte>)
    requires MessageOk(fields, slots) && i < |fields|
    requires slots[i] in {One(v), Opt(true, v), Choice(Some(v))}
    requires DecValue(fields[i], bs + rest, DefaultValue(fields[i])) == Some((v, rest))
    ensures DecField(fields, Progress(fields, slots, i, 0), i, wireType, bs + rest)
         == Some((Progress(fields, slots, i + 1, 0), rest))
  {
    var f, st := fields[i], Progress(fields, slots, i, 0);
    assert SlotOk(f, slots[i]);
    hide DecValue, DefaultValue, ValueOk, FixedComplete;
    ProgressSlots(fields, slots, i);
    if f.htype.OneOf? {
      forall j | 0 <= j < |fields| && j != i && SameUnion(f, fields[j])
        ensures st.slots[j] == Choice(None)
      {
        OthersUnpicked(fields, slots, i, j);
      }
      assert Pick(fields, st.slots, i, v) == st.slots[i := Choice(Some(v))];
    }
  }

  lemma OthersUnpicked(fields: seq<Field>, slots: seq<Slot>, i: nat, j: nat)
    requires MessageOk(fields, slots) && i < |fields| && j < |fields| && i != j
    requires Picked(slots[i]) && SameUnion(fields[i], fields[j])
    ensures Progress(fields, slots, i, 0).slots[j] == Choice(None)
  {
    DefaultsAt(fields, j);
    assert SlotOk(fields[j], slots[j]);
    assert SameUnion(fields[j], fields[i]);
    assert j < i ==> !Picked(slots[j]);
  }

  /** The decoder's state on entry to an array that has entries. */
  lemma EnterArray(fields: seq<Field>, slots: seq<Slot>, i: nat, j: nat)
    requires MessageOk(fields, slots) && i < |fields| && fields[i].htype.Array() && j <= |Items(slots[i])|
    ensures var entered := EnterFixed(fields, Progress(fields, slots, i, j), i);
            entered.Some? && entered.value.seen == SeenBefore(fields, i)
            && entered.value.slots == Progress(fields, slots, i, 0).slots[i := Many(Items(slots[i])[..j])]
            && entered.value.fixedField == (if fields[i].htype.FixedCount? then Some(i) else LastFixed(fields, i))
  {
    ProgressSlots(fields, slots, i);
    ProgressFixedComplete(fields, slots, i);
    LastFixedBefore(fields, i);
    hide DefaultSlot, FixedComplete;
    var st := Progress(fields, slots, i, j);
    assert Items(slots[i])[..0] == [];
    assert DefaultSlot(fields[i]) == Many([]);
  }

  /** One more entry of an array that is not packed. */
  lemma ArrayEntry(fields: seq<Field>, slots: seq<Slot>, i: nat, j: nat, wireType: nat, bs: seq<byte>, rest: seq<byte>)
    requires MessageOk(fields, slots) && i < |fields| && fields[i].htype.Array() && j < |Items(slots[i])|
    requires !fields[i].ltype.Packable()
    requires DecValue(fields[i], bs + rest, DefaultValue(fields[i])) == Some((Items(slots[i])[j], rest))
    ensures DecField(fields, Progress(fields, slots, i, j), i, wireType, bs + rest)
         == Some((Progress(fields, slots, i, j + 1), rest))
  {
    EnterArray(fields, slots, i, j);
    EnterArray(fields, slots, i, j + 1);
    assert SlotOk(fields[i], slots[i]);
    hide DecValue, DefaultValue, EnterFixed, ValueOk, Defaults, LastFixed;
    var items := Items(slots[i]);
    assert items[..j] + [items[j]] == items[..j + 1];
    UpdatedTwice(Progress(fields, slots, i, 0).slots, i, Many(items[..j]), Many(items[..j + 1]));
  }

  lemma UpdatedTwice(slots: seq<Slot>, i: nat, a: Slot, b: Slot)
    requires i < |slots|
    ensures slots[i := a][i := b] == slots[i := b]
  {
  }

  /** A whole packed array. */
  lemma PackedField(fields: seq<Field>, slots: seq<Slot>, i: nat, payload: seq<byte>, rest: seq<byte>)
    requires MessageOk(fields, slots) && i < |fields| && fields[i].htype.Array()
    requires fields[i].ltype.Packable() && |Items(slots[i])| > 0 && |payload| < TWO_32
    requires DecPacked(fields[i], payload, []) == Some(Items(slots[i]))
    ensures DecField(fields, Progress(fields, slots, i, 0), i, WT_STRING, Delimited(payload) + rest)
         == Some((Progress(fields, slots, i, |Items(slots[i])|), rest))
  {
    EnterArray(fields, slots, i, 0);
    DelimitedRoundTrip(payload, rest);
    hide DecPacked, DecDelimited, Delimited, EnterFixed, Defaults, LastFixed;
    var items := Items(slots[i]);
    assert items[..0] == [] && items[..|items|] == items;
    assert Progress(fields, slots, i, |items|).slots
        == Progress(fields, slots, i, 0).slots[i := Many([])][i := Many(items)];
  }

  /** An array is done when all its entries are read. */
  lemma ArrayDone(fields: seq<Field>, slots: seq<Slot>, i: nat)
    requires MessageOk(fields, slots) && i < |fields| && fields[i].htype.Array() && |Items(slots[i])| > 0
    ensures Progress(fields, slots, i, |Items(slots[i])|) == Progress(fields, slots, i + 1, 0)
  {
    ProgressSlots(fields, slots, i);
    assert SlotOk(fields[i], slots[i]);
    hide Defaults, ValueOk;
    var items := Items(slots[i]);
    assert items[..|items|] == items;
  }

  // Encodability: a message in bounds has an encoding.

  lemma {:induction false} ValueEncodes(f: Field, v: Value)
    requires FieldOk(f) && ValueOk(f, v)
    ensures EncValue(f, v).Some?
    decreases f, 0, 0
  {
    if f.ltype.SubmessageT? {
      MessageEncodes(f.sub, v.slots);
    } else if f.ltype.Packable() {
      NumberRoundTrip(f, v.n, []);
    }
  }

  lemma {:induction false} ItemsEncode(f: Field, items: seq<Value>)
    requires FieldOk(f) && forall v <- items :: ValueOk(f, v)
    ensures Payload(f, items).Some? && TaggedItems(f, items).Some?
    ensures |TaggedItems(f, items).value| == |items|
    ensures forall k | 0 <= k < |items| :: Tagged(f, items[k]) == Some(TaggedItems(f, items).value[k])
    decreases f, 1, |items|
  {
    if |items| > 0 {
      ValueEncodes(f, items[0]);
      ItemsEncode(f, items[1..]);
    }
  }

  lemma FieldEncodes(f: Field, s: Slot)
    requires FieldOk(f) && SlotOk(f, s)
    ensures FieldRecords(f, s).Some?
    decreases f, 2, 0
  {
    match s
    case One(v) => ValueEncodes(f, v);
    case Opt(has, v) => if has { ValueEncodes(f, v); }
    case Choice(picked) => if picked.Some? { ValueEncodes(f, picked.value); }
    case Many(items) => ItemsEncode(f, items);
  }

  lemma {:induction false} RecordsOf(fields: seq<Field>, slots: seq<Slot>)
    requires |fields| == |slots|
    requires forall i | 0 <= i < |fields| :: FieldRecords(fields[i], slots[i]).Some?
    ensures Records(fields, slots).Some?
  {
    if |fields| > 0 {
      forall i | 0 <= i < |fields[1..]| ensures FieldRecords(fields[1..][i], slots[1..][i]).Some? {
        assert fields[1..][i] == fields[i + 1] && slots[1..][i] == slots[i + 1];
      }
      RecordsOf(fields[1..], slots[1..]);
    }
  }

  /** Every message in bounds can be encoded. */
  lemma {:induction false} MessageEncodes(fields: seq<Field>, slots: seq<Slot>)
    requires FieldsOk(fields) && MessageOk(fields, slots)
    ensures EncMessage(fields, slots).Some?
    decreases fields, 0, 0
  {
    forall i | 0 <= i < |fields| ensures FieldRecords(fields[i], slots[i]).Some? {
      assert FieldOk(fields[i]) && SlotOk(fields[i], slots[i]);
      FieldEncodes(fields[i], slots[i]);
    }
    RecordsOf(fields, slots);
  }

  // The path through a whole message.

  lemma {:induction false} PackedRoundTrip(f: Field, items: seq<Value>, j: nat)
    requires FieldOk(f) && f.ltype.Packable() && j <= |items| <= f.arraySize
    requires forall v <- items :: ValueOk(f, v)
    ensures Payload(f, items[j..]).Some?
    ensures DecPacked(f, Payload(f, items[j..]).value, items[..j]) == Some(items)
    decreases |items| - j
  {
    ItemsEncode(f, items[j..]);
    if j == |items| {
      assert items[..j] == items;
    } else {
      var bs, rest := EncValue(f, items[j]).value, Payload(f, items[j + 1..]);
      assert items[j..][0] == items[j] && items[j..][1..] == items[j + 1..];
      assert ValueOk(f, items[j]);
      NumberRoundTrip(f, items[j].n, rest.value);
      assert items[..j] + [items[j]] == items[..j + 1];
      PackedRoundTrip(f, items, j + 1);
    }
  }

  ghost predicate Short(recs: seq<seq<byte>>) {
    forall r <- recs :: |r| < TWO_32
  }

  lemma {:induction false} ValueRoundTrip(f: Field, v: Value, rest: seq<byte>)
    requires FieldOk(f) && ValueOk(f, v)
    requires EncValue(f, v).Some? && |EncValue(f, v).value| < TWO_32
    ensures DecValue(f, EncValue(f, v).value + rest, DefaultValue(f)) == Some((v, rest))
    decreases f, 0, 0
  {
    if f.ltype.Packable() {
      NumberRoundTrip(f, v.n, rest);
    } else if f.ltype.SubmessageT? {
      var body := EncMessage(f.sub, v.slots).value;
      RecordsShort(f.sub, v.slots);
      MessageRoundTrip(f.sub, v.slots);
      DelimitedRoundTrip(body, rest);
    } else if f.ltype.StringT? {
      StringShort(f, v);
      BlobRoundTrip(f, v, rest);
    } else {
      BlobRoundTrip(f, v, rest);
    }
  }

  lemma StringShort(f: Field, v: Value)
    requires f.ltype.StringT? && ValueOk(f, v)
    ensures EncValue(f, v) == Some(Delimited(v.bs))
  {
    WholeString(v.bs, f.dataSize);
    assert v.bs[..|v.bs|] == v.bs;
  }

  /** The record of a single value. */
  lemma {:induction false} SingleReads(fields: seq<Field>, slots: seq<Slot>, i: nat, v: Value)
    requires FieldsOk(fields) && MessageOk(fields, slots) && i < |fields|
    requires slots[i] in {One(v), Opt(true, v), Choice(Some(v))}
    requires Tagged(fields[i], v).Some? && |Tagged(fields[i], v).value| < TWO_32
    ensures Reads(fields, Progress(fields, slots, i, 0), Tagged(fields[i], v).value, Progress(fields, slots, i + 1, 0))
    decreases fields, 0, 0
  {
    var f := fields[i];
    assert FieldOk(f) && SlotOk(f, slots[i]);
    var bs := EncValue(f, v).value;
    var st, st' := Progress(fields, slots, i, 0), Progress(fields, slots, i + 1, 0);
    forall rest ensures DecField(fields, st, i, WireType(f.ltype), bs + rest) == Some((st', rest)) {
      ValueRoundTrip(f, v, rest);
      SingleField(fields, slots, i, WireType(f.ltype), bs, v, rest);
    }
    TurnReads(fields, st, i, WireType(f.ltype), bs, st');
  }

  lemma {:induction false} EntryReads(fields: seq<Field>, slots: seq<Slot>, i: nat, j: nat)
    requires FieldsOk(fields) && MessageOk(fields, slots) && i < |fields|
    requires fields[i].htype.Array() && !fields[i].ltype.Packable() && j < |Items(slots[i])|
    requires var r := Tagged(fields[i], Items(slots[i])[j]); r.Some? && |r.value| < TWO_32
    ensures Reads(fields, Progress(fields, slots, i, j), Tagged(fields[i], Items(slots[i])[j]).value,
                  Progress(fields, slots, i, j + 1))
    decreases fields, 0, 0
  {
    var f, v := fields[i], Items(slots[i])[j];
    assert FieldOk(f) && SlotOk(f, slots[i]) && ValueOk(f, v);
    var bs := EncValue(f, v).value;
    var st, st' := Progress(fields, slots, i, j), Progress(fields, slots, i, j + 1);
    forall rest ensures DecField(fields, st, i, WireType(f.ltype), bs + rest) == Some((st', rest)) {
      ValueRoundTrip(f, v, rest);
      ArrayEntry(fields, slots, i, j, WireType(f.ltype), bs, rest);
    }
    TurnReads(fields, st, i, WireType(f.ltype), bs, st');
  }

  lemma PackedReads(fields: seq<Field>, slots: seq<Slot>, i: nat)
    requires FieldsOk(fields) && MessageOk(fields, slots) && i < |fields|
    requires fields[i].htype.Array() && fields[i].ltype.Packable() && |Items(slots[i])| > 0
    requires Payload(fields[i], Items(slots[i])).Some? && |Payload(fields[i], Items(slots[i])).value| < TWO_32
    ensures Reads(fields, Progress(fields, slots, i, 0),
                  Tag(fields[i].tag, WT_STRING) + Delimited(Payload(fields[i], Items(slots[i])).value),
                  Progress(fields, slots, i + 1, 0))
  {
    var f, items := fields[i], Items(slots[i]);
    assert FieldOk(f) && SlotOk(f, slots[i]);
    var payload := Payload(f, items).value;
    var st, st' := Progress(fields, slots, i, 0), Progress(fields, slots, i + 1, 0);
    PackedRoundTrip(f, items, 0);
    assert items[0..] == items && items[..0] == [];
    ArrayDone(fields, slots, i);
    forall rest ensures DecField(fields, st, i, WT_STRING, Delimited(payload) + rest) == Some((st', rest)) {
      PackedField(fields, slots, i, payload, rest);
    }
    TurnReads(fields, st, i, WT_STRING, Delimited(payload), st');
  }

  lemma {:induction false} EntriesPath(fields: seq<Field>, slots: seq<Slot>, i: nat) returns (states: seq<State>)
    requires FieldsOk(fields) && MessageOk(fields, slots) && i < |fields| == |slots|
    requires fields[i].htype.Array() && !fields[i].ltype.Packable() && |Items(slots[i])| > 0
    requires TaggedItems(fields[i], Items(slots[i])).Some? && Short(TaggedItems(fields[i], Items(slots[i])).value)
    ensures var recs := TaggedItems(fields[i], Items(slots[i])).value;
            Path(fields, states, recs) && states[0] == Progress(fields, slots, i, 0)
            && states[|recs|] == Progress(fields, slots, i + 1, 0)
    decreases fields, 1, 0
  {
    hide Progress, Tagged, TaggedItems, FieldsOk, MessageOk, Reads, Items;
    var f, items := fields[i], Items(slots[i]);
    var recs := TaggedItems(f, items).value;
    EntriesTagged(fields, slots, i);
    ArrayDone(fields, slots, i);
    states := seq(|items| + 1, j requires 0 <= j <= |items| => Progress(fields, slots, i, j));
    forall j | 0 <= j < |recs| ensures Reads(fields, states[j], recs[j], states[j + 1]) {
      assert recs[j] in recs;
      EntryReads(fields, slots, i, j);
    }
    assert forall st <- states :: |st.slots| == |fields|;
  }

  lemma EntriesTagged(fields: seq<Field>, slots: seq<Slot>, i: nat)
    requires FieldsOk(fields) && MessageOk(fields, slots) && i < |fields| && fields[i].htype.Array()
    ensures var items, recs := Items(slots[i]), TaggedItems(fields[i], Items(slots[i]));
            recs.Some? && |recs.value| == |items|
            && forall k | 0 <= k < |items| :: Tagged(fields[i], items[k]) == Some(recs.value[k])
  {
    assert FieldOk(fields[i]) && SlotOk(fields[i], slots[i]);
    ItemsEncode(fields[i], Items(slots[i]));
  }

  /** The records of one field lead from one field boundary to the next. */
  lemma {:induction false} FieldPath(fields: seq<Field>, slots: seq<Slot>, i: nat) returns (states: seq<State>)
    requires FieldsOk(fields) && MessageOk(fields, slots) && i < |fields|
    requires FieldRecords(fields[i], slots[i]).Some? && Short(FieldRecords(fields[i], slots[i]).value)
    ensures var recs := FieldRecords(fields[i], slots[i]).value;
            Path(fields, states, recs) && states[0] == Progress(fields, slots, i, 0)
            && states[|recs|] == Progress(fields, slots, i + 1, 0)
    decreases fields, 2, 0
  {
    var f, s := fields[i], slots[i];
    var recs := FieldRecords(f, s).value;
    var before, after := Progress(fields, slots, i, 0), Progress(fields, slots, i + 1, 0);
    assert FieldOk(f) && SlotOk(f, s);
    hide Progress, Tagged, TaggedItems, FieldOk, FieldsOk, MessageOk, Reads, ValueOk;
    if recs == [] {
      SkippedField(fields, slots, i);
      states := [before];
    } else if s.Many? && f.ltype.Packable() {
      assert recs[0] in recs;
      PackedReads(fields, slots, i);
      states := [before, after];
    } else if s.Many? {
      assert Items(s) == s.items && FieldRecords(f, s) == ArrayRecords(f, s.items) == TaggedItems(f, s.items);
      states := EntriesPath(fields, slots, i);
    } else {
      var v := if s.Choice? then s.picked.value else s.v;
      assert recs[0] in recs;
      SingleReads(fields, slots, i, v);
      states := [before, after];
    }
  }

  /** The records from field i on lead to the end of the message. */
  lemma {:induction false} MessagePath(fields: seq<Field>, slots: seq<Slot>, i: nat) returns (states: seq<State>)
    requires FieldsOk(fields) && MessageOk(fields, slots) && i <= |fields|
    requires Records(fields[i..], slots[i..]).Some? && Short(Records(fields[i..], slots[i..]).value)
    ensures var recs := Records(fields[i..], slots[i..]).value;
            Path(fields, states, recs) && states[0] == Progress(fields, slots, i, 0)
            && states[|recs|] == Progress(fields, slots, |fields|, 0)
    decreases fields, 3, |fields| - i
  {
    if i == |fields| {
      states := [Progress(fields, slots, i, 0)];
    } else {
      assert fields[i..][0] == fields[i] && fields[i..][1..] == fields[i + 1..];
      assert slots[i..][0] == slots[i] && slots[i..][1..] == slots[i + 1..];
      var first, rest := FieldRecords(fields[i], slots[i]).value, Records(fields[i + 1..], slots[i + 1..]).value;
      assert Records(fields[i..], slots[i..]).value == first + rest;
      assert Short(first) && Short(rest);
      var a := FieldPath(fields, slots, i);
      var b := MessagePath(fields, slots, i + 1);
      JoinPaths(fields, a, first, b, rest);
      states := a + b[1..];
    }
  }

  lemma {:induction false} SeenAll(fields: seq<Field>, i: nat)
    requires i <= |fields|
    ensures forall n: nat | n < RequiredBefore(fields, i) && n < PB_MAX_REQUIRED_FIELDS :: n in SeenBefore(fields, i)
  {
    if i > 0 {
      SeenAll(fields, i - 1);
    }
  }

  lemma {:induction false} WalkPath(fields: seq<Field>, states: seq<State>, recs: seq<seq<byte>>, k: nat)
    requires Path(fields, states, recs) && k <= |recs|
    ensures Loop(fields, states[k], Concat(recs[k..])) == Some(states[|recs|])
    decreases |recs| - k
  {
    if k < |recs| {
      assert recs[k..][0] == recs[k] && recs[k..][1..] == recs[k + 1..];
      assert Reads(fields, states[k], recs[k], states[k + 1]);
      assert OneTurn(fields, states[k], recs[k] + Concat(recs[k + 1..])) == Next(states[k + 1], Concat(recs[k + 1..]));
      WalkPath(fields, states, recs, k + 1);
    }
  }

  lemma FinishesWell(fields: seq<Field>, slots: seq<Slot>)
    requires MessageOk(fields, slots)
    ensures var st := Progress(fields, slots, |fields|, 0);
            st.slots == slots && FixedComplete(fields, st) && AllRequiredSeen(fields, st.seen)
  {
    ProgressFixedComplete(fields, slots, |fields|);
    SeenAll(fields, |fields|);
    assert slots[..|fields|] + Defaults(fields)[|fields|..] == slots;
  }

  lemma StartsAtDefaults(fields: seq<Field>, slots: seq<Slot>)
    requires |fields| == |slots|
    ensures Progress(fields, slots, 0, 0) == State(Defaults(fields), {}, None)
  {
    assert slots[..0] + Defaults(fields)[0..] == Defaults(fields);
  }

  lemma RecordsShort(fields: seq<Field>, slots: seq<Slot>)
    requires EncMessage(fields, slots).Some? && |EncMessage(fields, slots).value| < TWO_32
    ensures Short(Records(fields, slots).value)
  {
    var recs := Records(fields, slots).value;
    forall r | r in recs ensures |r| < TWO_32 {
      var k :| 0 <= k < |recs| && recs[k] == r;
      RecordWithin(recs, k);
    }
  }

  /** Round trip: what is encoded decodes to the same message, if the length of each of
      its records can be counted in 32 bits. */
  lemma {:induction false} MessageRoundTrip(fields: seq<Field>, slots: seq<Slot>)
    requires FieldsOk(fields) && MessageOk(fields, slots)
    requires Records(fields, slots).Some? && Short(Records(fields, slots).value)
    ensures DecMessage(fields, EncMessage(fields, slots).value) == Some(slots)
    decreases fields, 4, 0
  {
    var recs := Records(fields, slots).value;
    assert fields[0..] == fields && slots[0..] == slots && recs[0..] == recs;
    var states := MessagePath(fields, slots, 0);
    WalkPath(fields, states, recs, 0);
    StartsAtDefaults(fields, slots);
    FinishesWell(fields, slots);
  }
}
