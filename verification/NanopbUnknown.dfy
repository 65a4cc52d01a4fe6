/** Fields the descriptor does not know are passed over, wherever they stand. */
module NanopbUnknown {
  import opened Bits
  import opened Bytes
  import opened Wire
  import opened NanopbMessage
  import opened NanopbEncode
  import opened NanopbDecode
  import opened NanopbRoundTrip

  datatype Body = VarintBody(bs: seq<byte>) | EightBytes(bs: seq<byte>) | Text(bs: seq<byte>) | FourBytes(bs: seq<byte>)

  /** A field of some later version of the message. */
  datatype Unknown = Unknown(tag: nat, body: Body)

  predicate WellFormedBody(b: Body) {
    match b
    case VarintBody(bs) => |bs| > 0 && !More(bs[|bs| - 1]) && forall i | 0 <= i < |bs| - 1 :: More(bs[i])
    case EightBytes(bs) => |bs| == 8
    case Text(bs) => |bs| < TWO_32
    case FourBytes(bs) => |bs| == 4
  }

  predicate UnknownTo(fields: seq<Field>, u: Unknown) {
    1 <= u.tag < 0x2000_0000 && WellFormedBody(u.body) && forall f <- fields :: f.tag != u.tag
  }

  function WireTypeOf(b: Body): nat {
    match b
    case VarintBody(_) => WT_VARINT
    case EightBytes(_) => WT_64BIT
    case Text(_) => WT_STRING
    case FourBytes(_) => WT_32BIT
  }

  function BodyBytes(b: Body): seq<byte> { if b.Text? then Delimited(b.bs) else b.bs }

  function UnknownRecord(u: Unknown): seq<byte> { Tag(u.tag, WireTypeOf(u.body)) + BodyBytes(u.body) }

  lemma {:induction false} VarintSkipped(bs: seq<byte>, rest: seq<byte>)
    requires WellFormedBody(VarintBody(bs))
    ensures SkipVarint(bs + rest) == Some(rest)
    decreases |bs|
  {
    assert (bs + rest)[1..] == bs[1..] + rest;
    if |bs| > 1 {
      VarintSkipped(bs[1..], rest);
    } else {
      assert bs[1..] + rest == rest;
    }
  }

  lemma BodySkipped(b: Body, rest: seq<byte>)
    requires WellFormedBody(b)
    ensures SkipField(BodyBytes(b) + rest, WireTypeOf(b)) == Some(rest)
  {
    hide Decode32, SkipVarint, Varint;
    match b
    case VarintBody(bs) => VarintSkipped(bs, rest);
    case EightBytes(bs) => assert (bs + rest)[8..] == rest;
    case FourBytes(bs) => assert (bs + rest)[4..] == rest;
    case Text(bs) =>
      DelimitedRoundTrip(bs, rest);
      assert (bs + rest)[|bs|..] == rest;
  }

  /** An unknown field costs one turn and changes nothing, in any state. */
  lemma UnknownSkipped(fields: seq<Field>, st: State, u: Unknown, rest: seq<byte>)
    requires |st.slots| == |fields| && UnknownTo(fields, u)
    ensures OneTurn(fields, st, UnknownRecord(u) + rest) == Next(st, rest)
  {
    hide Decode32, Find, SkipField, DecField, Tag, BodyBytes;
    var wireType, body := WireTypeOf(u.body), BodyBytes(u.body);
    TagRoundTrip(u.tag, wireType, body + rest);
    assert UnknownRecord(u) + rest == Tag(u.tag, wireType) + (body + rest);
    assert (u.tag * 8 + wireType) / 8 == u.tag && (u.tag * 8 + wireType) % 8 == wireType;
    BodySkipped(u.body, rest);
  }

  // Encodings with unknown fields woven in.

  datatype Piece = Known(rec: seq<byte>) | Extra(u: Unknown)

  function KnownOf(pieces: seq<Piece>): seq<seq<byte>> {
    if |pieces| == 0 then []
    else (if pieces[0].Known? then [pieces[0].rec] else []) + KnownOf(pieces[1..])
  }

  function Woven(pieces: seq<Piece>): seq<byte> {
    if |pieces| == 0 then []
    else (if pieces[0].Known? then pieces[0].rec else UnknownRecord(pieces[0].u)) + Woven(pieces[1..])
  }

  lemma {:induction false} WalkWoven(fields: seq<Field>, states: seq<State>, recs: seq<seq<byte>>, k: nat,
                                     pieces: seq<Piece>)
    requires Path(fields, states, recs) && k <= |recs| && KnownOf(pieces) == recs[k..]
    requires forall p <- pieces :: p.Extra? ==> UnknownTo(fields, p.u)
    ensures Loop(fields, states[k], Woven(pieces)) == Some(states[|recs|])
    decreases |pieces|
  {
    if |pieces| > 0 {
      var rest := Woven(pieces[1..]);
      if pieces[0].Known? {
        assert KnownOf(pieces)[0] == pieces[0].rec && KnownOf(pieces)[1..] == KnownOf(pieces[1..]);
        assert recs[k..][0] == recs[k] && recs[k..][1..] == recs[k + 1..];
        assert Reads(fields, states[k], recs[k], states[k + 1]);
        assert OneTurn(fields, states[k], recs[k] + rest) == Next(states[k + 1], rest);
        WalkWoven(fields, states, recs, k + 1, pieces[1..]);
      } else {
        assert KnownOf(pieces) == KnownOf(pieces[1..]);
        UnknownSkipped(fields, states[k], pieces[0].u, rest);
        WalkWoven(fields, states, recs, k, pieces[1..]);
      }
    }
  }

  /** Any unknown fields, anywhere between the fields of an encoding, leave what is
      decoded unchanged. */
  lemma UnknownFieldsIgnored(fields: seq<Field>, slots: seq<Slot>, pieces: seq<Piece>)
    requires FieldsOk(fields) && MessageOk(fields, slots)
    requires Records(fields, slots).Some? && Short(Records(fields, slots).value)
    requires KnownOf(pieces) == Records(fields, slots).value
    requires forall p <- pieces :: p.Extra? ==> UnknownTo(fields, p.u)
    ensures DecMessage(fields, Woven(pieces)) == Some(slots)
  {
    var recs := Records(fields, slots).value;
    assert fields[0..] == fields && slots[0..] == slots && recs[0..] == recs;
    var states := MessagePath(fields, slots, 0);
    WalkWoven(fields, states, recs, 0, pieces);
    StartsAtDefaults(fields, slots);
    FinishesWell(fields, slots);
  }
}
