/** DTLS handshake messages and their fragments on the wire (section 4.2.2 of RFC 6347). */
module HandshakeFragment {
  import opened Bits
  import opened Bytes

  const HEADER_LENGTH: nat := 12
  const TWO_16: nat := 0x1_0000
  const TWO_24: nat := 0x100_0000

  datatype Message = Message(typ: byte, body: seq<byte>)

  /** One fragment: the header fields, and the fragLen bytes that follow them. */
  datatype Fragment = Fragment(typ: byte, msgLen: nat, seqNum: nat, fragOff: nat, body: seq<byte>)
  {
    predicate Encodable() {
      msgLen < TWO_24 && seqNum < TWO_16 && fragOff < TWO_24 && |body| < TWO_24
    }

    function Bytes(): (bs: seq<byte>)
      ensures |bs| == HEADER_LENGTH + |body|
    {
      Header(typ, msgLen, seqNum, fragOff, |body|) + body
    }
  }

  function Header(typ: byte, msgLen: nat, seqNum: nat, fragOff: nat, fragLen: nat): (bs: seq<byte>)
    ensures |bs| == HEADER_LENGTH
  {
    [typ] + BeBytes(msgLen, 3) + BeBytes(seqNum, 2) + BeBytes(fragOff, 3) + BeBytes(fragLen, 3)
  }

  /** The message as a single fragment, which is how it is queued for sending,
      hashed, and handed to the handshake on the other side. */
  function Unfragmented(m: Message, seqNum: nat): seq<byte> {
    Fragment(m.typ, |m.body|, seqNum, 0, m.body).Bytes()
  }

  /** Splits the first fragment off input. */
  function ParseFragment(input: seq<byte>): (r: Option<(Fragment, seq<byte>)>)
    ensures r.Some? ==> |r.value.1| < |input| && r.value.0.Encodable()
  {
    if |input| < HEADER_LENGTH then None
    else
      var fragLen := Be(input[9..12]);
      if HEADER_LENGTH + fragLen > |input| then None
      else
        BeBelow(input[1..4]); BeBelow(input[4..6]); BeBelow(input[6..9]); BeBelow(input[9..12]);
        Widths();
        Some((Fragment(input[0], Be(input[1..4]), Be(input[4..6]), Be(input[6..9]),
                       input[HEADER_LENGTH..HEADER_LENGTH + fragLen]),
              input[HEADER_LENGTH + fragLen..]))
  }

  lemma Widths()
    ensures Pow2(16) == TWO_16 && Pow2(24) == TWO_24
  {
    assert Pow2(4) == 16;
    Pow2Sum(4, 4);
    Pow2Sum(8, 8);
    Pow2Sum(16, 8);
  }

  lemma ParseInvertsBytes(f: Fragment, rest: seq<byte>)
    requires f.Encodable()
    ensures ParseFragment(f.Bytes() + rest) == Some((f, rest))
  {
    hide Be, BeBytes, Pow2;
    var input := f.Bytes() + rest;
    Widths();
    BeRoundTrip(f.msgLen, 3);
    BeRoundTrip(f.seqNum, 2);
    BeRoundTrip(f.fragOff, 3);
    BeRoundTrip(|f.body|, 3);
    assert input[1..4] == BeBytes(f.msgLen, 3);
    assert input[4..6] == BeBytes(f.seqNum, 2);
    assert input[6..9] == BeBytes(f.fragOff, 3);
    assert input[9..12] == BeBytes(|f.body|, 3);
    assert input[HEADER_LENGTH..HEADER_LENGTH + |f.body|] == f.body;
    assert input[HEADER_LENGTH + |f.body|..] == rest;
  }
}
