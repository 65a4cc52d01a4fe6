/** DTLS records as they stand in a datagram (section 4.1 of RFC 6347). */
module DtlsRecord {
  import opened Bits
  import opened Bytes
  import opened Protocol

  const RT_HEADER_LENGTH: nat := 13
  const MAX_ENCRYPTED_LENGTH: nat := 16704

  /** The record number is the epoch, in the top 16 bits, and the sequence number. */
  datatype WireRecord = WireRecord(typ: byte, version: nat, recordNumber: nat, body: seq<byte>)
  {
    function Size(): nat { RT_HEADER_LENGTH + |body| }

    /** Its numbers and its length fit the fields of the header. */
    predicate Encodable() { version < 0x1_0000 && recordNumber < TWO_64 && |body| < 0x1_0000 }
  }

  function RecordNumber(epoch: nat, seqNum: nat): nat { epoch * SEQUENCES + seqNum }

  function Epoch(recordNumber: nat): nat { recordNumber / SEQUENCES }

  lemma EpochOfNumber(epoch: nat, seqNum: nat)
    requires seqNum < SEQUENCES
    ensures Epoch(RecordNumber(epoch, seqNum)) == epoch
    ensures epoch < EPOCHS ==> RecordNumber(epoch, seqNum) < TWO_64
  {
  }

  /** Type, version, epoch and sequence number, and a length-prefixed body. */
  function RecordBytes(p: WireRecord): (bs: seq<byte>)
    ensures |bs| == p.Size()
  {
    [p.typ] + BeBytes(p.version, 2) + BeBytes(p.recordNumber, 8) + BeBytes(|p.body|, 2) + p.body
  }

  /** The record at the front of a datagram. */
  function ParseRecord(input: seq<byte>): (r: Option<WireRecord>)
    ensures r.Some? ==> r.value.Size() <= |input| && |r.value.body| <= MAX_ENCRYPTED_LENGTH
  {
    if |input| < 13 then None
    else
      var n := Be(input[11..13]);
      if 13 + n > |input| || n > MAX_ENCRYPTED_LENGTH then None
      else Some(WireRecord(input[0], Be(input[1..3]), Be(input[3..11]), input[13..13 + n]))
  }

  /** What is parsed is the record whose bytes are there. */
  lemma ParsedIsThere(input: seq<byte>)
    ensures var p := ParseRecord(input);
            p.Some? ==> p.value.Size() <= |input| && input[..p.value.Size()] == RecordBytes(p.value)
  {
    hide Be, BeBytes;
    var p := ParseRecord(input);
    if p.Some? {
      BeBytesRoundTrip(input[1..3]);
      BeBytesRoundTrip(input[3..11]);
      BeBytesRoundTrip(input[11..13]);
      var size := p.value.Size();
      assert input[..size] == [input[0]] + input[1..3] + input[3..11] + input[11..13] + input[13..size];
    }
  }

  lemma HeaderRoundTrip(p: WireRecord)
    requires p.Encodable()
    ensures Be(BeBytes(p.version, 2)) == p.version && Be(BeBytes(p.recordNumber, 8)) == p.recordNumber
    ensures Be(BeBytes(|p.body|, 2)) == |p.body|
  {
    RecordWidths();
    BeRoundTrip(p.version, 2);
    BeRoundTrip(p.recordNumber, 8);
    BeRoundTrip(|p.body|, 2);
  }

  /** Every record of at most the maximal length parses, whatever follows it. */
  lemma ParseInvertsRecord(p: WireRecord, rest: seq<byte>)
    requires p.Encodable() && |p.body| <= MAX_ENCRYPTED_LENGTH
    ensures ParseRecord(RecordBytes(p) + rest) == Some(p)
  {
    hide Be, BeBytes, Pow2;
    HeaderRoundTrip(p);
    var input := RecordBytes(p) + rest;
    assert input[1..3] == BeBytes(p.version, 2);
    assert input[3..11] == BeBytes(p.recordNumber, 8);
    assert input[11..13] == BeBytes(|p.body|, 2);
    assert input[13..13 + |p.body|] == p.body;
  }

  /** The records of a datagram, one after another; what cannot be parsed ends it. */
  function ParseRecords(input: seq<byte>): seq<WireRecord>
    decreases |input|
  {
    var p := ParseRecord(input);
    if p.None? then [] else [p.value] + ParseRecords(input[p.value.Size()..])
  }

  lemma RecordWidths()
    ensures Pow2(16) == EPOCHS && Pow2(64) == TWO_64
  {
    assert Pow2(4) == 16;
    Pow2Sum(4, 4);
    Pow2Sum(8, 8);
    Pow2Sum(16, 16);
    Pow2Sum(32, 32);
  }
}
