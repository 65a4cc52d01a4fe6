/** The datagrams of a flight as the other side reads them. */
module DtlsPackets {
  import opened Bits
  import opened Bytes
  import opened Protocol
  import opened DtlsRecord
  import opened HandshakeFragment
  import opened Flight
  import opened WriteSequence
  import opened FlightPlan

  /** The largest MTU whose records no receiver refuses for their length. */
  const SAFE_MTU: nat := MAX_PLAIN_LENGTH + RT_HEADER_LENGTH

  /** A record as it is found in a datagram. */
  function AsRead(rec: Record, version: nat): WireRecord
    requires |rec.wire| >= RT_HEADER_LENGTH
  {
    WireRecord(rec.typ, version, RecordNumber(rec.epoch, rec.seqNum), rec.wire[RT_HEADER_LENGTH..])
  }

  /** The datagram is parsed into just these records, and none is too long for a reader. */
  ghost predicate ReadsBack(recs: seq<Record>, version: nat) {
    && (forall rec <- recs :: |rec.wire| >= RT_HEADER_LENGTH && |rec.plaintext| <= MAX_PLAIN_LENGTH)
    && ParseRecords(PacketBytes(recs)) == seq(|recs|, i requires 0 <= i < |recs| => AsRead(recs[i], version))
  }

  lemma WireReads(rec: Record, version: nat, body: seq<byte>, rest: seq<byte>)
    requires IsWire(rec, version, body) && |body| <= MAX_ENCRYPTED_LENGTH && version < TWO_16
    requires rec.epoch < EPOCHS && rec.seqNum < SEQUENCES
    ensures |rec.wire| == RT_HEADER_LENGTH + |body| && AsRead(rec, version).body == body
    ensures ParseRecord(rec.wire + rest) == Some(AsRead(rec, version))
  {
    hide ParseRecord, BeBytes;
    EpochOfNumber(rec.epoch, rec.seqNum);
    ParseInvertsRecord(WireRecord(rec.typ, version, RecordNumber(rec.epoch, rec.seqNum), body), rest);
  }

  lemma ReadsFirst(rec: Record, recs: seq<Record>, version: nat)
    requires WellSealed(rec, version, SAFE_MTU) && version < TWO_16
    requires |rec.plaintext| <= MAX_PLAIN_LENGTH && ReadsBack(recs, version)
    ensures ReadsBack([rec] + recs, version)
  {
    WireReads(rec, version, rec.wire[RT_HEADER_LENGTH..], PacketBytes(recs));
    hide ParseRecord;
    var all := rec.wire + PacketBytes(recs);
    assert ([rec] + recs)[1..] == recs && all[|rec.wire|..] == PacketBytes(recs);
    assert ParseRecords(all) == [AsRead(rec, version)] + ParseRecords(PacketBytes(recs));
  }

  /** A record as sealing leaves it. */
  ghost predicate WellSealed(rec: Record, version: nat, maxOut: nat) {
    && RT_HEADER_LENGTH <= |rec.wire| <= maxOut && IsWire(rec, version, rec.wire[RT_HEADER_LENGTH..])
    && rec.epoch < EPOCHS && rec.seqNum < SEQUENCES
  }

  lemma SealedWell(keys: Keys, w: WriteState, maxOut: nat, typ: byte, plaintext: seq<byte>, previousEpoch: bool,
                   verdict: Option<seq<byte>>)
    requires w.Ok() && (previousEpoch ==> w.epoch >= 1)
    ensures var s := Sealed(keys, w, maxOut, typ, plaintext, previousEpoch, verdict);
            s.1.Ok() && (s.0.Some? ==> WellSealed(s.0.value, keys.current.version, maxOut))
  {
    hide Ciphertext, RecordBytes;
    var s := Sealed(keys, w, maxOut, typ, plaintext, previousEpoch, verdict);
    if s.0.Some? {
      WireTail(s.0.value, keys.current.version);
    }
  }

  /** A sealed record is on the wire what the AEAD made of it behind its header. */
  lemma NextIsWire(flight: seq<OutMessage>, at: Cursor, maxOut: nat, keys: Keys, w: WriteState,
                   seals: nat -> Option<seq<byte>>, i: nat)
    requires at.written < |flight| && w.Ok()
    ensures var a := SealNext(flight, at, maxOut, keys, w, seals, i);
            && a.w.Ok()
            && (a.result.SealPartial? || a.result.SealSuccess? ==>
                  var rec := a.result.rec;
                  WellSealed(rec, keys.current.version, maxOut) && |rec.plaintext| <= maxOut - RT_HEADER_LENGTH)
  {
    hide ParseFragment, Todo, Sealed, WellSealed, WriteState.Ok, IsWire;
    var om := flight[at.written];
    if UsePrevious(w, om).Some? {
      var use := UsePrevious(w, om).value;
      SealedWell(keys, w, maxOut, RT_CHANGE_CIPHER_SPEC, [MT_CCS], use, seals(i));
      if !om.isCcs && Whole(om) && at.offset <= |Content(om).body|
         && maxOut >= HEADER_LENGTH + 1 + RT_HEADER_LENGTH + keys.Of(use).overhead {
        var frag := Slice(Content(om), at.offset, Todo(om, at.offset, maxOut, keys.Of(use).overhead)).Bytes();
        SealedWell(keys, w, maxOut, RT_HANDSHAKE, frag, use, seals(i));
      }
    }
  }

  lemma WireTail(rec: Record, version: nat)
    ensures forall body | IsWire(rec, version, body) ::
      |rec.wire| == RT_HEADER_LENGTH + |body| && rec.wire[RT_HEADER_LENGTH..] == body
  {
  }

  /** Every packet of at most SAFE_MTU bytes is read back as the records it was made of. */
  lemma {:induction false} PackReadsBack(flight: seq<OutMessage>, at: Cursor, room: nat, keys: Keys, w: WriteState,
                                         seals: nat -> Option<seq<byte>>, i: nat)
    requires keys.Ok() && w.Ok() && room <= SAFE_MTU
    ensures var p := Pack(flight, at, room, keys, w, seals, i);
            p.w.Ok() && ReadsBack(p.records, keys.current.version)
    decreases |flight| - at.written
  {
    hide SealNext, IsWire, ParseRecord, ReadsBack;
    NothingRead(keys.current.version);
    if at.written < |flight| {
      NextIsWire(flight, at, room, keys, w, seals, i);
      SealAdvances(flight, at, room, keys, w, seals, i);
      var a := SealNext(flight, at, room, keys, w, seals, i);
      match a.result
      case SealError =>
      case NoProgress =>
      case SealPartial(rec) =>
        ReadsFirst(rec, [], keys.current.version);
        assert [rec] + [] == [rec];
      case SealSuccess(rec) =>
        PackReadsBack(flight, a.at, room - |rec.wire|, keys, a.w, seals, a.calls);
        ReadsFirst(rec, Pack(flight, a.at, room - |rec.wire|, keys, a.w, seals, a.calls).records, keys.current.version);
    }
  }

  lemma NothingRead(version: nat)
    ensures ReadsBack([], version)
  {
  }

  lemma {:induction false} SendReadsBack(flight: seq<OutMessage>, at: Cursor, mtu: nat, keys: Keys, w: WriteState,
                                         env: Env, i: nat, j: nat)
    requires keys.Ok() && w.Ok() && mtu <= SAFE_MTU
    ensures forall p <- Send(flight, at, mtu, keys, w, env, i, j).packets :: ReadsBack(p, keys.current.version)
    decreases |flight| - at.written, if at.offset <= TWO_24 then TWO_24 - at.offset else 0
  {
    hide Pack, ReadsBack, Tile;
    if at.written < |flight| {
      var p := Pack(flight, at, mtu, keys, w, env.seals, i);
      PackReadsBack(flight, at, mtu, keys, w, env.seals, i);
      PackTiles(flight, at, mtu, keys, w, env.seals, i);
      if !p.failed && p.records != [] && env.replies(j) > 0 {
        SendReadsBack(flight, p.at, mtu, keys, p.w, env, p.calls, j + 1);
      }
    }
  }

  // Above it.

  /** A record too long for a reader is never read, whatever follows it. */
  lemma TooLongToRead(rec: Record, version: nat, body: seq<byte>, rest: seq<byte>)
    requires IsWire(rec, version, body) && |body| > MAX_ENCRYPTED_LENGTH
    ensures ParseRecord(rec.wire + rest) == None
  {
    hide BeBytes, Be;
    var input := rec.wire + rest;
    assert input[11..13] == BeBytes(|body|, 2);
    LengthRoundTrip(|body|);
  }

  lemma LengthRoundTrip(n: nat)
    requires n < TWO_16
    ensures Be(BeBytes(n, 2)) == n
  {
    RecordWidths();
    BeRoundTrip(n, 2);
  }

  /** Nothing holds a sender to what a reader takes: with an MTU for it, a message of
      more than 16692 bytes is sealed into one record, which no reader parses. */
  lemma OversizedRecord(om: OutMessage, mtu: nat, keys: Keys, w: WriteState, env: Env)
    requires !om.isCcs && Whole(om) && om.epoch == w.epoch && keys.Ok() && w.seqNum + 1 < SEQUENCES
    requires MAX_ENCRYPTED_LENGTH < |Content(om).body| + HEADER_LENGTH
    requires |Content(om).body| + HEADER_LENGTH + keys.current.overhead + RT_HEADER_LENGTH <= mtu < TWO_16
    requires env.seals(0).Some? && |env.seals(0).value| == |Content(om).body| + HEADER_LENGTH + keys.current.overhead
    requires env.replies(0) > 0 && env.flushed > 0
    ensures var o := Send([om], START, mtu, keys, w, env, 0, 0);
            && o.ret == 1 && |o.packets| == 1 && |o.packets[0]| == 1
            && forall rest :: ParseRecord(o.packets[0][0].wire + rest) == None
  {
    hide ParseFragment, Fragment.Bytes, ParseRecord;
    var flight := [om];
    var a := SealNext(flight, START, mtu, keys, w, env.seals, 0);
    assert a.result.SealSuccess? && a.at == Cursor(1, 0);
    var rec := a.result.rec;
    assert Pack(flight, a.at, mtu - |rec.wire|, keys, a.w, env.seals, 1) == Packed([], a.at, a.w, 1, false);
    assert Pack(flight, START, mtu, keys, w, env.seals, 0) == Packed([rec], a.at, a.w, 1, false);
    SendMore(flight, START, mtu, keys, w, env, 0, 0);
    SendDone(flight, a.at, mtu, keys, a.w, env, 1, 1);
    forall rest ensures ParseRecord(rec.wire + rest) == None {
      TooLongToRead(rec, keys.current.version, env.seals(0).value, rest);
    }
  }
}
