/**
 What sending a flight comes to, as a function of the flight, the cursor, the keys,
 the verdicts of the AEAD and the replies of the transport.
 */
module FlightPlan {
  import opened Bits
  import opened Bytes
  import opened DtlsRecord
  import opened HandshakeFragment
  import opened Flight
  import opened WriteSequence
  import opened Protocol

  /** An AEAD adds at most overhead bytes to a record, nonceLen of them in front; its
      records are of one version. */
  datatype Aead = Aead(overhead: nat, nonceLen: nat, version: nat)

  /** The AEADs of the current and of the previous write epoch. */
  datatype Keys = Keys(current: Aead, previous: Aead)
  {
    predicate Ok() {
      && current.nonceLen <= current.overhead && previous.nonceLen <= previous.overhead
      && current.version < TWO_16
    }

    function Of(previousEpoch: bool): Aead { if previousEpoch then previous else current }
  }

  /** What the call finds outside: seals(i) is the verdict of the AEAD on the i-th
      record of the call, None if it fails and otherwise what it makes of the plaintext,
      which is never longer by more than the overhead; replies(j) is the reply of the
      transport to the j-th packet, and flushed the one to the flush. */
  datatype Env = Env(seals: nat -> Option<seq<byte>>, replies: nat -> int, flushed: int)

  datatype SealResult = SealError | NoProgress | SealPartial(rec: Record) | SealSuccess(rec: Record)

  /** The epoch a message is sealed in: whether it is the previous one, None if neither. */
  function UsePrevious(w: WriteState, om: OutMessage): Option<bool> {
    if w.epoch >= 1 && om.epoch == w.epoch - 1 then Some(true)
    else if om.epoch == w.epoch then Some(false)
    else None
  }

  /** The verdict, as far as the overhead goes. */
  function Ciphertext(aead: Aead, plaintext: seq<byte>, verdict: seq<byte>): (c: seq<byte>)
    ensures |c| <= |plaintext| + aead.overhead
    ensures |verdict| <= |plaintext| + aead.overhead ==> c == verdict
  {
    if |verdict| <= |plaintext| + aead.overhead then verdict else verdict[..|plaintext| + aead.overhead]
  }

  /** On the wire rec is its header and what the AEAD made of it. */
  predicate IsWire(rec: Record, version: nat, ciphertext: seq<byte>) {
    rec.wire == RecordBytes(WireRecord(rec.typ, version, RecordNumber(rec.epoch, rec.seqNum), ciphertext))
    && |ciphertext| < TWO_16
  }

  /** Seals one record with the next number; the number is spent also if the counter
      turns out to be at its end or the record too long.  The version is that of the
      current keys, whichever seal the record. */
  function Sealed(keys: Keys, w: WriteState, maxOut: nat, typ: byte, plaintext: seq<byte>,
                  previousEpoch: bool, verdict: Option<seq<byte>>): (r: (Option<Record>, WriteState))
    requires previousEpoch ==> w.epoch >= 1
    ensures r.0.Some? ==>
      && r.0.value.typ == typ && r.0.value.plaintext == plaintext
      && verdict.Some? && IsWire(r.0.value, keys.current.version, Ciphertext(keys.Of(previousEpoch), plaintext, verdict.value))
      && |r.0.value.wire| <= maxOut
      && Nonce(r.0.value.epoch, r.0.value.seqNum) == NonceOf(w, previousEpoch)
      && r.1 == Step(w, Seal(previousEpoch)) && !Wraps(w, Seal(previousEpoch))
  {
    if verdict.None? then (None, w)
    else
      var body := Ciphertext(keys.Of(previousEpoch), plaintext, verdict.value);
      if maxOut < RT_HEADER_LENGTH + |body| then (None, w)
      else
        var n := NonceOf(w, previousEpoch);
        var w' := Step(w, Seal(previousEpoch));
        if Wraps(w, Seal(previousEpoch)) || |body| >= TWO_16 then (None, w')
        else
          var wire := WireRecord(typ, keys.current.version, RecordNumber(n.epoch, n.seqNum), body);
          (Some(Record(typ, n.epoch, n.seqNum, plaintext, RecordBytes(wire))), w')
  }

  /** How much of the body goes into a record of at most maxOut bytes. */
  function Todo(om: OutMessage, offset: nat, maxOut: nat, overhead: nat): (todo: nat)
    requires Whole(om) && offset <= |Content(om).body| && maxOut >= RT_HEADER_LENGTH + overhead + HEADER_LENGTH + 1
    ensures offset + todo <= |Content(om).body| && todo <= maxOut - HEADER_LENGTH - RT_HEADER_LENGTH - overhead
    ensures offset + todo < |Content(om).body| ==> todo > 0
  {
    var left := |Content(om).body| - offset;
    var most := maxOut - HEADER_LENGTH - (RT_HEADER_LENGTH + overhead);
    if left > most then most else left
  }

  /** The outcome of sealing a piece of the next message: the cursor and the counters
      after it, and how many verdicts have been asked for. */
  datatype Attempt = Attempt(result: SealResult, at: Cursor, w: WriteState, calls: nat)

  function SealNext(flight: seq<OutMessage>, at: Cursor, maxOut: nat, keys: Keys, w: WriteState,
                    seals: nat -> Option<seq<byte>>, i: nat): Attempt
    requires at.written < |flight|
  {
    var om := flight[at.written];
    var use := UsePrevious(w, om);
    if use.None? then Attempt(SealError, at, w, i)
    else if om.isCcs then
      if maxOut < 1 + RT_HEADER_LENGTH + keys.Of(use.value).overhead then Attempt(NoProgress, at, w, i)
      else
        var s := Sealed(keys, w, maxOut, RT_CHANGE_CIPHER_SPEC, [MT_CCS], use.value, seals(i));
        if s.0.None? then Attempt(SealError, at, s.1, i + 1)
        else Attempt(SealSuccess(s.0.value), Cursor(at.written + 1, 0), s.1, i + 1)
    else SealPiece(om, at, maxOut, keys, w, use.value, seals, i)
  }

  /** The part of it for a handshake message. */
  function SealPiece(om: OutMessage, at: Cursor, maxOut: nat, keys: Keys, w: WriteState, previousEpoch: bool,
                     seals: nat -> Option<seq<byte>>, i: nat): Attempt
    requires previousEpoch ==> w.epoch >= 1
  {
    var aead := keys.Of(previousEpoch);
    if !Whole(om) || at.offset > |Content(om).body| then Attempt(SealError, at, w, i)
    else if maxOut < HEADER_LENGTH + 1 + RT_HEADER_LENGTH + aead.overhead
            || maxOut < RT_HEADER_LENGTH + aead.nonceLen then
      Attempt(NoProgress, at, w, i)
    else
      var todo := Todo(om, at.offset, maxOut, aead.overhead);
      if maxOut - RT_HEADER_LENGTH - aead.nonceLen < HEADER_LENGTH + todo then Attempt(SealError, at, w, i)
      else
        var frag := Slice(Content(om), at.offset, todo).Bytes();
        var s := Sealed(keys, w, maxOut, RT_HANDSHAKE, frag, previousEpoch, seals(i));
        if s.0.None? then Attempt(SealError, at, s.1, i + 1)
        else if at.offset + todo == |Content(om).body| then
          Attempt(SealSuccess(s.0.value), Cursor(at.written + 1, 0), s.1, i + 1)
        else Attempt(SealPartial(s.0.value), Cursor(at.written, at.offset + todo), s.1, i + 1)
  }

  // When sealing fails, and what it yields otherwise.

  /** There is room for the smallest piece of the message. */
  predicate Fits(om: OutMessage, maxOut: nat, aead: Aead) {
    maxOut >= RT_HEADER_LENGTH + aead.overhead + 1 + if om.isCcs then 0 else HEADER_LENGTH
  }

  /** The plaintext of the next record. */
  function NextPlaintext(om: OutMessage, offset: nat, maxOut: nat, aead: Aead): seq<byte>
    requires om.isCcs || (Whole(om) && offset <= |Content(om).body|)
    requires Fits(om, maxOut, aead)
  {
    if om.isCcs then [MT_CCS]
    else Slice(Content(om), offset, Todo(om, offset, maxOut, aead.overhead)).Bytes()
  }

  /** Sealing a queued message fails exactly if its epoch is neither the current nor the
      previous one, or if there is room and the AEAD fails, the counter is at its end,
      or the record is too long for its length field; without room there is no progress. */
  lemma SealErrorIff(flight: seq<OutMessage>, at: Cursor, maxOut: nat, keys: Keys, w: WriteState,
                     seals: nat -> Option<seq<byte>>, i: nat)
    requires keys.Ok() && Placed(flight, at) && at.written < |flight| && AllWhole(flight)
    ensures var om := flight[at.written];
            var a := SealNext(flight, at, maxOut, keys, w, seals, i);
            var use := UsePrevious(w, om);
            && (a.result.SealError? <==>
                  use.None?
                  || (var aead := keys.Of(use.value);
                      Fits(om, maxOut, aead)
                      && (seals(i).None? || Wraps(w, Seal(use.value))
                          || |Ciphertext(aead, NextPlaintext(om, at.offset, maxOut, aead), seals(i).value)| >= TWO_16)))
            && (a.result.NoProgress? <==> use.Some? && !Fits(om, maxOut, keys.Of(use.value)))
  {
    hide ParseFragment;
    var om := flight[at.written];
    assert om in flight;
  }

  /** A sealed piece carries the flight on from the cursor, within the room there is. */
  lemma SealAdvances(flight: seq<OutMessage>, at: Cursor, maxOut: nat, keys: Keys, w: WriteState,
                     seals: nat -> Option<seq<byte>>, i: nat)
    requires at.written < |flight|
    ensures var a := SealNext(flight, at, maxOut, keys, w, seals, i);
            if a.result.SealPartial? || a.result.SealSuccess? then
              && Advance(flight, at, a.result.rec) == Some(a.at) && |a.result.rec.wire| <= maxOut
              && (a.result.SealSuccess? <==> a.at == Cursor(at.written + 1, 0))
              && (a.result.SealPartial? ==> a.at.written == at.written && at.offset < a.at.offset < TWO_24)
            else
              a.at == at
  {
    hide ParseFragment, Fragment.Bytes, Sealed, Step, Wraps;
  }

  // One packet.

  /** The records of a packet, and where sealing it leaves the cursor and the counters;
      failed says that it ended with a seal that failed, when the packet is dropped. */
  datatype Packed = Packed(records: seq<Record>, at: Cursor, w: WriteState, calls: nat, failed: bool)

  function Pack(flight: seq<OutMessage>, at: Cursor, room: nat, keys: Keys, w: WriteState,
                seals: nat -> Option<seq<byte>>, i: nat): Packed
    decreases |flight| - at.written
  {
    if at.written >= |flight| then Packed([], at, w, i, false)
    else
      var a := SealNext(flight, at, room, keys, w, seals, i);
      match a.result
      case SealError => Packed([], at, a.w, a.calls, true)
      case NoProgress => Packed([], at, w, i, false)
      case SealPartial(rec) => Packed([rec], a.at, a.w, a.calls, false)
      case SealSuccess(rec) =>
        SealAdvances(flight, at, room, keys, w, seals, i);
        var rest := Pack(flight, a.at, room - |rec.wire|, keys, a.w, seals, a.calls);
        rest.(records := [rec] + rest.records)
  }

  /** The records of a packet tile the flight from where it starts to where sealing
      stopped, and fit. */
  lemma {:induction false} PackTiles(flight: seq<OutMessage>, at: Cursor, room: nat, keys: Keys, w: WriteState,
                                     seals: nat -> Option<seq<byte>>, i: nat)
    ensures var p := Pack(flight, at, room, keys, w, seals, i);
            && Tile(flight, at, p.records) == Some(p.at) && |PacketBytes(p.records)| <= room
            && (if p.records == [] then p.at == at else Before(at, p.at) && p.at.offset < TWO_24)
    decreases |flight| - at.written
  {
    hide Advance, SealNext;
    if at.written < |flight| {
      SealAdvances(flight, at, room, keys, w, seals, i);
      var a := SealNext(flight, at, room, keys, w, seals, i);
      match a.result
      case SealError =>
      case NoProgress =>
      case SealPartial(rec) =>
        assert Tile(flight, a.at, [rec][1..]) == Some(a.at);
        assert PacketBytes([rec]) == rec.wire + [];
      case SealSuccess(rec) =>
        var rest := Pack(flight, a.at, room - |rec.wire|, keys, a.w, seals, a.calls);
        PackTiles(flight, a.at, room - |rec.wire|, keys, a.w, seals, a.calls);
        assert ([rec] + rest.records)[1..] == rest.records;
    }
  }

  // One call: packet after packet, until the flight is sent or something stops it.

  /** What a call writes, where it leaves the cursor and the counters, and what it returns. */
  datatype Outcome = Outcome(packets: seq<seq<Record>>, at: Cursor, w: WriteState, ret: int)

  function Send(flight: seq<OutMessage>, at: Cursor, mtu: nat, keys: Keys, w: WriteState,
                env: Env, i: nat, j: nat): Outcome
    decreases |flight| - at.written, if at.offset <= TWO_24 then TWO_24 - at.offset else 0
  {
    if at.written >= |flight| then Outcome([], at, w, if env.flushed <= 0 then -1 else 1)
    else
      var p := Pack(flight, at, mtu, keys, w, env.seals, i);
      if p.failed || p.records == [] then Outcome([], p.at, p.w, -1)
      else if env.replies(j) <= 0 then Outcome([], at, p.w, env.replies(j))
      else
        PackTiles(flight, at, mtu, keys, w, env.seals, i);
        var rest := Send(flight, p.at, mtu, keys, p.w, env, p.calls, j + 1);
        rest.(packets := [p.records] + rest.packets)
  }

  /** One more packet of a call that goes on, or the end of one that does not. */
  lemma SendMore(flight: seq<OutMessage>, at: Cursor, mtu: nat, keys: Keys, w: WriteState,
                 env: Env, i: nat, j: nat)
    requires at.written < |flight|
    ensures var p := Pack(flight, at, mtu, keys, w, env.seals, i);
            Send(flight, at, mtu, keys, w, env, i, j)
            == if p.failed || p.records == [] then Outcome([], p.at, p.w, -1)
               else if env.replies(j) <= 0 then Outcome([], at, p.w, env.replies(j))
               else var rest := Send(flight, p.at, mtu, keys, p.w, env, p.calls, j + 1);
                    rest.(packets := [p.records] + rest.packets)
  {
    hide Pack;
  }

  lemma SendDone(flight: seq<OutMessage>, at: Cursor, mtu: nat, keys: Keys, w: WriteState,
                 env: Env, i: nat, j: nat)
    requires at.written >= |flight|
    ensures Send(flight, at, mtu, keys, w, env, i, j) == Outcome([], at, w, if env.flushed <= 0 then -1 else 1)
  {
  }

  /** The call meets a seal that fails in a packet in which something has been sealed. */
  predicate FailsHalfway(flight: seq<OutMessage>, at: Cursor, mtu: nat, keys: Keys, w: WriteState,
                         env: Env, i: nat, j: nat)
    decreases |flight| - at.written, if at.offset <= TWO_24 then TWO_24 - at.offset else 0
  {
    at.written < |flight|
    && var p := Pack(flight, at, mtu, keys, w, env.seals, i);
    p.records != []
    && (p.failed
        || (env.replies(j) > 0
            && (PackTiles(flight, at, mtu, keys, w, env.seals, i);
                FailsHalfway(flight, p.at, mtu, keys, p.w, env, p.calls, j + 1))))
  }

  function Flatten(packets: seq<seq<Record>>): seq<Record> {
    if |packets| == 0 then [] else packets[0] + Flatten(packets[1..])
  }

  lemma {:induction false} FlattenConcat(a: seq<seq<Record>>, b: seq<seq<Record>>)
    ensures Flatten(a + b) == Flatten(a) + Flatten(b)
  {
    if |a| == 0 {
      assert a + b == b;
    } else {
      assert (a + b)[1..] == a[1..] + b;
      FlattenConcat(a[1..], b);
    }
  }

  /** The records a call writes tile the flight from where it starts to where it stops,
      exactly unless a seal fails halfway through a packet; then they stop short of it.
      Every packet fits into the MTU, and a call that returns 1 has reached the end. */
  lemma {:induction false} SendTiles(flight: seq<OutMessage>, at: Cursor, mtu: nat, keys: Keys, w: WriteState,
                                     env: Env, i: nat, j: nat)
    requires Placed(flight, at)
    ensures var o := Send(flight, at, mtu, keys, w, env, i, j);
            var tiled := Tile(flight, at, Flatten(o.packets));
            && tiled.Some? && Placed(flight, o.at)
            && (tiled.value == o.at <==> !FailsHalfway(flight, at, mtu, keys, w, env, i, j))
            && (tiled.value != o.at ==> Before(tiled.value, o.at))
            && (forall packet <- o.packets :: |PacketBytes(packet)| <= mtu)
            && (o.ret == 1 ==> o.at == Cursor(|flight|, 0))
    decreases |flight| - at.written, if at.offset <= TWO_24 then TWO_24 - at.offset else 0
  {
    hide Pack, Advance, ParseFragment, Tile;
    TileOfNothing(flight, at);
    if at.written < |flight| {
      var p := Pack(flight, at, mtu, keys, w, env.seals, i);
      PackTiles(flight, at, mtu, keys, w, env.seals, i);
      TileWeighs(flight, at, p.records);
      if !p.failed && p.records != [] && env.replies(j) > 0 {
        SendTiles(flight, p.at, mtu, keys, p.w, env, p.calls, j + 1);
        var rest := Send(flight, p.at, mtu, keys, p.w, env, p.calls, j + 1);
        assert ([p.records] + rest.packets)[1..] == rest.packets;
        TileConcat(flight, at, p.records, Flatten(rest.packets));
      }
    }
  }

  lemma TileOfNothing(flight: seq<OutMessage>, at: Cursor)
    ensures Tile(flight, at, []) == Some(at)
  {
  }

  // Many calls, each going on where the last one stopped.

  /** The records written so far tile the flight up to the cursor, or leave a gap. */
  ghost predicate Accounted(flight: seq<OutMessage>, delivered: seq<Record>, at: Cursor) {
    && Placed(flight, at)
    && (Tile(flight, START, delivered) == Some(at) || Weight(delivered) < WeightAt(flight, at))
  }

  /** After a call the records tile the flight up to the cursor if and only if they did
      before and no seal failed halfway through a packet: a gap is never closed. */
  lemma SendResumes(flight: seq<OutMessage>, delivered: seq<Record>, at: Cursor, mtu: nat, keys: Keys,
                    w: WriteState, env: Env)
    requires Accounted(flight, delivered, at)
    ensures var o := Send(flight, at, mtu, keys, w, env, 0, 0);
            var after := delivered + Flatten(o.packets);
            && Accounted(flight, after, o.at)
            && (Tile(flight, START, after) == Some(o.at) <==>
                  Tile(flight, START, delivered) == Some(at) && !FailsHalfway(flight, at, mtu, keys, w, env, 0, 0))
  {
    hide Send, FailsHalfway, Advance, ParseFragment;
    var o := Send(flight, at, mtu, keys, w, env, 0, 0);
    var recs := Flatten(o.packets);
    SendTiles(flight, at, mtu, keys, w, env, 0, 0);
    var stop := Tile(flight, at, recs).value;
    TileWeighs(flight, at, recs);
    WeightConcat(delivered, recs);
    if stop != o.at {
      BeforeWeighsLess(flight, stop, o.at);
    }
    if Tile(flight, START, delivered) == Some(at) {
      TileConcat(flight, START, delivered, recs);
      TileWeighs(flight, START, delivered);
    } else if Tile(flight, START, delivered + recs).Some? {
      TileWeighs(flight, START, delivered + recs);
    }
  }

  /** One call among others: the MTU, the keys and the counters it starts with. */
  datatype Call = Call(mtu: nat, keys: Keys, w: WriteState, env: Env)

  function Start(flight: seq<OutMessage>, at: Cursor, call: Call): Outcome {
    Send(flight, at, call.mtu, call.keys, call.w, call.env, 0, 0)
  }

  /** All the packets of a run of calls, and where it leaves the cursor. */
  function Resume(flight: seq<OutMessage>, at: Cursor, calls: seq<Call>): (seq<seq<Record>>, Cursor)
    decreases |calls|
  {
    if |calls| == 0 then ([], at)
    else
      var o := Start(flight, at, calls[0]);
      var rest := Resume(flight, o.at, calls[1..]);
      (o.packets + rest.0, rest.1)
  }

  predicate SomeHalfway(flight: seq<OutMessage>, at: Cursor, calls: seq<Call>)
    decreases |calls|
  {
    |calls| > 0
    && (FailsHalfway(flight, at, calls[0].mtu, calls[0].keys, calls[0].w, calls[0].env, 0, 0)
        || SomeHalfway(flight, Start(flight, at, calls[0]).at, calls[1..]))
  }

  lemma {:induction false} ResumeTilesFrom(flight: seq<OutMessage>, delivered: seq<Record>, at: Cursor, calls: seq<Call>)
    requires Accounted(flight, delivered, at)
    ensures var (packets, end) := Resume(flight, at, calls);
            Tile(flight, START, delivered + Flatten(packets)) == Some(end)
            <==> Tile(flight, START, delivered) == Some(at) && !SomeHalfway(flight, at, calls)
    decreases |calls|
  {
    hide Send, FailsHalfway, Accounted, Tile;
    if |calls| == 0 {
      assert delivered + Flatten([]) == delivered;
    } else {
      var call := calls[0];
      var o := Start(flight, at, call);
      SendResumes(flight, delivered, at, call.mtu, call.keys, call.w, call.env);
      var after := delivered + Flatten(o.packets);
      ResumeTilesFrom(flight, after, o.at, calls[1..]);
      var rest := Resume(flight, o.at, calls[1..]).0;
      FlattenConcat(o.packets, rest);
      assert delivered + Flatten(o.packets + rest) == after + Flatten(rest);
    }
  }

  /** Across refused packets, rollbacks and resumptions, with the MTU, keys and counters
      changing between calls, the records written tile the flight up to where it stopped
      if and only if in no call a seal failed halfway through a packet. */
  lemma ResumeTiles(flight: seq<OutMessage>, calls: seq<Call>)
    ensures var (packets, end) := Resume(flight, START, calls);
            Tile(flight, START, Flatten(packets)) == Some(end) <==> !SomeHalfway(flight, START, calls)
  {
    assert Tile(flight, START, []) == Some(START);
    ResumeTilesFrom(flight, [], START, calls);
    var packets := Resume(flight, START, calls).0;
    assert [] + Flatten(packets) == Flatten(packets);
  }

  // When no seal fails.

  /** Both counters last for the weight that is left of a flight. */
  predicate CountersLast(flight: seq<OutMessage>, at: Cursor, w: WriteState) {
    && at.written <= |flight|
    && w.seqNum + WeightBefore(flight, |flight|) < SEQUENCES + WeightAt(flight, at)
    && w.lastSeqNum + WeightBefore(flight, |flight|) < SEQUENCES + WeightAt(flight, at)
  }

  /** Nothing a caller can see before the call makes a seal fail: the messages are of the
      current or the previous epoch, the AEAD works, records fit their length field and
      the counters last. */
  ghost predicate Sound(flight: seq<OutMessage>, at: Cursor, mtu: nat, keys: Keys, w: WriteState,
                        seals: nat -> Option<seq<byte>>)
  {
    && keys.Ok() && AllWhole(flight) && Placed(flight, at) && CountersLast(flight, at, w)
    && (forall om <- flight :: UsePrevious(w, om).Some?)
    && (forall i :: seals(i).Some?)
    && mtu < TWO_16 + RT_HEADER_LENGTH
  }

  lemma SealSpendsOne(flight: seq<OutMessage>, at: Cursor, room: nat, keys: Keys, w: WriteState,
                      seals: nat -> Option<seq<byte>>, i: nat)
    requires at.written < |flight| && w.seqNum + 1 < SEQUENCES && w.lastSeqNum + 1 < SEQUENCES
    ensures var w' := SealNext(flight, at, room, keys, w, seals, i).w;
            w'.epoch == w.epoch && w'.seqNum <= w.seqNum + 1 && w'.lastSeqNum <= w.lastSeqNum + 1
  {
    hide ParseFragment, Todo, Content, Whole, Slice, Fragment.Bytes, Ciphertext;
  }

  /** A seal spends at most one number of each counter, and a record weighs at least one. */
  lemma SealSpends(flight: seq<OutMessage>, at: Cursor, room: nat, keys: Keys, w: WriteState,
                   seals: nat -> Option<seq<byte>>, i: nat)
    requires at.written < |flight| && Placed(flight, at) && CountersLast(flight, at, w)
    ensures w.seqNum + 1 < SEQUENCES && w.lastSeqNum + 1 < SEQUENCES
    ensures var a := SealNext(flight, at, room, keys, w, seals, i);
            a.w.epoch == w.epoch
            && (!a.result.SealError? ==> Placed(flight, a.at) && CountersLast(flight, a.at, a.w))
  {
    hide SealNext, Advance, WeightBefore, RecordWeight;
    WeightLeft(flight, at);
    SealAdvances(flight, at, room, keys, w, seals, i);
    SealSpendsOne(flight, at, room, keys, w, seals, i);
    var a := SealNext(flight, at, room, keys, w, seals, i);
    hide Placed;
    if a.result.SealPartial? || a.result.SealSuccess? {
      AdvanceWeighs(flight, at, a.result.rec);
      assert CountersLast(flight, a.at, a.w);
    } else {
      NoProgressSpendsNothing(flight, at, room, keys, w, seals, i);
    }
  }

  lemma NoProgressSpendsNothing(flight: seq<OutMessage>, at: Cursor, room: nat, keys: Keys, w: WriteState,
                                seals: nat -> Option<seq<byte>>, i: nat)
    requires at.written < |flight|
    ensures var a := SealNext(flight, at, room, keys, w, seals, i);
            a.result.NoProgress? ==> a == Attempt(NoProgress, at, w, i)
  {
    hide ParseFragment, Todo, Content, Whole, Slice, Fragment.Bytes, Sealed;
  }

  lemma WeightLeft(flight: seq<OutMessage>, at: Cursor)
    requires Placed(flight, at) && at.written < |flight|
    ensures WeightAt(flight, at) < WeightBefore(flight, |flight|)
  {
    hide ParseFragment;
    WeightGrows(flight, at.written + 1, |flight|);
  }

  lemma SealSound(flight: seq<OutMessage>, at: Cursor, room: nat, keys: Keys, w: WriteState,
                  seals: nat -> Option<seq<byte>>, i: nat)
    requires Sound(flight, at, room, keys, w, seals) && at.written < |flight|
    ensures var a := SealNext(flight, at, room, keys, w, seals, i);
            && !a.result.SealError? && Sound(flight, a.at, room, keys, a.w, seals) && a.w.epoch == w.epoch
            && (a.result.NoProgress? <==> !Fits(flight[at.written], room, keys.Of(UsePrevious(w, flight[at.written]).value)))
  {
    hide SealNext, ParseFragment, CountersLast, Placed;
    var om := flight[at.written];
    assert om in flight;
    SealErrorIff(flight, at, room, keys, w, seals, i);
    SealSpends(flight, at, room, keys, w, seals, i);
    var a := SealNext(flight, at, room, keys, w, seals, i);
    var use := UsePrevious(w, om).value;
    if Fits(om, room, keys.Of(use)) {
      PlacedInBody(flight, at);
      PlaintextFits(om, at.offset, room, keys.Of(use));
    }
  }

  lemma PlacedInBody(flight: seq<OutMessage>, at: Cursor)
    requires Placed(flight, at) && at.written < |flight| && AllWhole(flight)
    ensures flight[at.written].isCcs || (Whole(flight[at.written]) && at.offset <= |Content(flight[at.written]).body|)
  {
    assert flight[at.written] in flight;
  }

  lemma PlaintextFits(om: OutMessage, offset: nat, maxOut: nat, aead: Aead)
    requires om.isCcs || (Whole(om) && offset <= |Content(om).body|)
    requires Fits(om, maxOut, aead)
    ensures |NextPlaintext(om, offset, maxOut, aead)| + aead.overhead + RT_HEADER_LENGTH <= maxOut
  {
    hide ParseFragment, Fragment.Bytes;
  }

  lemma {:induction false} PackSound(flight: seq<OutMessage>, at: Cursor, room: nat, keys: Keys, w: WriteState,
                                     seals: nat -> Option<seq<byte>>, i: nat)
    requires Sound(flight, at, room, keys, w, seals)
    ensures var p := Pack(flight, at, room, keys, w, seals, i);
            !p.failed && Sound(flight, p.at, room, keys, p.w, seals) && p.w.epoch == w.epoch
            && (p.records == [] && at.written < |flight| ==>
                  !Fits(flight[at.written], room, keys.Of(UsePrevious(w, flight[at.written]).value)))
    decreases |flight| - at.written
  {
    hide SealNext, Fits, CountersLast;
    if at.written < |flight| {
      SealSound(flight, at, room, keys, w, seals, i);
      SealAdvances(flight, at, room, keys, w, seals, i);
      var a := SealNext(flight, at, room, keys, w, seals, i);
      if a.result.SealSuccess? {
        PackSound(flight, a.at, room - |a.result.rec.wire|, keys, a.w, seals, a.calls);
      }
    }
  }

  /** Where no seal fails, no packet does; if every message has room and the transport
      takes all there is, the call sends the whole flight. */
  lemma {:induction false} SendSound(flight: seq<OutMessage>, at: Cursor, mtu: nat, keys: Keys, w: WriteState,
                                     env: Env, i: nat, j: nat)
    requires Sound(flight, at, mtu, keys, w, env.seals)
    ensures !FailsHalfway(flight, at, mtu, keys, w, env, i, j)
    ensures (forall k :: env.replies(k) > 0) && env.flushed > 0
            && (forall om <- flight :: Fits(om, mtu, keys.Of(UsePrevious(w, om).value)))
            ==> Send(flight, at, mtu, keys, w, env, i, j).ret == 1
    decreases |flight| - at.written, if at.offset <= TWO_24 then TWO_24 - at.offset else 0
  {
    hide Pack, Fits, CountersLast, Placed;
    if at.written < |flight| {
      var p := Pack(flight, at, mtu, keys, w, env.seals, i);
      PackSound(flight, at, mtu, keys, w, env.seals, i);
      PackTiles(flight, at, mtu, keys, w, env.seals, i);
      if p.records != [] {
        SendSound(flight, p.at, mtu, keys, p.w, env, p.calls, j + 1);
      }
      assert flight[at.written] in flight;
    }
  }

  // When one does.

  /** A flight that ends with ChangeCipherSpec and Finished, sent in one packet after the
      keys have changed. */
  predicate FinalFlight(flight: seq<OutMessage>, mtu: nat, keys: Keys, w: WriteState) {
    && |flight| == 2 && flight[0].isCcs && !flight[1].isCcs && Whole(flight[1])
    && keys.Ok() && 1 <= w.epoch && flight[0].epoch == w.epoch - 1 && flight[1].epoch == w.epoch
    && w.lastSeqNum + 1 < SEQUENCES && w.seqNum + 1 < SEQUENCES
    && 2 * RT_HEADER_LENGTH + 1 + keys.previous.overhead + HEADER_LENGTH + 1 + keys.current.overhead
       + |Content(flight[1]).body| <= mtu < TWO_16
  }

  lemma FailingCall(flight: seq<OutMessage>, mtu: nat, keys: Keys, w: WriteState, env: Env)
    requires FinalFlight(flight, mtu, keys, w) && env.seals(0).Some? && env.seals(1).None?
    ensures FailsHalfway(flight, START, mtu, keys, w, env, 0, 0)
    ensures Send(flight, START, mtu, keys, w, env, 0, 0) == Outcome([], Cursor(1, 0), Step(w, Seal(true)), -1)
  {
    hide ParseFragment, Fragment.Bytes;
    var a := SealNext(flight, START, mtu, keys, w, env.seals, 0);
    assert a.result.SealSuccess? && a.at == Cursor(1, 0) && a.w == Step(w, Seal(true));
    var room := mtu - |a.result.rec.wire|;
    assert SealNext(flight, a.at, room, keys, a.w, env.seals, 1) == Attempt(SealError, a.at, a.w, 2);
    assert Pack(flight, a.at, room, keys, a.w, env.seals, 1) == Packed([], a.at, a.w, 2, true);
    assert Pack(flight, START, mtu, keys, w, env.seals, 0) == Packed([a.result.rec], a.at, a.w, 2, true);
  }

  lemma ResumingCall(flight: seq<OutMessage>, mtu: nat, keys: Keys, w: WriteState, env: Env)
    returns (rec: Record)
    requires FinalFlight(flight, mtu, keys, w)
    requires env.seals(0).Some? && env.replies(0) > 0 && env.flushed > 0
    ensures rec.typ == RT_HANDSHAKE
    ensures Send(flight, Cursor(1, 0), mtu, keys, w, env, 0, 0) == Outcome([[rec]], Cursor(2, 0), Step(w, Seal(false)), 1)
  {
    hide ParseFragment, Fragment.Bytes;
    var at := Cursor(1, 0);
    var c := SealNext(flight, at, mtu, keys, w, env.seals, 0);
    assert c.result.SealSuccess? && c.at == Cursor(2, 0) && c.w == Step(w, Seal(false));
    rec := c.result.rec;
    assert Pack(flight, c.at, mtu - |rec.wire|, keys, c.w, env.seals, 1) == Packed([], c.at, c.w, 1, false);
    assert Pack(flight, at, mtu, keys, w, env.seals, 0) == Packed([rec], c.at, c.w, 1, false);
    SendMore(flight, at, mtu, keys, w, env, 0, 0);
    SendDone(flight, c.at, mtu, keys, c.w, env, 1, 1);
    assert [[rec]] + [] == [[rec]];
  }

  /** If sealing Finished fails after ChangeCipherSpec went into the same packet, the
      packet is dropped and the next call goes on with Finished: it returns 1, and no
      ChangeCipherSpec has been written. */
  lemma DroppedChangeCipherSpec(flight: seq<OutMessage>, mtu: nat, keys: Keys, w: WriteState,
                                failing: Env, working: Env)
    requires FinalFlight(flight, mtu, keys, w) && w.lastSeqNum + 2 < SEQUENCES
    requires failing.seals(0).Some? && failing.seals(1).None?
    requires working.seals(0).Some? && working.replies(0) > 0 && working.flushed > 0
    ensures var first := Send(flight, START, mtu, keys, w, failing, 0, 0);
            var second := Send(flight, first.at, mtu, keys, first.w, working, 0, 0);
            var written := Flatten(first.packets + second.packets);
            && FailsHalfway(flight, START, mtu, keys, w, failing, 0, 0)
            && first.ret == -1 && second.ret == 1 && second.at == Cursor(2, 0)
            && |written| == 1 && written[0].typ == RT_HANDSHAKE
            && Tile(flight, START, written) == None
  {
    hide SealNext, Pack, Send, FailsHalfway, ParseFragment;
    FailingCall(flight, mtu, keys, w, failing);
    var first := Send(flight, START, mtu, keys, w, failing, 0, 0);
    var rec := ResumingCall(flight, mtu, keys, first.w, working);
    assert [] + [[rec]] == [[rec]];
    assert Flatten([[rec]]) == [rec];
  }
}
