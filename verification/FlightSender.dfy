/** The sending half of the DTLS handshake transport, and the sealing of its records. */
module FlightSender {
  import opened Bytes
  import opened DtlsRecord
  import opened HandshakeFragment
  import opened Flight
  import opened WriteSequence
  import opened FlightPlan
  import opened DtlsPackets
  import opened DtlsDelivery
  import opened Protocol

  const MIN_MTU: nat := 256 - 28
  const DEFAULT_MTU: nat := 1500 - 28

  /** A datagram transport: a write either takes the whole packet or nothing. */
  class Transport {
    ghost var packets: seq<seq<Record>>

    constructor ()
      ensures packets == []
    {
      packets := [];
    }

    method Write(packet: seq<Record>, reply: int) returns (ret: int)
      modifies this
      ensures ret == reply
      ensures packets == if ret > 0 then old(packets) + [packet] else old(packets)
    {
      if reply > 0 {
        packets := packets + [packet];
      }
      return reply;
    }
  }

  /** The MTU that is kept, queried, or the default. */
  function UpdatedMtu(mtu: nat, queried: int, noQuery: bool): (n: nat)
    ensures n >= MIN_MTU || noQuery
    ensures mtu >= MIN_MTU ==> n == mtu
    ensures mtu < MIN_MTU && !noQuery ==> n == if MIN_MTU <= queried <= 0x4000_0000 then queried else DEFAULT_MTU
  {
    if mtu >= MIN_MTU || noQuery then mtu
    else if MIN_MTU <= queried <= 0x4000_0000 then queried
    else DEFAULT_MTU
  }

  // the version of records under the null cipher
  const DTLS1_VERSION: nat := 0xfeff

  predicate NewAeadOk(aead: Aead) { aead.nonceLen <= aead.overhead && aead.version < TWO_16 }

  class DtlsSender {
    var outgoing: seq<OutMessage>
    var outgoingWritten: nat
    var outgoingOffset: nat
    var outgoingComplete: bool
    var flightHasReply: bool
    var handshakeWriteSeq: nat
    var wEpoch: nat
    var writeSequence: nat
    var lastWriteSequence: nat
    // the AEADs of the current and of the previous epoch
    var aead: Aead
    var lastAead: Aead
    var mtu: nat
    var writeShutdown: bool
    const wbio: Transport
    // every message ever queued
    ghost var queued: seq<Message>
    // the records written to the transport since the flight was last rewound
    ghost var delivered: seq<Record>
    // the numbers of all sealed records, and whether a counter has overflowed
    ghost var used: set<Nonce>
    ghost var overflowed: bool

    ghost function At(): Cursor
      reads this`outgoingWritten, this`outgoingOffset
    {
      Cursor(outgoingWritten, outgoingOffset)
    }

    ghost function WriteView(): WriteState
      reads this`wEpoch, this`writeSequence, this`lastWriteSequence
    {
      WriteState(wEpoch, writeSequence, lastWriteSequence)
    }

    ghost function Secrets(): Keys
      reads this`aead, this`lastAead
    {
      Keys(aead, lastAead)
    }

    ghost predicate CursorOk()
      reads this`outgoing, this`outgoingWritten, this`outgoingOffset
    {
      |outgoing| <= MAX_FLIGHT && AllWhole(outgoing) && Placed(outgoing, At())
    }

    /** Below 2^16 messages every queued message is the one its sequence number says. */
    ghost predicate QueueOk()
      reads this`queued, this`handshakeWriteSeq, this`outgoing
    {
      && handshakeWriteSeq == |queued| % TWO_16
      && (|queued| <= TWO_16 ==> AllQueued(queued, outgoing))
    }

    ghost predicate WriteOk()
      reads this`wEpoch, this`writeSequence, this`lastWriteSequence, this`overflowed, this`used
      reads this`aead, this`lastAead
    {
      && WriteView().Ok() && Secrets().Ok()
      && (!overflowed ==> forall n <- used :: !Unused(WriteView(), n))
    }

    /** The records written since the flight was last rewound tile it up to the cursor. */
    ghost predicate Tiled()
      reads this`outgoing, this`outgoingWritten, this`outgoingOffset, this`delivered
    {
      Tile(outgoing, START, delivered) == Some(At())
    }

    ghost predicate DeliveredOk()
      reads this`outgoing, this`outgoingWritten, this`outgoingOffset, this`outgoingComplete, this`delivered
    {
      && CursorOk()
      && (!outgoingComplete ==> At() == START && delivered == [])
      && Accounted(outgoing, delivered, At())
    }

    ghost predicate Valid()
      reads this
    {
      QueueOk() && WriteOk() && DeliveredOk()
    }

    constructor (wbio: Transport)
      ensures Valid() && this.wbio == wbio && !outgoingComplete && !writeShutdown && mtu == 0
      ensures outgoing == [] && queued == [] && used == {} && !overflowed && WriteView() == INITIAL
    {
      this.wbio := wbio;
      outgoing, outgoingWritten, outgoingOffset := [], 0, 0;
      outgoingComplete, flightHasReply, writeShutdown := false, false, false;
      handshakeWriteSeq, wEpoch, writeSequence, lastWriteSequence := 0, 0, 0, 0;
      aead, lastAead, mtu := Aead(0, 0, DTLS1_VERSION), Aead(0, 0, DTLS1_VERSION), 0;
      queued, delivered, used, overflowed := [], [], {}, false;
    }

    method ClearOutgoingMessages()
      requires Valid()
      modifies this`outgoing, this`outgoingWritten, this`outgoingOffset, this`outgoingComplete,
               this`flightHasReply, this`delivered
      ensures Valid() && outgoing == [] && !outgoingComplete && !flightHasReply
    {
      hide Unused, Unfragmented, ParseFragment, WriteState.Ok, Keys.Ok, WeightAt, Tile;
      TileOfNothing([], START);
      outgoing, outgoingWritten, outgoingOffset := [], 0, 0;
      outgoingComplete, flightHasReply := false, false;
      delivered := [];
    }

    /** Appends to the flight, starting a new one if the last was complete. */
    method AddOutgoing(isCcs: bool, data: seq<byte>, ghost m: Message) returns (ok: bool)
      requires Valid()
      requires !isCcs ==> |m.body| < TWO_24 && data == Unfragmented(m, handshakeWriteSeq)
      modifies this`outgoing, this`outgoingWritten, this`outgoingOffset, this`outgoingComplete,
               this`flightHasReply, this`delivered,
               this`queued, this`handshakeWriteSeq
      ensures Valid()
      ensures var prior := if old(outgoingComplete) then [] else old(outgoing);
        ok == (|prior| < MAX_FLIGHT)
        && outgoing == (if ok then prior + [OutMessage(isCcs, data, wEpoch)] else prior)
      ensures queued == if ok && !isCcs then old(queued) + [m] else old(queued)
      // The flight is open, and to be sent from its start.
      ensures !outgoingComplete && (ok ==> At() == START && delivered == [])
      ensures handshakeWriteSeq == |queued| % TWO_16
    {
      hide Unused, Unfragmented, ParseFragment, WriteState.Ok, Keys.Ok, WeightAt, Tile;
      if outgoingComplete {
        ClearOutgoingMessages();
      }
      if |outgoing| >= MAX_FLIGHT {
        return false;
      }
      var om := OutMessage(isCcs, data, wEpoch);
      if !isCcs {
        if |queued| < TWO_16 {
          assert handshakeWriteSeq == |queued|;
          QueueGrows(queued, m, outgoing, om);
        }
        queued := queued + [m];
        UnfragmentedIsWhole(m, handshakeWriteSeq);
        handshakeWriteSeq := (handshakeWriteSeq + 1) % TWO_16;
      }
      outgoing := outgoing + [om];
      TileOfNothing(outgoing, START);
      assert QueueOk();
      assert DeliveredOk();
      ok := true;
    }

    /** Serializes m under the next sequence number and queues it. */
    method AddMessage(m: Message) returns (ok: bool)
      requires Valid()
      modifies this`outgoing, this`outgoingWritten, this`outgoingOffset, this`outgoingComplete,
               this`flightHasReply, this`delivered,
               this`queued, this`handshakeWriteSeq
      ensures Valid()
      ensures var prior := if old(outgoingComplete) then [] else old(outgoing);
        && ok == (|m.body| < TWO_24 && |prior| < MAX_FLIGHT)
        && (if ok then outgoing == prior + [OutMessage(false, Unfragmented(m, old(handshakeWriteSeq)), wEpoch)]
                       && !outgoingComplete && At() == START && delivered == []
            else |m.body| >= TWO_24 || outgoing == prior)
      ensures queued == if ok then old(queued) + [m] else old(queued)
    {
      if |m.body| >= TWO_24 {
        return false;
      }
      var data := FinishMessage(Header(m.typ, 0, handshakeWriteSeq, 0, |m.body|) + m.body);
      FinishedIsUnfragmented(m, handshakeWriteSeq);
      ok := AddOutgoing(false, data, m);
    }

    method AddChangeCipherSpec() returns (ok: bool)
      requires Valid()
      modifies this`outgoing, this`outgoingWritten, this`outgoingOffset, this`outgoingComplete,
               this`flightHasReply, this`delivered,
               this`queued, this`handshakeWriteSeq
      ensures Valid() && queued == old(queued)
      ensures var prior := if old(outgoingComplete) then [] else old(outgoing);
        && ok == (|prior| < MAX_FLIGHT)
        && outgoing == (if ok then prior + [OutMessage(true, [], wEpoch)] else prior)
        && !outgoingComplete && (ok ==> At() == START && delivered == [])
    {
      ok := AddOutgoing(true, [], Message(0, []));
    }

    /** New keys; the keys and the counter of the old ones stay for retransmissions. */
    method SetWriteState(newAead: Aead)
      requires WriteOk() && NewAeadOk(newAead)
      modifies this`wEpoch, this`writeSequence, this`lastWriteSequence, this`overflowed,
               this`aead, this`lastAead
      ensures WriteOk() && aead == newAead && lastAead == old(aead)
      ensures WriteView() == Step(old(WriteView()), KeyChange)
      ensures overflowed == (old(overflowed) || Wraps(old(WriteView()), KeyChange))
    {
      overflowed := overflowed || Wraps(WriteView(), KeyChange);
      if !overflowed {
        StepUses(WriteView(), KeyChange);
      }
      wEpoch := (wEpoch + 1) % EPOCHS;
      lastWriteSequence, writeSequence := writeSequence, 0;
      lastAead, aead := aead, newAead;
    }

    /** Seals one record, given the verdict of the AEAD. */
    method SealRecord(maxOut: nat, typ: byte, plaintext: seq<byte>, previousEpoch: bool, verdict: Option<seq<byte>>)
      returns (rec: Option<Record>)
      requires WriteOk() && (previousEpoch ==> wEpoch >= 1)
      modifies this`writeSequence, this`lastWriteSequence, this`used, this`overflowed
      ensures WriteOk()
      ensures (rec, WriteView())
           == Sealed(Secrets(), old(WriteView()), maxOut, typ, plaintext, previousEpoch, verdict)
      // The number of a sealed record is new.
      ensures rec.Some? ==>
        var n := Nonce(rec.value.epoch, rec.value.seqNum);
        used == old(used) + {n} && overflowed == old(overflowed) && (!overflowed ==> n !in old(used))
      ensures rec.None? ==> used == old(used)
      ensures overflowed ==> old(overflowed) || rec.None?
    {
      if verdict.None? {
        return None;
      }
      var body := Ciphertext(if previousEpoch then lastAead else aead, plaintext, verdict.value);
      if maxOut < RT_HEADER_LENGTH + |body| {
        return None;
      }
      var op := Seal(previousEpoch);
      ghost var n := NonceOf(WriteView(), previousEpoch);
      ghost var wraps := Wraps(WriteView(), op);
      if !wraps {
        StepUses(WriteView(), op);
      }
      overflowed := overflowed || wraps;
      var epoch, seqNum := wEpoch, writeSequence;
      if previousEpoch {
        epoch, seqNum := wEpoch - 1, lastWriteSequence;
        lastWriteSequence := Increment(lastWriteSequence);
      } else {
        writeSequence := Increment(writeSequence);
      }
      if seqNum + 1 == SEQUENCES {
        return None;
      }
      if |body| >= TWO_16 {
        return None;
      }
      used := used + {n};
      var wire := [typ] + BeBytes(aead.version, 2) + BeBytes(RecordNumber(epoch, seqNum), 8) + BeBytes(|body|, 2) + body;
      return Some(Record(typ, epoch, seqNum, plaintext, wire));
    }

    /** Seals as much of the next message as fits into maxOut bytes. */
    method SealNextMessage(maxOut: nat, seals: nat -> Option<seq<byte>>, i: nat) returns (result: SealResult, calls: nat)
      requires CursorOk() && WriteOk() && outgoingWritten < |outgoing|
      modifies this`writeSequence, this`lastWriteSequence, this`used, this`overflowed, this`outgoingOffset
      ensures WriteOk()
      ensures result.SealSuccess? ==> outgoingOffset == 0
      ensures var next := if result.SealSuccess? then Cursor(outgoingWritten + 1, 0) else At();
        Attempt(result, next, WriteView(), calls)
        == SealNext(outgoing, old(At()), maxOut, Secrets(), old(WriteView()), seals, i)
    {
      assert outgoing[outgoingWritten].isCcs ==> outgoingOffset == 0;
      hide SealPiece, Sealed, Step, Unused, WriteState.Ok, Keys.Ok, AllWhole, Placed;
      var msg := outgoing[outgoingWritten];
      var previousEpoch := false;
      if wEpoch >= 1 && msg.epoch == wEpoch - 1 {
        previousEpoch := true;
      } else if msg.epoch != wEpoch {
        return SealError, i;
      }
      if !msg.isCcs {
        result, calls := SealFragment(msg, maxOut, previousEpoch, seals, i);
        return;
      }
      if maxOut < 1 + RT_HEADER_LENGTH + (if previousEpoch then lastAead else aead).overhead {
        return NoProgress, i;
      }
      var rec := SealRecord(maxOut, RT_CHANGE_CIPHER_SPEC, [MT_CCS], previousEpoch, seals(i));
      return if rec.None? then SealError else SealSuccess(rec.value), i + 1;
    }

    /** Seals the next fragment of a handshake message. */
    method SealFragment(msg: OutMessage, maxOut: nat, previousEpoch: bool, seals: nat -> Option<seq<byte>>, i: nat)
      returns (result: SealResult, calls: nat)
      requires WriteOk() && (previousEpoch ==> wEpoch >= 1)
      modifies this`writeSequence, this`lastWriteSequence, this`used, this`overflowed, this`outgoingOffset
      ensures WriteOk()
      ensures result.SealSuccess? ==> outgoingOffset == 0
      ensures var next := if result.SealSuccess? then Cursor(outgoingWritten + 1, 0) else At();
        Attempt(result, next, WriteView(), calls)
        == SealPiece(msg, old(At()), maxOut, Secrets(), old(WriteView()), previousEpoch, seals, i)
    {
      hide ParseFragment, Fragment.Bytes, Sealed, IsWire, Ciphertext, RecordBytes, Wraps, NonceOf, Step, Unused, WriteState.Ok, Keys.Ok;
      calls := i;
      var overhead := RT_HEADER_LENGTH + (if previousEpoch then lastAead else aead).overhead;
      var prefix := RT_HEADER_LENGTH + (if previousEpoch then lastAead else aead).nonceLen;
      var p := ParseFragment(msg.data);
      if p.None? {
        return SealError, calls;
      }
      var f := p.value.0;
      if f.fragOff != 0 || f.msgLen != |f.body| || outgoingOffset > |f.body| || |p.value.1| != 0 {
        return SealError, calls;
      }
      if maxOut < HEADER_LENGTH + 1 + overhead || maxOut < prefix {
        return NoProgress, calls;
      }
      var todo := |f.body| - outgoingOffset;
      if todo > maxOut - HEADER_LENGTH - overhead {
        todo := maxOut - HEADER_LENGTH - overhead;
      }
      if maxOut - prefix < HEADER_LENGTH + todo {
        return SealError, calls;
      }
      calls := i + 1;
      var frag := Slice(f, outgoingOffset, todo).Bytes();
      var rec := SealRecord(maxOut, RT_HANDSHAKE, frag, previousEpoch, seals(i));
      if rec.None? {
        return SealError, calls;
      }
      if todo == |f.body| - outgoingOffset {
        outgoingOffset := 0;
        return SealSuccess(rec.value), calls;
      }
      outgoingOffset := outgoingOffset + todo;
      return SealPartial(rec.value), calls;
    }

    /** Fills one packet of at most maxOut bytes from the cursor on. */
    method SealNextPacket(maxOut: nat, seals: nat -> Option<seq<byte>>, i: nat)
      returns (ok: bool, packet: seq<Record>, calls: nat)
      requires CursorOk() && WriteOk() && outgoingWritten < |outgoing|
      modifies this`writeSequence, this`lastWriteSequence, this`used, this`overflowed,
               this`outgoingWritten, this`outgoingOffset
      ensures CursorOk() && WriteOk()
      ensures var p := Pack(outgoing, old(At()), maxOut, Secrets(), old(WriteView()), seals, i);
        && ok == (!p.failed && p.records != [])
        && packet == p.records && At() == p.at && WriteView() == p.w && calls == p.calls
    {
      hide SealNext, Advance, Unused, Placed, AllWhole, WriteState.Ok, Keys.Ok, WeightAt, RecordWeight;
      packet, calls := [], i;
      var room: nat := maxOut;
      while outgoingWritten < |outgoing|
        invariant CursorOk() && WriteOk()
        invariant var rest := Pack(outgoing, At(), room, Secrets(), WriteView(), seals, calls);
          Pack(outgoing, old(At()), maxOut, Secrets(), old(WriteView()), seals, i)
          == rest.(records := packet + rest.records)
        decreases |outgoing| - outgoingWritten
      {
        ghost var at := At();
        SealAdvances(outgoing, at, room, Secrets(), WriteView(), seals, calls);
        ghost var rest := Pack(outgoing, at, room, Secrets(), WriteView(), seals, calls);
        NoProgressSpendsNothing(outgoing, at, room, Secrets(), WriteView(), seals, calls);
        var result;
        result, calls := SealNextMessage(room, seals, calls);
        if result == SealError {
          assert packet + rest.records == packet;
          return false, packet, calls;
        }
        if result == NoProgress {
          assert packet + rest.records == packet;
          break;
        }
        AdvanceWeighs(outgoing, at, result.rec);
        packet := packet + [result.rec];
        if result.SealPartial? {
          break;
        }
        room := room - |result.rec.wire|;
        outgoingWritten := outgoingWritten + 1;
      }
      // A packet without a record means that not even one fits.
      ok := packet != [];
    }

    method UpdateMtu(queried: int, noQuery: bool)
      modifies this`mtu
      ensures mtu == UpdatedMtu(old(mtu), queried, noQuery)
    {
      if mtu < MIN_MTU && !noQuery {
        mtu := if queried >= 0 && queried <= 0x4000_0000 && queried >= MIN_MTU then queried else DEFAULT_MTU;
      }
    }

    /** The SSL_set_mtu of the application. */
    method SetMtu(newMtu: nat) returns (ok: bool)
      modifies this`mtu
      ensures ok == (newMtu >= MIN_MTU) && mtu == if ok then newMtu else old(mtu)
    {
      if newMtu < MIN_MTU {
        return false;
      }
      mtu := newMtu;
      return true;
    }

    /** Seals and writes one packet.  A packet the transport refuses is rolled back, and
        sealed again next time; one that fails to seal halfway is not. */
    method SendPacket(env: Env, i: nat, j: nat) returns (ret: int, packet: seq<Record>, calls: nat)
      requires CursorOk() && WriteOk() && outgoingWritten < |outgoing|
      modifies this`writeSequence, this`lastWriteSequence, this`used, this`overflowed,
               this`outgoingWritten, this`outgoingOffset, wbio
      ensures CursorOk() && WriteOk()
      ensures var p := Pack(outgoing, old(At()), mtu, Secrets(), old(WriteView()), env.seals, i);
        && WriteView() == p.w && packet == p.records && calls == p.calls
        && ret == (if p.failed || p.records == [] then -1 else env.replies(j))
        && At() == (if !p.failed && ret <= 0 then old(At()) else p.at)
      ensures wbio.packets == if ret > 0 then old(wbio.packets) + [packet] else old(wbio.packets)
    {
      hide Pack, PacketBytes, Unused, Placed, AllWhole;
      PackTiles(outgoing, At(), mtu, Secrets(), WriteView(), env.seals, i);
      hide Tile;
      var oldWritten, oldOffset := outgoingWritten, outgoingOffset;
      var ok;
      ok, packet, calls := SealNextPacket(mtu, env.seals, i);
      if !ok {
        return -1, packet, calls;
      }
      ret := wbio.Write(packet, env.replies(j));
      if ret <= 0 {
        outgoingWritten, outgoingOffset := oldWritten, oldOffset;
      }
    }

    /** Sends packets from the cursor on until the flight is sent or something stops it. */
    method SendPackets(env: Env) returns (ret: int, ghost sent: seq<seq<Record>>)
      requires CursorOk() && WriteOk()
      modifies this`writeSequence, this`lastWriteSequence, this`used, this`overflowed,
               this`outgoingWritten, this`outgoingOffset, wbio
      ensures CursorOk() && WriteOk() && wbio.packets == old(wbio.packets) + sent
      ensures Outcome(sent, At(), WriteView(), ret)
           == Send(outgoing, old(At()), mtu, Secrets(), old(WriteView()), env, 0, 0)
    {
      hide Pack, PacketBytes, Send, Tile, Unused, Placed, AllWhole, Keys.Ok, WriteState.Ok;
      sent := [];
      ghost var run := Send(outgoing, At(), mtu, Secrets(), WriteView(), env, 0, 0);
      var calls, writes := 0, 0;
      while outgoingWritten < |outgoing|
        invariant CursorOk() && WriteOk()
        invariant var rest := Send(outgoing, At(), mtu, Secrets(), WriteView(), env, calls, writes);
          run == rest.(packets := sent + rest.packets)
        invariant wbio.packets == old(wbio.packets) + sent
        decreases |outgoing| - outgoingWritten, if outgoingOffset <= TWO_24 then TWO_24 - outgoingOffset else 0
      {
        PackTiles(outgoing, At(), mtu, Secrets(), WriteView(), env.seals, calls);
        SendMore(outgoing, At(), mtu, Secrets(), WriteView(), env, calls, writes);
        var packet;
        ret, packet, calls := SendPacket(env, calls, writes);
        if ret <= 0 {
          assert sent + [] == sent;
          return;
        }
        writes := writes + 1;
        PacketsJoin(sent, packet, Send(outgoing, At(), mtu, Secrets(), WriteView(), env, calls, writes).packets);
        sent := sent + [packet];
      }
      SendDone(outgoing, At(), mtu, Secrets(), WriteView(), env, calls, writes);
      assert sent + [] == sent;
      ret := if env.flushed <= 0 then -1 else 1;
    }

    /** What sending the flight from a cursor did.  If the records written before it tiled
        the flight up to there, they still do exactly unless a seal failed halfway through
        a packet. */
    ghost predicate Sent(from: Cursor, w: WriteState, tiled: bool, env: Env, ret: int, sent: seq<seq<Record>>)
      reads this
    {
      if writeShutdown then ret == -1 && sent == [] && At() == from && WriteView() == w && Tiled() == tiled
      else
        var run := Send(outgoing, from, mtu, Secrets(), w, env, 0, 0);
        && sent == run.packets && At() == run.at && WriteView() == run.w && ret == run.ret
        && (Tiled() <==> tiled && !FailsHalfway(outgoing, from, mtu, Secrets(), w, env, 0, 0))
        && (ret == 1 ==> At() == Cursor(|outgoing|, 0))
        && (forall p <- sent :: |PacketBytes(p)| <= mtu)
        && (mtu <= SAFE_MTU ==> forall p <- sent :: ReadsBack(p, aead.version))
    }

    method SendFlight(queried: int, noQuery: bool, env: Env) returns (ret: int, ghost sent: seq<seq<Record>>)
      requires Valid() && outgoingComplete
      modifies this`writeSequence, this`lastWriteSequence, this`used, this`overflowed,
               this`outgoingWritten, this`outgoingOffset, this`delivered, this`mtu, wbio
      ensures Valid() && Sent(old(At()), old(WriteView()), old(Tiled()), env, ret, sent)
      ensures mtu == if writeShutdown then old(mtu) else UpdatedMtu(old(mtu), queried, noQuery)
      ensures wbio.packets == old(wbio.packets) + sent && delivered == old(delivered) + Flatten(sent)
      ensures |queued| <= TWO_16 ==> forall p <- sent :: AllCut(queued, p)
    {
      hide PacketBytes, ReadsBack, Send, FailsHalfway, Tile, AllCut, AllQueued, Unused, Accounted, Placed, AllWhole, Keys.Ok, WriteState.Ok;
      if writeShutdown {
        assert delivered == delivered + Flatten([]);
        return -1, [];
      }
      UpdateMtu(queried, noQuery);
      SendTiles(outgoing, At(), mtu, Secrets(), WriteView(), env, 0, 0);
      SendResumes(outgoing, delivered, At(), mtu, Secrets(), WriteView(), env);
      if mtu <= SAFE_MTU {
        SendReadsBack(outgoing, At(), mtu, Secrets(), WriteView(), env, 0, 0);
      }
      ret, sent := SendPackets(env);
      if |queued| <= TWO_16 {
        TilingIsCut(queued, outgoing, old(At()), sent);
      }
      delivered := delivered + Flatten(sent);
    }

    method FlushFlight(queried: int, noQuery: bool, env: Env) returns (ret: int, ghost sent: seq<seq<Record>>)
      requires Valid()
      modifies this`writeSequence, this`lastWriteSequence, this`used, this`overflowed, this`outgoingComplete,
               this`outgoingWritten, this`outgoingOffset, this`delivered, this`mtu, wbio
      ensures Valid() && outgoingComplete
      ensures Sent(old(At()), old(WriteView()), old(Tiled()), env, ret, sent)
      ensures mtu == if writeShutdown then old(mtu) else UpdatedMtu(old(mtu), queried, noQuery)
      ensures wbio.packets == old(wbio.packets) + sent && delivered == old(delivered) + Flatten(sent)
      ensures |queued| <= TWO_16 ==> forall p <- sent :: AllCut(queued, p)
    {
      hide PacketBytes, ReadsBack, Send, FailsHalfway, Tile, AllCut, AllQueued, Unused, Accounted, Placed, AllWhole, Keys.Ok, WriteState.Ok;
      outgoingComplete := true;
      ret, sent := SendFlight(queried, noQuery, env);
    }

    /** Rewinds to the start of the flight and writes it again. */
    method RetransmitOutgoingMessages(queried: int, noQuery: bool, env: Env)
      returns (ret: int, ghost sent: seq<seq<Record>>)
      requires Valid() && outgoingComplete
      modifies this`writeSequence, this`lastWriteSequence, this`used, this`overflowed,
               this`outgoingWritten, this`outgoingOffset, this`delivered, this`mtu, wbio
      ensures Valid() && Sent(START, old(WriteView()), true, env, ret, sent)
      ensures mtu == if writeShutdown then old(mtu) else UpdatedMtu(old(mtu), queried, noQuery)
      ensures wbio.packets == old(wbio.packets) + sent && delivered == Flatten(sent)
      ensures |queued| <= TWO_16 ==> forall p <- sent :: AllCut(queued, p)
    {
      hide PacketBytes, ReadsBack, Send, FailsHalfway, AllCut, AllQueued, Unused;
      outgoingWritten, outgoingOffset := 0, 0;
      delivered := [];
      ret, sent := SendFlight(queried, noQuery, env);
    }
  }

  lemma PacketsJoin(a: seq<seq<Record>>, packet: seq<Record>, b: seq<seq<Record>>)
    ensures a + ([packet] + b) == a + [packet] + b
  {
  }

  /** What the handshake, the timer and the application ask of a sender. */
  datatype Command =
    | Queue(m: Message)
    | QueueChangeCipherSpec
    | Flush(queried: int, noQuery: bool, env: Env)
    | Retransmit(queried: int, noQuery: bool, env: Env)
    | NewKeys(newAead: Aead)
    | NewMtu(mtu: nat)

  /** The packets of the transport hold nothing but fragments of the queued messages. */
  ghost predicate Honest(s: DtlsSender)
    reads s, s.wbio
  {
    |s.queued| <= TWO_16 ==> forall p <- s.wbio.packets :: AllCut(s.queued, p)
  }

  method Obey(s: DtlsSender, cmd: Command)
    requires s.Valid() && Honest(s)
    requires cmd.NewKeys? ==> NewAeadOk(cmd.newAead)
    modifies s, s.wbio
    ensures s.Valid() && Honest(s) && old(s.queued) <= s.queued
  {
    hide AllCut, AllQueued, Unused, Accounted, Placed, AllWhole, Tile, Send, FailsHalfway, Unfragmented, ParseFragment;
    ghost var queued, packets := s.queued, s.wbio.packets;
    match cmd
    case Queue(m) =>
      var ok := s.AddMessage(m);
      if |s.queued| <= TWO_16 {
        AllCutMore(queued, s.queued, packets);
      }
    case QueueChangeCipherSpec =>
      var ok := s.AddChangeCipherSpec();
    case Flush(queried, noQuery, env) =>
      var ret, sent := s.FlushFlight(queried, noQuery, env);
    case Retransmit(queried, noQuery, env) =>
      if s.outgoingComplete {
        var ret, sent := s.RetransmitOutgoingMessages(queried, noQuery, env);
      }
    case NewKeys(newAead) =>
      s.SetWriteState(newAead);
    case NewMtu(mtu) =>
      var ok := s.SetMtu(mtu);
  }

  /** From queueing to the other side: whatever a new sender is asked to do, whatever the
      AEAD and the transport answer, and however records are then lost, repeated and
      reordered, the receiver consumes a prefix of the queued messages. */
  method Converse(s: DtlsSender, cmds: seq<Command>)
    requires s.Valid() && s.queued == [] && s.wbio.packets == []
    requires forall cmd <- cmds :: cmd.NewKeys? ==> NewAeadOk(cmd.newAead)
    modifies s, s.wbio
    ensures s.Valid() && Honest(s)
    ensures |s.queued| < TWO_16 ==>
      forall evs, maxLen | ArriveFrom(s.wbio.packets, evs) :: ConsumesQueue(s.queued, evs, maxLen)
  {
    hide AllCut, ConsumesQueue, ArriveFrom;
    for i := 0 to |cmds|
      invariant s.Valid() && Honest(s)
    {
      Obey(s, cmds[i]);
    }
    if |s.queued| < TWO_16 {
      forall evs, maxLen | ArriveFrom(s.wbio.packets, evs) ensures ConsumesQueue(s.queued, evs, maxLen) {
        PacketsDeliver(s.queued, s.wbio.packets, evs, maxLen);
      }
    }
  }

  /** The total length is filled in last, copied from the fragment length. */
  function FinishMessage(raw: seq<byte>): seq<byte>
    requires |raw| >= HEADER_LENGTH
  {
    raw[..1] + raw[HEADER_LENGTH - 3..HEADER_LENGTH] + raw[4..]
  }

  lemma FinishedIsUnfragmented(m: Message, seqNum: nat)
    ensures FinishMessage(Header(m.typ, 0, seqNum, 0, |m.body|) + m.body) == Unfragmented(m, seqNum)
  {
    hide BeBytes;
    var len := BeBytes(|m.body|, 3);
    var tail := BeBytes(seqNum, 2) + BeBytes(0, 3) + len + m.body;
    var raw := Header(m.typ, 0, seqNum, 0, |m.body|) + m.body;
    assert raw == [m.typ] + BeBytes(0, 3) + tail;
    assert raw[HEADER_LENGTH - 3..HEADER_LENGTH] == len && raw[4..] == tail && raw[..1] == [m.typ];
  }
}
