/**
 The receiving half of the DTLS handshake transport as a value: seven slots of
 partly received messages, what one fragment does to them, and what an honest
 peer's fragments can therefore make the handshake see.
 */
module Reassembly {
  import opened Bytes
  import opened HandshakeFragment
  import opened Protocol

  const AD_UNEXPECTED_MESSAGE: nat := 10
  const AD_ILLEGAL_PARAMETER: nat := 47
  const AD_DECODE_ERROR: nat := 50
  const AD_INTERNAL_ERROR: nat := 80

  /** A message under reassembly; a byte not yet received is None. */
  datatype Incoming = Incoming(typ: byte, seqNum: nat, body: seq<Option<byte>>)
  {
    ghost predicate Complete() {
      forall k | 0 <= k < |body| :: body[k].Some?
    }
  }

  datatype Receiver = Receiver(readSeq: nat, rEpoch: nat, ring: seq<Option<Incoming>>)

  ghost predicate RingOk(r: Receiver) {
    && r.readSeq < TWO_16
    && |r.ring| == MAX_FLIGHT
    && forall i | 0 <= i < MAX_FLIGHT && r.ring[i].Some? ::
         var inc := r.ring[i].value;
         r.readSeq <= inc.seqNum < r.readSeq + MAX_FLIGHT && inc.seqNum < TWO_16
         && inc.seqNum % MAX_FLIGHT == i
  }

  datatype Outcome = Continue | Fail(alert: nat)

  function Fresh(f: Fragment): (inc: Incoming)
    ensures inc.typ == f.typ && inc.seqNum == f.seqNum && |inc.body| == f.msgLen
  {
    Incoming(f.typ, f.seqNum, seq(f.msgLen, k => None))
  }

  ghost function Deliver(inc: Incoming, f: Fragment): Incoming
    requires f.fragOff + |f.body| <= |inc.body|
  {
    if inc.Complete() then inc
    else inc.(body := seq(|inc.body|, k requires 0 <= k < |inc.body| =>
      if f.fragOff <= k < f.fragOff + |f.body| then Some(f.body[k - f.fragOff]) else inc.body[k]))
  }

  /** What one fragment does. */
  ghost function OnFragment(r: Receiver, f: Fragment, maxLen: nat): (Receiver, Outcome)
    requires |r.ring| == MAX_FLIGHT
  {
    if f.fragOff + |f.body| > f.msgLen || f.msgLen > maxLen then (r, Fail(AD_ILLEGAL_PARAMETER))
    else if r.rEpoch == 1 && f.seqNum != r.readSeq then (r, Fail(AD_UNEXPECTED_MESSAGE))
    else if f.seqNum < r.readSeq || f.seqNum > r.readSeq + MAX_FLIGHT then (r, Continue)
    else if f.seqNum - r.readSeq >= MAX_FLIGHT then (r, Fail(AD_INTERNAL_ERROR))
    else
      var idx := f.seqNum % MAX_FLIGHT;
      var inc := if r.ring[idx].Some? then r.ring[idx].value else Fresh(f);
      if inc.typ != f.typ || |inc.body| != f.msgLen then (r, Fail(AD_ILLEGAL_PARAMETER))
      else (r.(ring := r.ring[idx := Some(Deliver(inc, f))]), Continue)
  }

  /** What a handshake record does: its fragments in turn, up to the first failure. */
  ghost function OnRecord(r: Receiver, record: seq<byte>, maxLen: nat): (Receiver, Outcome)
    requires |r.ring| == MAX_FLIGHT
    decreases |record|
  {
    if |record| == 0 then (r, Continue)
    else
      var p := ParseFragment(record);
      if p.None? then (r, Fail(AD_DECODE_ERROR))
      else
        var (r', o) := OnFragment(r, p.value.0, maxLen);
        if o.Fail? then (r', o) else OnRecord(r', p.value.1, maxLen)
  }

  function Current(r: Receiver): nat { r.readSeq % MAX_FLIGHT }

  ghost predicate HasMessage(r: Receiver)
    requires |r.ring| == MAX_FLIGHT
  {
    r.ring[Current(r)].Some? && r.ring[Current(r)].value.Complete()
  }

  function Received(body: seq<Option<byte>>): (bs: seq<byte>)
    requires forall k | 0 <= k < |body| :: body[k].Some?
  {
    seq(|body|, k requires 0 <= k < |body| => body[k].value)
  }

  /** The raw bytes of the current message, header included. */
  ghost function RawMessage(r: Receiver): seq<byte>
    requires |r.ring| == MAX_FLIGHT && HasMessage(r)
  {
    var inc := r.ring[Current(r)].value;
    Unfragmented(Message(inc.typ, Received(inc.body)), inc.seqNum)
  }

  function Next(r: Receiver): Receiver
    requires |r.ring| == MAX_FLIGHT
  {
    r.(ring := r.ring[Current(r) := None], readSeq := (r.readSeq + 1) % TWO_16)
  }

  function NextEpoch(r: Receiver): Receiver { r.(rEpoch := (r.rEpoch + 1) % TWO_16) }

  const INITIAL := Receiver(0, 0, seq(MAX_FLIGHT, i => None))

  // The ring invariant.

  lemma InitialRing()
    ensures RingOk(INITIAL)
  {
  }

  /** A slot that is in use belongs to the sequence number that maps to it. */
  lemma SlotHasSameSequence(r: Receiver, seqNum: nat)
    requires RingOk(r) && r.readSeq <= seqNum < r.readSeq + MAX_FLIGHT
    requires r.ring[seqNum % MAX_FLIGHT].Some?
    ensures r.ring[seqNum % MAX_FLIGHT].value.seqNum == seqNum
  {
  }

  lemma DeliverKeepsRing(r: Receiver, idx: nat, f: Fragment)
    requires RingOk(r) && idx < MAX_FLIGHT && r.ring[idx].Some? && f.fragOff + |f.body| <= |r.ring[idx].value.body|
    ensures var r' := r.(ring := r.ring[idx := Some(Deliver(r.ring[idx].value, f))]);
            RingOk(r') && (HasMessage(r) ==> HasMessage(r'))
  {
  }

  lemma FragmentKeepsRing(r: Receiver, f: Fragment, maxLen: nat)
    requires RingOk(r) && f.seqNum < TWO_16
    ensures RingOk(OnFragment(r, f, maxLen).0)
    ensures OnFragment(r, f, maxLen).0.readSeq == r.readSeq
    ensures OnFragment(r, f, maxLen).0.rEpoch == r.rEpoch
  {
    if r.readSeq <= f.seqNum < r.readSeq + MAX_FLIGHT && r.ring[f.seqNum % MAX_FLIGHT].Some? {
      SlotHasSameSequence(r, f.seqNum);
    }
  }

  lemma {:induction false} RecordKeepsRing(r: Receiver, record: seq<byte>, maxLen: nat)
    requires RingOk(r)
    ensures RingOk(OnRecord(r, record, maxLen).0)
    ensures OnRecord(r, record, maxLen).0.readSeq == r.readSeq
    ensures OnRecord(r, record, maxLen).0.rEpoch == r.rEpoch
    decreases |record|
  {
    if |record| > 0 && ParseFragment(record).Some? {
      var (f, rest) := ParseFragment(record).value;
      FragmentKeepsRing(r, f, maxLen);
      RecordKeepsRing(OnFragment(r, f, maxLen).0, rest, maxLen);
    }
  }

  /** Consuming a message keeps the ring invariant even when the 16-bit sequence
      number wraps, although 7 does not divide 2^16: by then the ring is empty. */
  lemma NextKeepsRing(r: Receiver)
    requires RingOk(r)
    ensures RingOk(Next(r))
  {
    forall i | 0 <= i < MAX_FLIGHT && Next(r).ring[i].Some?
      ensures r.readSeq + 1 <= r.ring[i].value.seqNum && r.readSeq + 1 < TWO_16
    {
      assert r.ring[i].value.seqNum % MAX_FLIGHT == i != r.readSeq % MAX_FLIGHT;
    }
  }

  // An honest peer.

  /** f is cut from the messages the peer queued, msgs[k] having sequence number k. */
  ghost predicate Honest(msgs: seq<Message>, f: Fragment) {
    && f.Encodable()
    && f.seqNum < |msgs|
    && var m := msgs[f.seqNum];
       f.typ == m.typ && f.msgLen == |m.body| && f.fragOff + |f.body| <= |m.body|
       && f.body == m.body[f.fragOff..f.fragOff + |f.body|]
  }

  ghost predicate HonestRecord(msgs: seq<Message>, fs: seq<Fragment>) {
    forall f <- fs :: Honest(msgs, f)
  }

  function RecordBytes(fs: seq<Fragment>): seq<byte> {
    if |fs| == 0 then [] else fs[0].Bytes() + RecordBytes(fs[1..])
  }

  /** Everything stored so far agrees with what the peer queued. */
  ghost predicate Faithful(r: Receiver, msgs: seq<Message>) {
    forall i | 0 <= i < |r.ring| && r.ring[i].Some? ::
      FaithfulMessage(r.ring[i].value, msgs)
  }

  ghost predicate FaithfulMessage(inc: Incoming, msgs: seq<Message>) {
    && inc.seqNum < |msgs|
    && var m := msgs[inc.seqNum];
       inc.typ == m.typ && |inc.body| == |m.body|
       && forall k | 0 <= k < |inc.body| && inc.body[k].Some? :: inc.body[k].value == m.body[k]
  }

  lemma FragmentKeepsFaithful(r: Receiver, msgs: seq<Message>, f: Fragment, maxLen: nat)
    requires RingOk(r) && Faithful(r, msgs) && Honest(msgs, f)
    ensures Faithful(OnFragment(r, f, maxLen).0, msgs)
  {
    if r.readSeq <= f.seqNum < r.readSeq + MAX_FLIGHT {
      var idx := f.seqNum % MAX_FLIGHT;
      if r.ring[idx].Some? {
        SlotHasSameSequence(r, f.seqNum);
      } else {
        assert FaithfulMessage(Fresh(f), msgs);
      }
      var inc := if r.ring[idx].Some? then r.ring[idx].value else Fresh(f);
      assert FaithfulMessage(inc, msgs) && inc.seqNum == f.seqNum;
      assert FaithfulMessage(Deliver(inc, f), msgs);
    }
  }

  lemma {:induction false} RecordKeepsFaithful(r: Receiver, msgs: seq<Message>, fs: seq<Fragment>, maxLen: nat)
    requires RingOk(r) && Faithful(r, msgs) && HonestRecord(msgs, fs)
    ensures Faithful(OnRecord(r, RecordBytes(fs), maxLen).0, msgs)
    decreases |fs|
  {
    if |fs| > 0 {
      var f := fs[0];
      assert Honest(msgs, f);
      ParseInvertsBytes(f, RecordBytes(fs[1..]));
      FragmentKeepsFaithful(r, msgs, f, maxLen);
      FragmentKeepsRing(r, f, maxLen);
      RecordKeepsFaithful(OnFragment(r, f, maxLen).0, msgs, fs[1..], maxLen);
    }
  }

  /** Exactly when a fragment of an honest peer is refused.  The last disjunct is
      the fragment one past the window, which is neither stored nor ignored. */
  lemma HonestRefusal(r: Receiver, msgs: seq<Message>, f: Fragment, maxLen: nat)
    requires RingOk(r) && Faithful(r, msgs) && Honest(msgs, f)
    ensures OnFragment(r, f, maxLen).1.Fail?
       <==> f.msgLen > maxLen || (r.rEpoch == 1 && f.seqNum != r.readSeq)
            || f.seqNum == r.readSeq + MAX_FLIGHT
    ensures f.msgLen <= maxLen && r.rEpoch != 1 && f.seqNum == r.readSeq + MAX_FLIGHT
        ==> OnFragment(r, f, maxLen) == (r, Fail(AD_INTERNAL_ERROR))
  {
    if r.readSeq <= f.seqNum < r.readSeq + MAX_FLIGHT && r.ring[f.seqNum % MAX_FLIGHT].Some? {
      SlotHasSameSequence(r, f.seqNum);
      assert FaithfulMessage(r.ring[f.seqNum % MAX_FLIGHT].value, msgs);
    }
  }

  lemma FaithfulRaw(r: Receiver, msgs: seq<Message>)
    requires RingOk(r) && Faithful(r, msgs) && HasMessage(r)
    ensures r.readSeq < |msgs|
    ensures RawMessage(r) == Unfragmented(msgs[r.readSeq], r.readSeq)
  {
    var inc := r.ring[Current(r)].value;
    SlotHasSameSequence(r, r.readSeq);
    assert FaithfulMessage(inc, msgs);
    assert Received(inc.body) == msgs[r.readSeq].body;
  }

  // Whole runs.

  /** A handshake record that reached the receiver, a change of read epoch, or the
      handshake asking for and consuming the current message. */
  datatype Event = Arrive(fragments: seq<Fragment>) | NewEpoch | Consume

  /** The reading side of a connection: once a record has been refused, every later
      one is (ssl/ssl_lib.cc:209-241). */
  datatype Reader = Reader(receiver: Receiver, failed: bool)

  const START := Reader(INITIAL, false)

  ghost function Run(rd: Reader, ev: Event, maxLen: nat): Reader
    requires |rd.receiver.ring| == MAX_FLIGHT
  {
    var r := rd.receiver;
    match ev
    case Arrive(fs) =>
      if rd.failed then rd
      else
        var (r', o) := OnRecord(r, RecordBytes(fs), maxLen);
        Reader(r', o.Fail?)
    case NewEpoch => rd.(receiver := NextEpoch(r))
    case Consume => if HasMessage(r) then rd.(receiver := Next(r)) else rd
  }

  ghost function RunAll(rd: Reader, evs: seq<Event>, maxLen: nat): (end: Reader)
    requires RingOk(rd.receiver)
    ensures RingOk(end.receiver)
    decreases |evs|
  {
    if |evs| == 0 then rd
    else
      RunKeepsRing(rd, evs[0], maxLen);
      RunAll(Run(rd, evs[0], maxLen), evs[1..], maxLen)
  }

  /** The raw messages the handshake consumes over a run, in order. */
  ghost function Consumed(rd: Reader, evs: seq<Event>, maxLen: nat): seq<seq<byte>>
    requires RingOk(rd.receiver)
    decreases |evs|
  {
    if |evs| == 0 then []
    else
      RunKeepsRing(rd, evs[0], maxLen);
      (if evs[0].Consume? && HasMessage(rd.receiver) then [RawMessage(rd.receiver)] else [])
      + Consumed(Run(rd, evs[0], maxLen), evs[1..], maxLen)
  }

  lemma RunKeepsRing(rd: Reader, ev: Event, maxLen: nat)
    requires RingOk(rd.receiver)
    ensures RingOk(Run(rd, ev, maxLen).receiver)
  {
    if ev.Arrive? {
      RecordKeepsRing(rd.receiver, RecordBytes(ev.fragments), maxLen);
    } else if ev.Consume? {
      NextKeepsRing(rd.receiver);
    }
  }

  ghost predicate HonestRun(msgs: seq<Message>, evs: seq<Event>) {
    forall ev <- evs :: ev.Arrive? ==> HonestRecord(msgs, ev.fragments)
  }

  lemma RunKeepsFaithful(rd: Reader, msgs: seq<Message>, ev: Event, maxLen: nat)
    requires RingOk(rd.receiver) && Faithful(rd.receiver, msgs)
    requires ev.Arrive? ==> HonestRecord(msgs, ev.fragments)
    ensures var r, r' := rd.receiver, Run(rd, ev, maxLen).receiver;
            var consumes := ev.Consume? && HasMessage(r);
            && Faithful(r', msgs)
            && r'.readSeq == (if consumes then (r.readSeq + 1) % TWO_16 else r.readSeq)
            && (consumes ==> r.readSeq < |msgs| && RawMessage(r) == Unfragmented(msgs[r.readSeq], r.readSeq))
  {
    var r := rd.receiver;
    if ev.Arrive? {
      RecordKeepsFaithful(r, msgs, ev.fragments, maxLen);
      RecordKeepsRing(r, RecordBytes(ev.fragments), maxLen);
    } else if ev.Consume? && HasMessage(r) {
      FaithfulRaw(r, msgs);
    }
  }

  /** c is what the peer queued from sequence number k on, as far as it goes. */
  ghost predicate InOrder(c: seq<seq<byte>>, msgs: seq<Message>, k: nat) {
    k + |c| <= |msgs| && forall i | 0 <= i < |c| :: c[i] == Unfragmented(msgs[k + i], k + i)
  }

  lemma InOrderCons(raw: seq<byte>, c: seq<seq<byte>>, msgs: seq<Message>, k: nat)
    requires k < |msgs| && raw == Unfragmented(msgs[k], k) && InOrder(c, msgs, k + 1)
    ensures InOrder([raw] + c, msgs, k)
  {
  }

  /** From any reachable state on, the consumed messages are the peer's, in order
      from the one expected next, each once. */
  lemma {:induction false} ConsumedFrom(rd: Reader, msgs: seq<Message>, evs: seq<Event>, maxLen: nat)
    requires |msgs| < TWO_16 && HonestRun(msgs, evs)
    requires RingOk(rd.receiver) && Faithful(rd.receiver, msgs) && rd.receiver.readSeq <= |msgs|
    ensures InOrder(Consumed(rd, evs, maxLen), msgs, rd.receiver.readSeq)
    ensures Faithful(RunAll(rd, evs, maxLen).receiver, msgs)
    ensures RunAll(rd, evs, maxLen).receiver.readSeq == rd.receiver.readSeq + |Consumed(rd, evs, maxLen)| <= |msgs|
    decreases |evs|
  {
    hide Faithful, RawMessage, Run, Unfragmented, Incoming.Complete;
    if |evs| > 0 {
      var r, ev, rd' := rd.receiver, evs[0], Run(rd, evs[0], maxLen);
      assert ev.Arrive? ==> HonestRecord(msgs, ev.fragments);
      assert HonestRun(msgs, evs[1..]);
      RunKeepsRing(rd, ev, maxLen);
      RunKeepsFaithful(rd, msgs, ev, maxLen);
      ConsumedFrom(rd', msgs, evs[1..], maxLen);
      var rest := Consumed(rd', evs[1..], maxLen);
      if ev.Consume? && HasMessage(r) {
        InOrderCons(RawMessage(r), rest, msgs, r.readSeq);
      } else {
        assert [] + rest == rest;
      }
    }
  }

  /** Delivery: under any loss, duplication, reordering and re-fragmentation of an
      honest peer's messages, what the handshake consumes is a prefix of what the
      peer queued, byte for byte. */
  lemma HonestDelivery(msgs: seq<Message>, evs: seq<Event>, maxLen: nat)
    requires |msgs| < TWO_16 && HonestRun(msgs, evs)
    ensures RingOk(START.receiver)
    ensures Consumed(START, evs, maxLen) <= seq(|msgs|, i requires 0 <= i < |msgs| => Unfragmented(msgs[i], i))
  {
    InitialRing();
    ConsumedFrom(START, msgs, evs, maxLen);
  }
}
