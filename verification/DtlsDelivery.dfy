/**
 End to end: what the DTLS handshake transport of one side delivers of the flights
 the other side sends.
 */
module DtlsDelivery {
  import opened Bytes
  import opened HandshakeFragment
  import opened Flight
  import opened FlightPlan
  import opened Protocol
  import Reassembly

  // Safety: what is sent is honest, so what is consumed is what was queued.

  /** data is one of the queued messages under its own number. */
  ghost predicate QueuedAs(queued: seq<Message>, data: seq<byte>) {
    exists k: nat | k < |queued| :: IsMessage(queued, k, data)
  }

  ghost predicate IsMessage(queued: seq<Message>, k: nat, data: seq<byte>)
    requires k < |queued|
  {
    |queued[k].body| < TWO_24 && data == Unfragmented(queued[k], k)
  }

  ghost predicate AllQueued(queued: seq<Message>, outgoing: seq<OutMessage>) {
    forall om <- outgoing :: !om.isCcs ==> QueuedAs(queued, om.data)
  }

  /** rec carries exactly one fragment of a queued message. */
  ghost predicate CutFrom(queued: seq<Message>, rec: Record) {
    rec.typ == RT_HANDSHAKE ==>
      exists f :: Reassembly.Honest(queued, f) && rec.plaintext == f.Bytes()
  }

  lemma UnfragmentedIsWhole(m: Message, seqNum: nat)
    requires |m.body| < TWO_24 && seqNum < TWO_16
    ensures ParseFragment(Unfragmented(m, seqNum))
         == Some((Fragment(m.typ, |m.body|, seqNum, 0, m.body), []))
  {
    var f := Fragment(m.typ, |m.body|, seqNum, 0, m.body);
    ParseInvertsBytes(f, []);
    assert f.Bytes() + [] == f.Bytes();
  }

  lemma QueueGrows(queued: seq<Message>, m: Message, outgoing: seq<OutMessage>, last: OutMessage)
    requires AllQueued(queued, outgoing)
    requires |m.body| < TWO_24 && last.data == Unfragmented(m, |queued|)
    ensures AllQueued(queued + [m], outgoing + [last])
  {
    forall om <- outgoing | !om.isCcs ensures QueuedAs(queued + [m], om.data) {
      var k: nat :| k < |queued| && IsMessage(queued, k, om.data);
      assert IsMessage(queued + [m], k, om.data);
    }
    assert IsMessage(queued + [m], |queued|, last.data);
  }

  lemma SliceEncodable(f: Fragment, offset: nat, len: nat)
    requires f.Encodable() && offset + len <= |f.body|
    ensures Slice(f, offset, len).Encodable()
  {
  }

  lemma SliceIsHonest(queued: seq<Message>, om: OutMessage, offset: nat, len: nat)
    requires |queued| <= TWO_16 && QueuedAs(queued, om.data)
    requires Whole(om) && offset + len <= |Content(om).body|
    ensures Reassembly.Honest(queued, Slice(Content(om), offset, len))
  {
    var k: nat :| k < |queued| && IsMessage(queued, k, om.data);
    UnfragmentedIsWhole(queued[k], k);
    hide ParseFragment, Unfragmented;
    SliceEncodable(Content(om), offset, len);
  }

  lemma AdvanceIsCut(queued: seq<Message>, flight: seq<OutMessage>, at: Cursor, rec: Record)
    requires |queued| <= TWO_16 && AllQueued(queued, flight)
    requires Advance(flight, at, rec).Some?
    ensures CutFrom(queued, rec)
  {
    hide ParseFragment, Fragment.Bytes, Reassembly.Honest, QueuedAs;
    if !flight[at.written].isCcs {
      assert flight[at.written] in flight;
      SliceIsHonest(queued, flight[at.written], at.offset, |rec.plaintext| - HEADER_LENGTH);
    }
  }

  lemma {:induction false} TileIsCut(queued: seq<Message>, flight: seq<OutMessage>, at: Cursor, recs: seq<Record>)
    requires |queued| <= TWO_16 && AllQueued(queued, flight)
    requires Tile(flight, at, recs).Some?
    ensures forall rec <- recs :: CutFrom(queued, rec)
    decreases |recs|
  {
    hide Advance, AllQueued, CutFrom;
    if |recs| > 0 {
      AdvanceIsCut(queued, flight, at, recs[0]);
      TileIsCut(queued, flight, Advance(flight, at, recs[0]).value, recs[1..]);
      assert recs == [recs[0]] + recs[1..];
    }
  }

  ghost predicate AllCut(queued: seq<Message>, recs: seq<Record>) {
    forall rec <- recs :: CutFrom(queued, rec)
  }

  /** The packets of a call carry nothing but fragments of queued messages. */
  lemma TilingIsCut(queued: seq<Message>, flight: seq<OutMessage>, at: Cursor, packets: seq<seq<Record>>)
    requires |queued| <= TWO_16 && AllQueued(queued, flight)
    requires Tile(flight, at, Flatten(packets)).Some?
    ensures forall p <- packets :: AllCut(queued, p)
  {
    hide Tile, AllQueued, CutFrom;
    TileIsCut(queued, flight, at, Flatten(packets));
    forall p <- packets ensures AllCut(queued, p) {
      InFlatten(packets, p);
    }
  }

  lemma {:induction false} InFlatten(packets: seq<seq<Record>>, p: seq<Record>)
    requires p in packets
    ensures forall rec <- p :: rec in Flatten(packets)
  {
    if p != packets[0] {
      assert p in packets[1..];
      InFlatten(packets[1..], p);
    }
  }

  lemma AllCutMore(queued: seq<Message>, more: seq<Message>, packets: seq<seq<Record>>)
    requires queued <= more && forall p <- packets :: AllCut(queued, p)
    ensures forall p <- packets :: AllCut(more, p)
  {
    hide CutFrom;
    forall p <- packets, rec <- p ensures CutFrom(more, rec) {
      CutFromMore(queued, more, rec);
    }
  }

  lemma CutFromMore(queued: seq<Message>, more: seq<Message>, rec: Record)
    requires CutFrom(queued, rec) && queued <= more
    ensures CutFrom(more, rec)
  {
    if rec.typ == RT_HANDSHAKE {
      var f :| Reassembly.Honest(queued, f) && rec.plaintext == f.Bytes();
      assert Reassembly.Honest(more, f);
    }
  }

  /** What happens at the receiver: a sent record arrives (again), or it moves on. */
  datatype NetEvent = Arrive(rec: Record) | NewEpoch | Consume

  ghost function AsEvent(queued: seq<Message>, ev: NetEvent): Reassembly.Event
    requires ev.Arrive? ==> CutFrom(queued, ev.rec)
  {
    match ev
    case NewEpoch => Reassembly.NewEpoch
    case Consume => Reassembly.Consume
    case Arrive(rec) =>
      if rec.typ != RT_HANDSHAKE then Reassembly.Arrive([])
      else
        var f :| Reassembly.Honest(queued, f) && rec.plaintext == f.Bytes();
        Reassembly.Arrive([f])
  }

  ghost predicate AllSent(queued: seq<Message>, evs: seq<NetEvent>) {
    forall ev <- evs :: ev.Arrive? ==> CutFrom(queued, ev.rec)
  }

  ghost function Run(queued: seq<Message>, evs: seq<NetEvent>): seq<Reassembly.Event>
    requires AllSent(queued, evs)
  {
    seq(|evs|, i requires 0 <= i < |evs| => AsEvent(queued, evs[i]))
  }

  /** What the receiver consumes is a prefix of the messages queued, in the form in
      which they are hashed. */
  ghost predicate ConsumesQueue(queued: seq<Message>, evs: seq<NetEvent>, maxLen: nat) {
    && AllSent(queued, evs) && Reassembly.RingOk(Reassembly.START.receiver)
    && Reassembly.Consumed(Reassembly.START, Run(queued, evs), maxLen)
       <= seq(|queued|, i requires 0 <= i < |queued| => Unfragmented(queued[i], i))
  }

  /** However the records that carry the queued messages are lost, repeated and
      reordered, the receiver consumes a prefix of the queue. */
  lemma EndToEnd(queued: seq<Message>, evs: seq<NetEvent>, maxLen: nat)
    requires |queued| < TWO_16 && AllSent(queued, evs)
    ensures ConsumesQueue(queued, evs, maxLen)
  {
    var run := Run(queued, evs);
    assert Reassembly.HonestRun(queued, run);
    Reassembly.HonestDelivery(queued, run, maxLen);
  }

  /** Nothing arrives but records of packets that were written; they may be lost,
      repeated and reordered one by one. */
  ghost predicate ArriveFrom(packets: seq<seq<Record>>, evs: seq<NetEvent>) {
    forall ev <- evs :: ev.Arrive? ==> exists p <- packets :: ev.rec in p
  }

  lemma PacketsDeliver(queued: seq<Message>, packets: seq<seq<Record>>, evs: seq<NetEvent>, maxLen: nat)
    requires |queued| < TWO_16 && ArriveFrom(packets, evs)
    requires forall p <- packets :: AllCut(queued, p)
    ensures ConsumesQueue(queued, evs, maxLen)
  {
    hide CutFrom, ConsumesQueue;
    EndToEnd(queued, evs, maxLen);
  }

  // Progress: unless a fragment is refused, which ends the connection, a flight whose
  // records have all arrived, in whatever order and among whatever else, is consumed.

  /** Byte k of message seqNum has been received, or the message consumed; k equal to the
      length asks only whether anything of the message has been. */
  ghost predicate Got(r: Reassembly.Receiver, seqNum: nat, k: nat) {
    var idx := seqNum % MAX_FLIGHT;
    seqNum < r.readSeq
    || (idx < |r.ring| && r.ring[idx].Some? && r.ring[idx].value.seqNum == seqNum
        && k <= |r.ring[idx].value.body|
        && (k < |r.ring[idx].value.body| ==> r.ring[idx].value.body[k].Some?))
  }

  ghost predicate Acceptable(r: Reassembly.Receiver, msgs: seq<Message>, maxLen: nat) {
    Reassembly.RingOk(r) && Reassembly.Faithful(r, msgs) && forall m <- msgs :: |m.body| <= maxLen
  }

  /** An honest fragment that is not refused: not the one seven ahead of the next
      message, and in the encrypted epoch of the next message itself. */
  predicate Welcome(r: Reassembly.Receiver, f: Fragment) {
    f.seqNum != r.readSeq + MAX_FLIGHT && (r.rEpoch == 1 ==> f.seqNum == r.readSeq)
  }

  ghost predicate AllWelcome(r: Reassembly.Receiver, fs: seq<Fragment>) {
    forall f <- fs :: Welcome(r, f)
  }

  lemma FragmentArrives(r: Reassembly.Receiver, msgs: seq<Message>, f: Fragment, maxLen: nat, seqNum: nat, k: nat)
    requires Acceptable(r, msgs, maxLen) && Reassembly.Honest(msgs, f) && seqNum < r.readSeq + MAX_FLIGHT
    ensures var (r', o) := Reassembly.OnFragment(r, f, maxLen);
            && Acceptable(r', msgs, maxLen) && r'.readSeq == r.readSeq && r'.rEpoch == r.rEpoch
            && (o.Fail? <==> !Welcome(r, f))
            && (Got(r, seqNum, k) ==> Got(r', seqNum, k))
            && (!o.Fail? && Carries(f, seqNum, k) ==> Got(r', seqNum, k))
  {
    assert |msgs[f.seqNum].body| <= maxLen;
    Reassembly.HonestRefusal(r, msgs, f, maxLen);
    Reassembly.FragmentKeepsRing(r, f, maxLen);
    Reassembly.FragmentKeepsFaithful(r, msgs, f, maxLen);
    if r.readSeq <= f.seqNum < r.readSeq + MAX_FLIGHT && r.ring[f.seqNum % MAX_FLIGHT].Some? {
      Reassembly.SlotHasSameSequence(r, f.seqNum);
      assert Reassembly.FaithfulMessage(r.ring[f.seqNum % MAX_FLIGHT].value, msgs);
    }
  }

  lemma {:induction false} RecordArrives(r: Reassembly.Receiver, msgs: seq<Message>, fs: seq<Fragment>,
                                         maxLen: nat, seqNum: nat, k: nat)
    requires Acceptable(r, msgs, maxLen) && Reassembly.HonestRecord(msgs, fs) && seqNum < r.readSeq + MAX_FLIGHT
    ensures var (r', o) := Reassembly.OnRecord(r, Reassembly.RecordBytes(fs), maxLen);
            && Acceptable(r', msgs, maxLen) && r'.readSeq == r.readSeq && r'.rEpoch == r.rEpoch
            && (o.Fail? <==> !AllWelcome(r, fs))
            && (Got(r, seqNum, k) ==> Got(r', seqNum, k))
            && (!o.Fail? && (exists f <- fs :: Carries(f, seqNum, k)) ==> Got(r', seqNum, k))
    decreases |fs|
  {
    assert |r.ring| == MAX_FLIGHT;
    hide Acceptable, Got, Welcome, Carries, Reassembly.OnFragment, Fragment.Bytes;
    if |fs| > 0 {
      var f := fs[0];
      assert Reassembly.Honest(msgs, f) && fs == [f] + fs[1..];
      ParseInvertsBytes(f, Reassembly.RecordBytes(fs[1..]));
      FragmentArrives(r, msgs, f, maxLen, seqNum, k);
      hide ParseFragment;
      var r' := Reassembly.OnFragment(r, f, maxLen).0;
      RecordArrives(r', msgs, fs[1..], maxLen, seqNum, k);
      forall g: Fragment ensures Welcome(r', g) == Welcome(r, g) {
        SameWelcome(r, r', g);
      }
    }
  }

  lemma SameWelcome(r: Reassembly.Receiver, r': Reassembly.Receiver, f: Fragment)
    requires r'.readSeq == r.readSeq && r'.rEpoch == r.rEpoch
    ensures Welcome(r', f) == Welcome(r, f)
  {
  }

  predicate Carries(f: Fragment, seqNum: nat, k: nat) {
    f.seqNum == seqNum && (f.fragOff <= k < f.fragOff + |f.body| || k == f.msgLen)
  }

  /** Every byte of every message not yet begun is in one of the records of a tiling. */
  lemma {:induction false} TilingCovers(flight: seq<OutMessage>, at: Cursor, recs: seq<Record>, i: nat, k: nat)
    returns (rec: Record, f: Fragment)
    requires Tile(flight, at, recs) == Some(Cursor(|flight|, 0))
    requires at.written <= i < |flight| && !flight[i].isCcs && Whole(flight[i])
    requires (if i == at.written then at.offset else 0) <= k <= |Content(flight[i]).body|
    ensures rec in recs && rec.typ == RT_HANDSHAKE && rec.plaintext == f.Bytes() && f.Encodable()
    ensures Carries(f, Content(flight[i]).seqNum, k)
    decreases |recs|
  {
    hide ParseFragment;
    var next := Advance(flight, at, recs[0]).value;
    AdvanceOrder(flight, at, recs[0]);
    var body := Content(flight[i]).body;
    if at.written == i && (k < at.offset + |recs[0].plaintext| - HEADER_LENGTH || k == |body|) {
      rec := recs[0];
      f := Slice(Content(flight[i]), at.offset, |rec.plaintext| - HEADER_LENGTH);
      ContentEncodable(flight[i]);
    } else {
      rec, f := TilingCovers(flight, next, recs[1..], i, k);
    }
  }

  lemma ContentEncodable(m: OutMessage)
    requires Whole(m)
    ensures Content(m).Encodable() && Content(m).msgLen == |Content(m).body|
  {
  }

  /** No record of the run is refused; what counts is the fragment and the next message
      and epoch when it arrives. */
  ghost predicate WelcomeRun(rd: Reassembly.Reader, evs: seq<Reassembly.Event>, maxLen: nat)
    requires Reassembly.RingOk(rd.receiver)
    decreases |evs|
  {
    |evs| > 0 ==>
      && (evs[0].Arrive? ==> AllWelcome(rd.receiver, evs[0].fragments))
      && (Reassembly.RunKeepsRing(rd, evs[0], maxLen);
          WelcomeRun(Reassembly.Run(rd, evs[0], maxLen), evs[1..], maxLen))
  }

  ghost predicate Brings(ev: Reassembly.Event, seqNum: nat, k: nat) {
    ev.Arrive? && exists f <- ev.fragments :: Carries(f, seqNum, k)
  }

  lemma EventArrives(rd: Reassembly.Reader, msgs: seq<Message>, ev: Reassembly.Event, maxLen: nat, seqNum: nat, k: nat)
    requires !rd.failed && Acceptable(rd.receiver, msgs, maxLen) && |msgs| < TWO_16
    requires ev.Arrive? ==> Reassembly.HonestRecord(msgs, ev.fragments)
    requires seqNum < rd.receiver.readSeq + MAX_FLIGHT
    ensures var rd' := Reassembly.Run(rd, ev, maxLen);
            && Acceptable(rd'.receiver, msgs, maxLen) && rd'.receiver.readSeq >= rd.receiver.readSeq
            && (rd'.failed <==> ev.Arrive? && !AllWelcome(rd.receiver, ev.fragments))
            && (!rd'.failed && (Got(rd.receiver, seqNum, k) || Brings(ev, seqNum, k)) ==> Got(rd'.receiver, seqNum, k))
  {
    var r := rd.receiver;
    if ev.Arrive? {
      RecordArrives(r, msgs, ev.fragments, maxLen, seqNum, k);
    } else {
      Reassembly.RunKeepsRing(rd, ev, maxLen);
      Reassembly.RunKeepsFaithful(rd, msgs, ev, maxLen);
      hide Reassembly.Faithful;
      if r.ring[Reassembly.Current(r)].Some? {
        Reassembly.SlotHasSameSequence(r, r.readSeq);
      }
    }
  }

  /** A run is refused exactly where a fragment is unwelcome; otherwise all it brings of
      a message within reach is there in the end, or consumed. */
  lemma {:induction false} RunArrives(rd: Reassembly.Reader, msgs: seq<Message>, evs: seq<Reassembly.Event>,
                                      maxLen: nat, seqNum: nat, k: nat)
    requires !rd.failed && Acceptable(rd.receiver, msgs, maxLen) && |msgs| < TWO_16
    requires Reassembly.HonestRun(msgs, evs) && seqNum < rd.receiver.readSeq + MAX_FLIGHT
    ensures var end := Reassembly.RunAll(rd, evs, maxLen);
            && (end.failed <==> !WelcomeRun(rd, evs, maxLen))
            && (!end.failed && (Got(rd.receiver, seqNum, k) || exists ev <- evs :: Brings(ev, seqNum, k)) ==>
                  Got(end.receiver, seqNum, k))
            && (!end.failed ==>
                  Acceptable(end.receiver, msgs, maxLen) && end.receiver.readSeq >= rd.receiver.readSeq)
    decreases |evs|
  {
    assert Reassembly.RingOk(rd.receiver);
    hide Got, Brings, AllWelcome, Reassembly.Run, Reassembly.Faithful, Reassembly.HonestRecord;
    if |evs| > 0 {
      assert evs == [evs[0]] + evs[1..];
      EventArrives(rd, msgs, evs[0], maxLen, seqNum, k);
      var rd' := Reassembly.Run(rd, evs[0], maxLen);
      if rd'.failed {
        FailedStays(rd', evs[1..], maxLen);
      } else {
        RunArrives(rd', msgs, evs[1..], maxLen, seqNum, k);
      }
    }
  }

  lemma {:induction false} FailedStays(rd: Reassembly.Reader, evs: seq<Reassembly.Event>, maxLen: nat)
    requires rd.failed && Reassembly.RingOk(rd.receiver)
    ensures Reassembly.RunAll(rd, evs, maxLen).failed
    decreases |evs|
  {
    if |evs| > 0 {
      Reassembly.RunKeepsRing(rd, evs[0], maxLen);
      FailedStays(Reassembly.Run(rd, evs[0], maxLen), evs[1..], maxLen);
    }
  }

  /** All of the messages up to upto that are not yet consumed has been received. */
  ghost predicate GotUpTo(r: Reassembly.Receiver, msgs: seq<Message>, upto: nat)
    requires upto <= |msgs|
  {
    forall s, k: nat | r.readSeq <= s < upto && k <= |msgs[s].body| :: Got(r, s, k)
  }

  function Consumes(n: nat): (evs: seq<Reassembly.Event>)
    ensures |evs| == n
  {
    seq(n, _ => Reassembly.Consume)
  }

  lemma NextIsReady(r: Reassembly.Receiver, msgs: seq<Message>, upto: nat, maxLen: nat)
    requires Acceptable(r, msgs, maxLen) && r.readSeq < upto <= |msgs| && GotUpTo(r, msgs, upto)
    ensures Reassembly.HasMessage(r)
  {
    var s := r.readSeq;
    assert Got(r, s, |msgs[s].body|);
    var inc := r.ring[s % MAX_FLIGHT].value;
    assert Reassembly.FaithfulMessage(inc, msgs);
    forall k | 0 <= k < |inc.body| ensures inc.body[k].Some? {
      assert Got(r, s, k);
    }
  }

  /** What has been received is consumed by asking for it. */
  lemma {:induction false} ConsumesAll(rd: Reassembly.Reader, msgs: seq<Message>, upto: nat, n: nat, maxLen: nat)
    requires !rd.failed && Acceptable(rd.receiver, msgs, maxLen) && |msgs| < TWO_16
    requires upto <= |msgs| && GotUpTo(rd.receiver, msgs, upto)
    requires upto <= rd.receiver.readSeq + n && upto <= rd.receiver.readSeq + MAX_FLIGHT
    ensures Reassembly.RunAll(rd, Consumes(n), maxLen).receiver.readSeq >= upto
    decreases n
  {
    var r := rd.receiver;
    if n > 0 {
      var rd' := Reassembly.Run(rd, Reassembly.Consume, maxLen);
      assert Consumes(n)[0] == Reassembly.Consume && Consumes(n)[1..] == Consumes(n - 1);
      EventArrives(rd, msgs, Reassembly.Consume, maxLen, 0, 0);
      Reassembly.RunKeepsFaithful(rd, msgs, Reassembly.Consume, maxLen);
      if r.readSeq < upto {
        NextIsReady(r, msgs, upto, maxLen);
      }
      hide Reassembly.Run, Got, Reassembly.Faithful, Reassembly.RingOk;
      forall s, k: nat | rd'.receiver.readSeq <= s < upto && k <= |msgs[s].body| ensures Got(rd'.receiver, s, k) {
        assert Got(r, s, k);
        EventArrives(rd, msgs, Reassembly.Consume, maxLen, s, k);
      }
      ConsumesAll(rd', msgs, upto, n - 1, maxLen);
    }
  }

  lemma {:induction false} RunAllConcat(rd: Reassembly.Reader, a: seq<Reassembly.Event>, b: seq<Reassembly.Event>, maxLen: nat)
    requires Reassembly.RingOk(rd.receiver)
    ensures Reassembly.RunAll(rd, a + b, maxLen) == Reassembly.RunAll(Reassembly.RunAll(rd, a, maxLen), b, maxLen)
    decreases |a|
  {
    hide Reassembly.Run;
    if |a| == 0 {
      assert a + b == b;
    } else {
      assert (a + b)[0] == a[0] && (a + b)[1..] == a[1..] + b;
      Reassembly.RunKeepsRing(rd, a[0], maxLen);
      RunAllConcat(Reassembly.Run(rd, a[0], maxLen), a[1..], b, maxLen);
    }
  }

  /** The next n messages are in the flight. */
  predicate Holds(flight: seq<OutMessage>, from: nat, n: nat) {
    forall s: nat | from <= s < from + n :: InFlight(flight, s)
  }

  predicate InFlight(flight: seq<OutMessage>, seqNum: nat) {
    exists i: nat | i < |flight| :: IsNumbered(flight[i], seqNum)
  }

  predicate IsNumbered(om: OutMessage, seqNum: nat) {
    !om.isCcs && Whole(om) && Content(om).seqNum == seqNum
  }

  /** Every handshake record of recs is in a record that arrived. */
  ghost predicate AllArrive(recs: seq<Record>, evs: seq<Reassembly.Event>) {
    forall rec <- recs | rec.typ == RT_HANDSHAKE :: exists ev <- evs :: ArrivesIn(rec, ev)
  }

  ghost predicate ArrivesIn(rec: Record, ev: Reassembly.Event) {
    ev.Arrive? && exists f <- ev.fragments :: rec.plaintext == f.Bytes()
  }

  /** Whatever a record carries arrives with it. */
  lemma ArrivalBrings(msgs: seq<Message>, recs: seq<Record>, evs: seq<Reassembly.Event>, rec: Record, f: Fragment,
                      seqNum: nat, k: nat)
    requires AllArrive(recs, evs) && Reassembly.HonestRun(msgs, evs)
    requires rec in recs && rec.typ == RT_HANDSHAKE && rec.plaintext == f.Bytes() && f.Encodable()
    requires Carries(f, seqNum, k)
    ensures exists ev <- evs :: Brings(ev, seqNum, k)
  {
    hide Carries;
    var ev :| ev in evs && ArrivesIn(rec, ev);
    var g :| g in ev.fragments && rec.plaintext == g.Bytes();
    assert Reassembly.Honest(msgs, g);
    BytesInjective(f, g);
    assert Brings(ev, seqNum, k);
  }

  lemma ContentIs(msgs: seq<Message>, flight: seq<OutMessage>, om: OutMessage)
    requires AllQueued(msgs, flight) && |msgs| <= TWO_16 && om in flight && !om.isCcs
    ensures Whole(om) && Content(om).seqNum < |msgs|
    ensures var m := msgs[Content(om).seqNum];
            Content(om).body == m.body && om.data == Unfragmented(m, Content(om).seqNum)
  {
    var n: nat :| n < |msgs| && IsMessage(msgs, n, om.data);
    UnfragmentedIsWhole(msgs[n], n);
  }

  lemma MessageArrives(rd: Reassembly.Reader, msgs: seq<Message>, maxLen: nat, flight: seq<OutMessage>,
                       recs: seq<Record>, evs: seq<Reassembly.Event>, i: nat, k: nat)
    requires !rd.failed && Acceptable(rd.receiver, msgs, maxLen) && |msgs| < TWO_16
    requires AllQueued(msgs, flight) && Tile(flight, START, recs) == Some(Cursor(|flight|, 0))
    requires Reassembly.HonestRun(msgs, evs) && AllArrive(recs, evs)
    requires WelcomeRun(rd, evs, maxLen)
    requires i < |flight| && !flight[i].isCcs && Whole(flight[i]) && k <= |Content(flight[i]).body|
    requires Content(flight[i]).seqNum < rd.receiver.readSeq + MAX_FLIGHT
    ensures Got(Reassembly.RunAll(rd, evs, maxLen).receiver, Content(flight[i]).seqNum, k)
  {
    assert Reassembly.RingOk(rd.receiver);
    hide Got, AllArrive, Acceptable, Whole, Content, Reassembly.RunAll, WelcomeRun, Tile, AllQueued;
    hide Carries, Brings, Reassembly.HonestRun, Reassembly.Faithful, Fragment.Bytes, Fragment.Encodable;
    var rec, f := TilingCovers(flight, START, recs, i, k);
    ArrivalBrings(msgs, recs, evs, rec, f, Content(flight[i]).seqNum, k);
    RunArrives(rd, msgs, evs, maxLen, Content(flight[i]).seqNum, k);
  }

  /** Once a whole transmission has arrived, all of every message in it is there. */
  lemma FlightArrives(rd: Reassembly.Reader, msgs: seq<Message>, maxLen: nat, flight: seq<OutMessage>,
                      recs: seq<Record>, evs: seq<Reassembly.Event>, n: nat)
    requires !rd.failed && Acceptable(rd.receiver, msgs, maxLen) && |msgs| < TWO_16
    requires AllQueued(msgs, flight) && Tile(flight, START, recs) == Some(Cursor(|flight|, 0))
    requires Reassembly.HonestRun(msgs, evs) && AllArrive(recs, evs)
    requires Holds(flight, rd.receiver.readSeq, n) && n <= MAX_FLIGHT && rd.receiver.readSeq + n <= |msgs|
    requires WelcomeRun(rd, evs, maxLen)
    ensures GotUpTo(Reassembly.RunAll(rd, evs, maxLen).receiver, msgs, rd.receiver.readSeq + n)
  {
    assert Reassembly.RingOk(rd.receiver);
    hide Got, AllArrive, Acceptable, Whole, Content, Unfragmented, Reassembly.RunAll, WelcomeRun, Tile, AllQueued;
    hide Reassembly.HonestRun, Reassembly.Faithful;
    var end := Reassembly.RunAll(rd, evs, maxLen).receiver;
    RunArrives(rd, msgs, evs, maxLen, 0, 0);
    forall s, k: nat | end.readSeq <= s < rd.receiver.readSeq + n && k <= |msgs[s].body| ensures Got(end, s, k) {
      assert InFlight(flight, s);
      var i: nat :| i < |flight| && IsNumbered(flight[i], s);
      ContentIs(msgs, flight, flight[i]);
      MessageArrives(rd, msgs, maxLen, flight, recs, evs, i, k);
    }
  }

  /** And asking often enough consumes it. */
  lemma FlightConsumed(rd: Reassembly.Reader, msgs: seq<Message>, maxLen: nat, flight: seq<OutMessage>,
                      recs: seq<Record>, evs: seq<Reassembly.Event>, n: nat)
    requires !rd.failed && Acceptable(rd.receiver, msgs, maxLen) && |msgs| < TWO_16
    requires AllQueued(msgs, flight) && Tile(flight, START, recs) == Some(Cursor(|flight|, 0))
    requires Reassembly.HonestRun(msgs, evs) && AllArrive(recs, evs)
    requires Holds(flight, rd.receiver.readSeq, n) && n <= MAX_FLIGHT && rd.receiver.readSeq + n <= |msgs|
    requires WelcomeRun(rd, evs, maxLen)
    ensures Reassembly.RunAll(rd, evs + Consumes(n), maxLen).receiver.readSeq >= rd.receiver.readSeq + n
  {
    assert Reassembly.RingOk(rd.receiver);
    hide Got, AllArrive, Acceptable, Reassembly.RunAll, WelcomeRun, Tile, AllQueued, Holds, GotUpTo;
    hide Reassembly.HonestRun, Reassembly.Faithful;
    RunArrives(rd, msgs, evs, maxLen, 0, 0);
    var mid := Reassembly.RunAll(rd, evs, maxLen);
    FlightArrives(rd, msgs, maxLen, flight, recs, evs, n);
    ConsumesAll(mid, msgs, rd.receiver.readSeq + n, n, maxLen);
    RunAllConcat(rd, evs, Consumes(n), maxLen);
  }

  /** The next n messages of the flight are consumed as they were queued. */
  ghost predicate Delivered(flight: seq<OutMessage>, first: nat, n: nat, consumed: seq<seq<byte>>) {
    |consumed| >= n && forall om <- flight :: ConsumedAs(om, first, n, consumed)
  }

  ghost predicate ConsumedAs(om: OutMessage, first: nat, n: nat, consumed: seq<seq<byte>>)
    requires |consumed| >= n
  {
    !om.isCcs && Whole(om) && first <= Content(om).seqNum < first + n ==> consumed[Content(om).seqNum - first] == om.data
  }

  lemma FlightDelivered(msgs: seq<Message>, flight: seq<OutMessage>, first: nat, n: nat, consumed: seq<seq<byte>>)
    requires |msgs| < TWO_16 && AllQueued(msgs, flight) && |consumed| >= n && Reassembly.InOrder(consumed, msgs, first)
    ensures Delivered(flight, first, n, consumed)
  {
    hide Whole, Content, Unfragmented, AllQueued;
    forall om <- flight ensures ConsumedAs(om, first, n, consumed) {
      if !om.isCcs {
        ContentIs(msgs, flight, om);
      }
    }
  }

  /** Progress: a flight of at most seven messages that begins with the one expected next,
      with all records of one transmission among whatever else arrives, in any order and
      however the handshake asks in between.  The connection ends if and only if a fragment
      is refused; if none is, the flight is consumed, message by message and in order. */
  lemma EventualDelivery(rd: Reassembly.Reader, msgs: seq<Message>, maxLen: nat, flight: seq<OutMessage>,
                         recs: seq<Record>, evs: seq<Reassembly.Event>, n: nat)
    requires !rd.failed && Acceptable(rd.receiver, msgs, maxLen) && |msgs| < TWO_16
    requires AllQueued(msgs, flight) && Tile(flight, START, recs) == Some(Cursor(|flight|, 0))
    requires Reassembly.HonestRun(msgs, evs) && AllArrive(recs, evs)
    requires Holds(flight, rd.receiver.readSeq, n) && n <= MAX_FLIGHT && rd.receiver.readSeq + n <= |msgs|
    ensures Reassembly.RunAll(rd, evs, maxLen).failed <==> !WelcomeRun(rd, evs, maxLen)
    ensures WelcomeRun(rd, evs, maxLen) ==>
      var consumed := Reassembly.Consumed(rd, evs + Consumes(n), maxLen);
      && Reassembly.InOrder(consumed, msgs, rd.receiver.readSeq)
      && Delivered(flight, rd.receiver.readSeq, n, consumed)
  {
    assert Reassembly.RingOk(rd.receiver) && Reassembly.Faithful(rd.receiver, msgs);
    hide AllArrive, Acceptable, Reassembly.Consumed, Holds, Reassembly.RunAll, Delivered, Reassembly.InOrder;
    hide WelcomeRun, Reassembly.RingOk, Tile, AllQueued, Reassembly.Faithful, Reassembly.HonestRun;
    RunArrives(rd, msgs, evs, maxLen, 0, 0);
    if WelcomeRun(rd, evs, maxLen) {
      FlightConsumed(rd, msgs, maxLen, flight, recs, evs, n);
      AskingIsHonest(msgs, evs, n);
      Reassembly.ConsumedFrom(rd, msgs, evs + Consumes(n), maxLen);
      FlightDelivered(msgs, flight, rd.receiver.readSeq, n, Reassembly.Consumed(rd, evs + Consumes(n), maxLen));
    }
  }

  lemma AskingIsHonest(msgs: seq<Message>, evs: seq<Reassembly.Event>, n: nat)
    requires Reassembly.HonestRun(msgs, evs)
    ensures Reassembly.HonestRun(msgs, evs + Consumes(n))
  {
  }

  /** What arrives is numbered below limit, and the epoch does not change. */
  ghost predicate NumberedBelow(evs: seq<Reassembly.Event>, limit: nat) {
    forall ev <- evs :: !ev.NewEpoch? && (ev.Arrive? ==> forall f <- ev.fragments :: f.seqNum < limit)
  }

  /** Before encryption no fragment of the next seven messages or an earlier one is
      refused, whenever it arrives. */
  lemma {:induction false} NothingRefused(rd: Reassembly.Reader, msgs: seq<Message>, evs: seq<Reassembly.Event>,
                                          maxLen: nat, limit: nat)
    requires !rd.failed && Acceptable(rd.receiver, msgs, maxLen) && |msgs| < TWO_16
    requires Reassembly.HonestRun(msgs, evs) && NumberedBelow(evs, limit)
    requires rd.receiver.rEpoch != 1 && limit <= rd.receiver.readSeq + MAX_FLIGHT
    ensures WelcomeRun(rd, evs, maxLen)
    decreases |evs|
  {
    if |evs| > 0 {
      assert evs == [evs[0]] + evs[1..];
      EventArrives(rd, msgs, evs[0], maxLen, 0, 0);
      hide Reassembly.OnRecord;
      EpochStays(rd, evs[0], msgs, maxLen);
      NothingRefused(Reassembly.Run(rd, evs[0], maxLen), msgs, evs[1..], maxLen, limit);
    }
  }

  lemma EpochStays(rd: Reassembly.Reader, ev: Reassembly.Event, msgs: seq<Message>, maxLen: nat)
    requires !rd.failed && Acceptable(rd.receiver, msgs, maxLen) && !ev.NewEpoch?
    requires ev.Arrive? ==> Reassembly.HonestRecord(msgs, ev.fragments)
    ensures Reassembly.Run(rd, ev, maxLen).receiver.rEpoch == rd.receiver.rEpoch
  {
    if ev.Arrive? {
      RecordArrives(rd.receiver, msgs, ev.fragments, maxLen, 0, 0);
    }
  }

  lemma BytesInjective(f: Fragment, g: Fragment)
    requires f.Encodable() && g.Encodable() && f.Bytes() == g.Bytes()
    ensures f == g
  {
    ParseInvertsBytes(f, []);
    ParseInvertsBytes(g, []);
  }
}
