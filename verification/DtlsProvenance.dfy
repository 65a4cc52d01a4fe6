/**
 What a peer that keeps to no rule can make the handshake see: records of any bytes, in
 any order, between changes of epoch and reads.
 */
module DtlsProvenance {
  import opened Bytes
  import opened HandshakeFragment
  import opened Protocol
  import opened Reassembly

  /** The fragments at the front of a record, up to the first that is broken. */
  function Fragments(record: seq<byte>): seq<Fragment>
    decreases |record|
  {
    var p := ParseFragment(record);
    if p.None? then [] else [p.value.0] + Fragments(p.value.1)
  }

  /** f says that there is such a message. */
  predicate Announces(f: Fragment, inc: Incoming) {
    f.seqNum == inc.seqNum && f.typ == inc.typ && f.msgLen == |inc.body|
  }

  /** f holds byte k of the message. */
  predicate Carries(f: Fragment, inc: Incoming, k: nat) {
    Announces(f, inc) && k < |inc.body| && f.fragOff <= k < f.fragOff + |f.body|
    && inc.body[k] == Some(f.body[k - f.fragOff])
  }

  /** Someone sent this message, within the bound on messages, and each of its bytes. */
  ghost predicate SentAs(history: seq<Fragment>, inc: Incoming, maxLen: nat) {
    && |inc.body| <= maxLen && (exists f <- history :: Announces(f, inc))
    && forall k: nat | k < |inc.body| && inc.body[k].Some? :: exists f <- history :: Carries(f, inc, k)
  }

  ghost predicate AllSent(history: seq<Fragment>, r: Receiver, maxLen: nat) {
    forall i | 0 <= i < |r.ring| && r.ring[i].Some? :: SentAs(history, r.ring[i].value, maxLen)
  }

  lemma LongerHistory(history: seq<Fragment>, more: seq<Fragment>, inc: Incoming, maxLen: nat)
    requires SentAs(history, inc, maxLen)
    ensures SentAs(history + more, inc, maxLen)
  {
    var f :| f in history && Announces(f, inc);
    assert f in history + more;
    forall k: nat | k < |inc.body| && inc.body[k].Some? ensures exists g <- history + more :: Carries(g, inc, k) {
      var g :| g in history && Carries(g, inc, k);
      assert g in history + more;
    }
  }

  /** A fragment that is let in adds its own bytes to its own message. */
  lemma DeliveredIsSent(history: seq<Fragment>, inc: Incoming, f: Fragment, maxLen: nat)
    requires Announces(f, inc) && f.fragOff + |f.body| <= |inc.body| <= maxLen
    requires SentAs(history, inc, maxLen) || inc == Fresh(f)
    ensures SentAs(history + [f], Deliver(inc, f), maxLen)
  {
    var after := Deliver(inc, f);
    assert f in history + [f] && Announces(f, after);
    forall k: nat | k < |after.body| && after.body[k].Some? ensures exists g <- history + [f] :: Carries(g, after, k) {
      if after.body[k] == inc.body[k] {
        var g :| g in history && Carries(g, inc, k);
        assert g in history + [f] && Carries(g, after, k);
      } else {
        assert Carries(f, after, k);
      }
    }
  }

  lemma FragmentIsSent(history: seq<Fragment>, r: Receiver, f: Fragment, maxLen: nat)
    requires RingOk(r) && AllSent(history, r, maxLen) && f.Encodable()
    ensures AllSent(history + [f], OnFragment(r, f, maxLen).0, maxLen)
  {
    var r' := OnFragment(r, f, maxLen).0;
    forall i | 0 <= i < |r'.ring| && r'.ring[i].Some? ensures SentAs(history + [f], r'.ring[i].value, maxLen) {
      if r'.ring[i] == r.ring[i] {
        LongerHistory(history, [f], r.ring[i].value, maxLen);
      } else {
        var inc := if r.ring[i].Some? then r.ring[i].value else Fresh(f);
        if r.ring[i].Some? {
          SlotHasSameSequence(r, f.seqNum);
        }
        DeliveredIsSent(history, inc, f, maxLen);
      }
    }
  }

  lemma {:induction false} RecordIsSent(history: seq<Fragment>, r: Receiver, record: seq<byte>, maxLen: nat)
    requires RingOk(r) && AllSent(history, r, maxLen)
    ensures AllSent(history + Fragments(record), OnRecord(r, record, maxLen).0, maxLen)
    decreases |record|
  {
    hide SentAs, ParseFragment;
    assert history + [] == history;
    if |record| > 0 && ParseFragment(record).Some? {
      var (f, rest) := ParseFragment(record).value;
      FragmentIsSent(history, r, f, maxLen);
      FragmentKeepsRing(r, f, maxLen);
      var (r', o) := OnFragment(r, f, maxLen);
      assert history + Fragments(record) == (history + [f]) + Fragments(rest);
      if o.Fail? {
        MoreIsSent(history + [f], Fragments(rest), r', maxLen);
      } else {
        RecordIsSent(history + [f], r', rest, maxLen);
      }
    } else {
      MoreIsSent(history, Fragments(record), r, maxLen);
    }
  }

  lemma MoreIsSent(history: seq<Fragment>, more: seq<Fragment>, r: Receiver, maxLen: nat)
    requires AllSent(history, r, maxLen)
    ensures AllSent(history + more, r, maxLen)
  {
    forall i | 0 <= i < |r.ring| && r.ring[i].Some? ensures SentAs(history + more, r.ring[i].value, maxLen) {
      LongerHistory(history, more, r.ring[i].value, maxLen);
    }
  }

  // Whole runs.

  /** A record of any bytes, a change of read epoch, or the handshake asking for the next
      message. */
  datatype Input = Record(bytes: seq<byte>) | KeyChange | Ask

  function Arrived(inputs: seq<Input>): seq<Fragment> {
    if |inputs| == 0 then []
    else (if inputs[0].Record? then Fragments(inputs[0].bytes) else []) + Arrived(inputs[1..])
  }

  ghost function Step(rd: Reader, input: Input, maxLen: nat): (next: Reader)
    requires RingOk(rd.receiver)
    ensures RingOk(next.receiver)
  {
    var r := rd.receiver;
    match input
    case Record(bytes) =>
      RecordKeepsRing(r, bytes, maxLen);
      if rd.failed then rd else Reader(OnRecord(r, bytes, maxLen).0, OnRecord(r, bytes, maxLen).1.Fail?)
    case KeyChange => rd.(receiver := NextEpoch(r))
    case Ask =>
      NextKeepsRing(r);
      if HasMessage(r) then rd.(receiver := Next(r)) else rd
  }

  /** The messages the handshake gets over a run, in order. */
  ghost function Handed(rd: Reader, inputs: seq<Input>, maxLen: nat): seq<Incoming>
    requires RingOk(rd.receiver)
    decreases |inputs|
  {
    if |inputs| == 0 then []
    else
      var r := rd.receiver;
      (if inputs[0].Ask? && HasMessage(r) then [r.ring[Current(r)].value] else [])
      + Handed(Step(rd, inputs[0], maxLen), inputs[1..], maxLen)
  }

  /** Every message that is handed out, whatever arrives, has the number the handshake has
      come to, was announced with its type and its length, is no longer than allowed, and
      each of its bytes arrived at its place in a fragment of it. */
  ghost predicate Genuine(handed: seq<Incoming>, first: nat, history: seq<Fragment>, maxLen: nat) {
    forall i | 0 <= i < |handed| ::
      && handed[i].seqNum == (first + i) % TWO_16 && handed[i].Complete()
      && SentAs(history, handed[i], maxLen)
  }

  lemma GenuineCons(one: Incoming, rest: seq<Incoming>, first: nat, history: seq<Fragment>, maxLen: nat)
    requires first < TWO_16 && one.seqNum == first && one.Complete() && SentAs(history, one, maxLen)
    requires Genuine(rest, (first + 1) % TWO_16, history, maxLen)
    ensures Genuine([one] + rest, first, history, maxLen)
  {
    hide SentAs, Incoming.Complete;
    var all := [one] + rest;
    forall i | 0 <= i < |all| ensures all[i].seqNum == (first + i) % TWO_16 {
      if i > 0 {
        assert all[i] == rest[i - 1];
      }
    }
  }

  lemma NoneIsGenuine(first: nat, history: seq<Fragment>, maxLen: nat)
    ensures Genuine([], first, history, maxLen)
  {
  }

  lemma StepIsSent(rd: Reader, history: seq<Fragment>, input: Input, maxLen: nat)
    requires RingOk(rd.receiver) && AllSent(history, rd.receiver, maxLen)
    ensures AllSent(history + Arrived([input]), Step(rd, input, maxLen).receiver, maxLen)
    ensures var r := rd.receiver;
            Step(rd, input, maxLen).receiver.readSeq
              == if input.Ask? && HasMessage(r) then (r.readSeq + 1) % TWO_16 else r.readSeq
  {
    hide SentAs, Fragments;
    assert [input][1..] == [];
    assert Arrived([input]) == (if input.Record? then Fragments(input.bytes) else []) + [];
    if input.Record? {
      assert Arrived([input]) == Fragments(input.bytes);
      RecordKeepsRing(rd.receiver, input.bytes, maxLen);
      if rd.failed {
        MoreIsSent(history, Fragments(input.bytes), rd.receiver, maxLen);
      } else {
        RecordIsSent(history, rd.receiver, input.bytes, maxLen);
      }
    } else {
      assert history + Arrived([input]) == history;
    }
  }

  /** The message at hand is genuine. */
  lemma CurrentIsSent(r: Receiver, history: seq<Fragment>, more: seq<Fragment>, maxLen: nat)
    requires RingOk(r) && AllSent(history, r, maxLen) && HasMessage(r)
    ensures var inc := r.ring[Current(r)].value;
            r.readSeq < TWO_16 && inc.seqNum == r.readSeq && inc.Complete() && SentAs(history + more, inc, maxLen)
  {
    SlotHasSameSequence(r, r.readSeq);
    LongerHistory(history, more, r.ring[Current(r)].value, maxLen);
  }

  lemma {:induction false} GenuineFrom(rd: Reader, history: seq<Fragment>, inputs: seq<Input>, maxLen: nat)
    requires RingOk(rd.receiver) && AllSent(history, rd.receiver, maxLen)
    ensures Genuine(Handed(rd, inputs, maxLen), rd.receiver.readSeq, history + Arrived(inputs), maxLen)
    decreases |inputs|
  {
    hide SentAs, Step, Genuine, Fragments, AllSent, Incoming.Complete, OnRecord, Next, NextEpoch;
    if |inputs| == 0 {
      NoneIsGenuine(rd.receiver.readSeq, history + Arrived(inputs), maxLen);
    } else {
      var r, input, next := rd.receiver, inputs[0], Step(rd, inputs[0], maxLen);
      StepIsSent(rd, history, input, maxLen);
      assert [input][1..] == [];
      var later := history + Arrived([input]);
      GenuineFrom(next, later, inputs[1..], maxLen);
      assert later + Arrived(inputs[1..]) == history + Arrived(inputs);
      var rest := Handed(next, inputs[1..], maxLen);
      if input.Ask? && HasMessage(r) {
        CurrentIsSent(r, history, Arrived(inputs), maxLen);
        GenuineCons(r.ring[Current(r)].value, rest, r.readSeq, history + Arrived(inputs), maxLen);
      } else {
        assert [] + rest == rest;
      }
    }
  }

  /** Nothing the handshake gets is made up, on any connection from its start. */
  lemma NothingMadeUp(inputs: seq<Input>, maxLen: nat)
    ensures RingOk(START.receiver)
    ensures Genuine(Handed(START, inputs, maxLen), 0, Arrived(inputs), maxLen)
  {
    InitialRing();
    GenuineFrom(START, [], inputs, maxLen);
    assert [] + Arrived(inputs) == Arrived(inputs);
  }
}
