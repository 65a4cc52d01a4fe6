/** The in-place reassembly of incoming DTLS handshake messages. */
module DtlsReceiver {
  import opened Bytes
  import opened HandshakeFragment
  import opened FragmentBitmask
  import opened Protocol
  import Reassembly

  /** The bytes of a body of which only those flagged in got have arrived. */
  function Partial(bytes: seq<byte>, got: seq<bool>): (p: seq<Option<byte>>)
    requires |bytes| == |got|
  {
    seq(|got|, k requires 0 <= k < |got| => if got[k] then Some(bytes[k]) else None)
  }

  /** An incoming handshake message, possibly not yet assembled. */
  class HmFragment {
    const typ: byte
    const seqNum: nat
    const msgLen: nat
    const data: array<byte>
    var reassembly: array?<bv8>
    ghost var got: seq<bool>

    ghost function Footprint(): set<object>
      reads this
    {
      {this, data} + if reassembly == null then {} else {reassembly}
    }

    ghost predicate Valid()
      reads this, Footprint()
    {
      && data.Length == HEADER_LENGTH + msgLen && |got| == msgLen
      && reassembly as object? != data
      && data[..HEADER_LENGTH] == Header(typ, msgLen, seqNum, 0, msgLen)
      && (reassembly == null <==> AllGot(got))
      && (reassembly != null ==> Represents(reassembly[..], got))
    }

    ghost function View(): Reassembly.Incoming
      requires Valid()
      reads this, Footprint()
    {
      Reassembly.Incoming(typ, seqNum, Partial(data[HEADER_LENGTH..], got))
    }

    constructor (f: Fragment)
      ensures Valid() && fresh(Footprint())
      ensures View() == Reassembly.Fresh(f)
    {
      typ, seqNum, msgLen := f.typ, f.seqNum, f.msgLen;
      got := seq(f.msgLen, k => false);
      data := new byte[HEADER_LENGTH + f.msgLen];
      reassembly := null;
      new;
      var header := Header(f.typ, f.msgLen, f.seqNum, 0, f.msgLen);
      for i := 0 to HEADER_LENGTH
        invariant data[..i] == header[..i]
        invariant reassembly == null && got == seq(msgLen, k => false)
      {
        data[i] := header[i];
      }
      if msgLen > 0 {
        var mask := new bv8[(msgLen + 7) / 8](_ => 0);
        assert forall j: nat | j < 8 :: !OctetBit(0, j);
        reassembly := mask;
        assert !got[0];
      }
      assert View().body == Reassembly.Fresh(f).body;
    }

    /** Marks bytes start to end as received; when that makes the message complete,
        drops the bitmask. */
    method Mark(start: nat, end: nat)
      requires Valid() && reassembly != null && start <= end <= msgLen
      modifies this`reassembly, this`got, reassembly
      ensures Valid() && data[..] == old(data[..])
      ensures got == MarkRange(old(got), start, end)
      ensures reassembly == null || reassembly == old(reassembly)
    {
      if start == end {
        assert got == MarkRange(got, start, end);
        return;
      }
      SetRange(reassembly, start, end, got);
      got := MarkRange(got, start, end);
      var complete := IsComplete(reassembly, msgLen, got);
      if complete {
        reassembly := null;
      }
    }

    /** Copies the fragment's bytes into place and marks them, unless the message
        is already assembled. */
    method Receive(f: Fragment)
      requires Valid() && f.fragOff + |f.body| <= msgLen
      modifies this`reassembly, this`got, data, reassembly
      ensures Valid() && Footprint() <= old(Footprint())
      ensures View() == Reassembly.Deliver(old(View()), f)
    {
      CompleteView();
      if reassembly == null {
        return;
      }
      ghost var before := data[HEADER_LENGTH..];
      CopyBody(f);
      assert data[..HEADER_LENGTH] == old(data[..HEADER_LENGTH]);
      Mark(f.fragOff, f.fragOff + |f.body|);
      PartialDeliver(typ, seqNum, before, data[HEADER_LENGTH..], old(got), f);
    }

    method CopyBody(f: Fragment)
      requires HEADER_LENGTH + f.fragOff + |f.body| <= data.Length
      modifies data
      ensures var at := HEADER_LENGTH + f.fragOff;
              forall k | 0 <= k < data.Length ::
                data[k] == if at <= k < at + |f.body| then f.body[k - at] else old(data[k])
    {
      var at := HEADER_LENGTH + f.fragOff;
      for i := 0 to |f.body|
        invariant forall k | 0 <= k < data.Length ::
          data[k] == if at <= k < at + i then f.body[k - at] else old(data[k])
      {
        data[at + i] := f.body[i];
      }
    }

    lemma CompleteView()
      requires Valid()
      ensures View().Complete() <==> reassembly == null
    {
      assert forall k | 0 <= k < msgLen :: View().body[k].Some? <==> got[k];
    }
  }

  /** Writing the fragment's bytes and marking them is Deliver. */
  lemma PartialDeliver(typ: byte, seqNum: nat, before: seq<byte>, after: seq<byte>, got: seq<bool>, f: Fragment)
    requires |before| == |after| == |got| && f.fragOff + |f.body| <= |got| && !AllGot(got)
    requires forall k | 0 <= k < |got| ::
      after[k] == if f.fragOff <= k < f.fragOff + |f.body| then f.body[k - f.fragOff] else before[k]
    ensures Reassembly.Incoming(typ, seqNum, Partial(after, MarkRange(got, f.fragOff, f.fragOff + |f.body|)))
         == Reassembly.Deliver(Reassembly.Incoming(typ, seqNum, Partial(before, got)), f)
  {
    var inc := Reassembly.Incoming(typ, seqNum, Partial(before, got));
    assert forall k | 0 <= k < |got| :: inc.body[k].Some? <==> got[k];
    assert Partial(after, MarkRange(got, f.fragOff, f.fragOff + |f.body|)) == Reassembly.Deliver(inc, f).body;
  }


  datatype OpenResult = Success | Discard | Error(alert: nat)

  class IncomingMessages {
    var readSeq: nat
    var rEpoch: nat
    var nullCipher: bool
    var hasMessage: bool
    var hasChangeCipherSpec: bool
    // the peer has answered the last flight of this side
    var flightHasReply: bool
    const ring: array<HmFragment?>
    ghost var contents: seq<Option<Reassembly.Incoming>>
    // the objects each slot owns
    ghost var owned: seq<set<object>>
    ghost var Repr: set<object>

    ghost function View(): Reassembly.Receiver
      reads this
    {
      Reassembly.Receiver(readSeq, rEpoch, contents)
    }

    ghost predicate SlotOk(i: nat)
      requires i < ring.Length == |contents| == |owned|
      reads this, ring, Repr
    {
      var frag := ring[i];
      if frag == null then contents[i].None?
      else
        && frag in Repr
        && frag.Footprint() == owned[i] <= Repr - {this, ring}
        && frag.Valid()
        && contents[i] == Some(frag.View())
    }

    ghost predicate Valid()
      reads this, Repr
    {
      && this in Repr && ring in Repr
      && ring.Length == |contents| == |owned| == MAX_FLIGHT
      && Reassembly.RingOk(View())
      && (forall i: nat | i < ring.Length :: SlotOk(i))
      && (forall i: nat, j: nat | i < j < ring.Length :: owned[i] !! owned[j])
      && (hasMessage ==> Reassembly.HasMessage(View()))
    }

    constructor ()
      ensures Valid() && fresh(Repr)
      ensures View() == Reassembly.INITIAL && !hasMessage && !hasChangeCipherSpec && !flightHasReply && nullCipher
    {
      readSeq, rEpoch, nullCipher := 0, 0, true;
      hasMessage, hasChangeCipherSpec, flightHasReply := false, false, false;
      ring := new HmFragment?[MAX_FLIGHT](_ => null);
      contents := Reassembly.INITIAL.ring;
      owned := seq(MAX_FLIGHT, i => {});
      Repr := {this, ring};
    }

    /** Starts reassembling the message f belongs to in the empty slot idx. */
    method Insert(idx: nat, f: Fragment) returns (frag: HmFragment)
      requires Valid() && idx < ring.Length && ring[idx] == null
      requires readSeq <= f.seqNum < readSeq + MAX_FLIGHT && f.seqNum < TWO_16
      requires idx == f.seqNum % MAX_FLIGHT
      modifies ring, this`contents, this`Repr, this`owned
      ensures Valid() && fresh(Repr - old(Repr))
      ensures frag == ring[idx] && contents == old(contents)[idx := Some(Reassembly.Fresh(f))]
    {
      assert SlotOk(idx);
      frag := new HmFragment(f);
      ring[idx] := frag;
      contents := contents[idx := Some(Reassembly.Fresh(f))];
      owned := owned[idx := frag.Footprint()];
      Repr := Repr + frag.Footprint();
      assert hasMessage ==> contents[Reassembly.Current(View())] == old(contents[Reassembly.Current(View())]);
      forall i: nat | i < ring.Length && i != idx ensures SlotOk(i) {
        assert old(SlotOk(i)) && ring[i] == old(ring[i]);
        SlotStays(i);
      }
      assert SlotOk(idx);
    }

    lemma Stored(idx: nat)
      requires Valid() && idx < ring.Length && ring[idx] != null
      ensures contents[idx].Some?
      ensures var inc := contents[idx].value;
              inc.typ == ring[idx].typ && inc.seqNum == ring[idx].seqNum && |inc.body| == ring[idx].msgLen
    {
      assert SlotOk(idx);
    }

    lemma SameNumber(seqNum: nat)
      requires Valid() && readSeq <= seqNum < readSeq + MAX_FLIGHT && ring[seqNum % MAX_FLIGHT] != null
      ensures ring[seqNum % MAX_FLIGHT].seqNum == seqNum
    {
      Stored(seqNum % MAX_FLIGHT);
      Reassembly.SlotHasSameSequence(View(), seqNum);
    }

    /** The message f belongs to, created if f is its first fragment; null with an
        alert if f is out of the window or contradicts what is already there. */
    method GetIncomingMessage(f: Fragment) returns (frag: HmFragment?, alert: nat)
      requires Valid() && f.seqNum < TWO_16
      modifies ring, this`contents, this`Repr, this`owned
      ensures Valid() && fresh(Repr - old(Repr))
      ensures
        var idx := f.seqNum % MAX_FLIGHT;
        var inWindow := readSeq <= f.seqNum < readSeq + MAX_FLIGHT;
        var inc := if old(contents)[idx].Some? then old(contents)[idx].value else Reassembly.Fresh(f);
        if inWindow && inc.typ == f.typ && |inc.body| == f.msgLen then
          frag != null && frag == ring[idx] && contents == old(contents)[idx := Some(inc)]
        else
          frag == null && contents == old(contents)
          && alert == (if inWindow then Reassembly.AD_ILLEGAL_PARAMETER else Reassembly.AD_INTERNAL_ERROR)
    {
      hide Reassembly.HasMessage, HmFragment.View, HmFragment.Valid, Reassembly.Fresh, Reassembly.RingOk;
      alert := 0;
      if f.seqNum < readSeq || f.seqNum - readSeq >= MAX_FLIGHT {
        return null, Reassembly.AD_INTERNAL_ERROR;
      }
      var idx := f.seqNum % MAX_FLIGHT;
      assert SlotOk(idx);
      frag := ring[idx];
      if frag == null {
        assert contents[idx].None?;
        frag := Insert(idx, f);
        return;
      }
      Stored(idx);
      // ssl/d1_both.cc:279 asserts this; it holds in every reachable state.
      SameNumber(f.seqNum);
      assert frag.seqNum == f.seqNum;
      assert contents[idx := contents[idx]] == contents;
      if frag.typ != f.typ || frag.msgLen != f.msgLen {
        return null, Reassembly.AD_ILLEGAL_PARAMETER;
      }
    }

    /** Adds a fragment to its message in slot idx. */
    method ReceiveInto(idx: nat, f: Fragment)
      requires Valid() && idx < ring.Length && ring[idx] != null
      requires f.fragOff + |f.body| <= ring[idx].msgLen
      modifies Repr
      ensures Valid() && Repr == old(Repr)
      ensures unchanged(this`readSeq, this`rEpoch, this`nullCipher, this`hasMessage, this`hasChangeCipherSpec,
                        this`flightHasReply, ring)
      ensures old(contents)[idx].Some? && f.fragOff + |f.body| <= |old(contents)[idx].value.body|
      ensures contents == old(contents)[idx := Some(Reassembly.Deliver(old(contents)[idx].value, f))]
    {
      assert SlotOk(idx);
      var frag := ring[idx];
      ghost var inc := contents[idx].value;
      Reassembly.DeliverKeepsRing(View(), idx, f);
      hide Reassembly.Deliver, Reassembly.RingOk, Reassembly.HasMessage;
      frag.Receive(f);
      contents := contents[idx := Some(Reassembly.Deliver(inc, f))];
      owned := owned[idx := frag.Footprint()];
      hide HmFragment.View;
      forall i: nat | i < ring.Length && i != idx ensures SlotOk(i) {
        assert old(SlotOk(i)) && owned[i] !! old(owned)[idx];
        assert ring[i] != null ==> this !in old(owned)[i];
        SlotStays(i);
      }
      assert SlotOk(idx);
    }

    /** A slot none of whose objects has changed. */
    twostate lemma SlotStays(i: nat)
      requires i < ring.Length == |contents| == |owned| && |old(contents)| == |old(owned)| == ring.Length
      requires old(SlotOk(i)) && Repr >= old(Repr) && ring[i] == old(ring[i])
      requires contents[i] == old(contents)[i] && owned[i] == old(owned)[i]
      requires ring[i] != null ==> forall o <- old(owned)[i] :: unchanged(o)
      ensures SlotOk(i)
    {
    }

    /** Applies one parsed fragment. */
    method OnFragment(f: Fragment, maxLen: nat) returns (outcome: Reassembly.Outcome)
      requires Valid() && f.Encodable()
      modifies Repr
      ensures Valid() && fresh(Repr - old(Repr))
      ensures unchanged(this`nullCipher, this`hasMessage, this`hasChangeCipherSpec, this`flightHasReply)
      ensures (View(), outcome) == Reassembly.OnFragment(old(View()), f, maxLen)
    {
      if f.fragOff + |f.body| > f.msgLen || f.msgLen > maxLen {
        return Reassembly.Fail(Reassembly.AD_ILLEGAL_PARAMETER);
      }
      // In the encrypted epoch only the next message is expected.
      if rEpoch == 1 && f.seqNum != readSeq {
        return Reassembly.Fail(Reassembly.AD_UNEXPECTED_MESSAGE);
      }
      if f.seqNum < readSeq || f.seqNum > readSeq + MAX_FLIGHT {
        return Reassembly.Continue;
      }
      var frag, alert := GetIncomingMessage(f);
      if frag == null {
        return Reassembly.Fail(alert);
      }
      assert SlotOk(f.seqNum % MAX_FLIGHT);
      ReceiveInto(f.seqNum % MAX_FLIGHT, f);
      assert View().ring == Reassembly.OnFragment(old(View()), f, maxLen).0.ring;
      outcome := Reassembly.Continue;
    }

    /** Handles a record the record layer has opened. */
    method OpenHandshake(typ: byte, record: seq<byte>, maxLen: nat) returns (result: OpenResult)
      requires Valid()
      modifies Repr
      ensures Valid() && fresh(Repr - old(Repr))
      ensures unchanged(this`nullCipher, this`hasMessage, this`flightHasReply)
      ensures typ == RT_HANDSHAKE ==>
        var (r, o) := Reassembly.OnRecord(old(View()), record, maxLen);
        View() == r && result == (if o.Fail? then Error(o.alert) else Success)
        && hasChangeCipherSpec == old(hasChangeCipherSpec)
      ensures typ != RT_HANDSHAKE ==> View() == old(View())
      ensures typ == RT_APPLICATION_DATA ==>
        result == (if nullCipher then Error(Reassembly.AD_UNEXPECTED_MESSAGE) else Discard)
        && hasChangeCipherSpec == old(hasChangeCipherSpec)
      ensures typ == RT_CHANGE_CIPHER_SPEC ==>
        && result == (if !nullCipher then Error(Reassembly.AD_UNEXPECTED_MESSAGE)
                      else if record != [MT_CCS] then Error(Reassembly.AD_ILLEGAL_PARAMETER) else Success)
        && hasChangeCipherSpec == (old(hasChangeCipherSpec) || result == Success)
      ensures typ !in {RT_HANDSHAKE, RT_APPLICATION_DATA, RT_CHANGE_CIPHER_SPEC} ==>
        result == Error(Reassembly.AD_UNEXPECTED_MESSAGE)
        && hasChangeCipherSpec == old(hasChangeCipherSpec)
    {
      if typ == RT_APPLICATION_DATA {
        if nullCipher {
          return Error(Reassembly.AD_UNEXPECTED_MESSAGE);
        }
        return Discard;
      }
      if typ == RT_CHANGE_CIPHER_SPEC {
        if !nullCipher {
          return Error(Reassembly.AD_UNEXPECTED_MESSAGE);
        }
        if |record| != 1 || record[0] != MT_CCS {
          return Error(Reassembly.AD_ILLEGAL_PARAMETER);
        }
        hasChangeCipherSpec := true;
        forall i: nat | i < ring.Length ensures SlotOk(i) {
          assert old(SlotOk(i));
        }
        return Success;
      }
      if typ != RT_HANDSHAKE {
        return Error(Reassembly.AD_UNEXPECTED_MESSAGE);
      }
      var rest := record;
      while |rest| > 0
        invariant Valid() && fresh(Repr - old(Repr))
        invariant unchanged(this`nullCipher, this`hasMessage, this`hasChangeCipherSpec, this`flightHasReply)
        invariant Reassembly.OnRecord(View(), rest, maxLen) == Reassembly.OnRecord(old(View()), record, maxLen)
        decreases |rest|
      {
        var p := ParseFragment(rest);
        if p.None? {
          return Error(Reassembly.AD_DECODE_ERROR);
        }
        var o := OnFragment(p.value.0, maxLen);
        if o.Fail? {
          return Error(o.alert);
        }
        rest := p.value.1;
      }
      result := Success;
    }

    /** The same while a change of cipher is waited for: one that has come, now or before,
        is taken; handshake fragments that come instead are kept. */
    method OpenChangeCipherSpec(typ: byte, record: seq<byte>, maxLen: nat) returns (result: OpenResult)
      requires Valid()
      modifies Repr
      ensures Valid() && fresh(Repr - old(Repr)) && !hasChangeCipherSpec
      ensures unchanged(this`nullCipher, this`hasMessage, this`flightHasReply)
      ensures old(hasChangeCipherSpec) ==> result == Success && View() == old(View())
      ensures !old(hasChangeCipherSpec) && typ == RT_HANDSHAKE ==>
        var (r, o) := Reassembly.OnRecord(old(View()), record, maxLen);
        View() == r && result == (if o.Fail? then Error(o.alert) else Discard)
      ensures !old(hasChangeCipherSpec) && typ != RT_HANDSHAKE ==>
        && View() == old(View())
        && (result == Success <==> typ == RT_CHANGE_CIPHER_SPEC && nullCipher && record == [MT_CCS])
    {
      if !hasChangeCipherSpec {
        result := OpenHandshake(typ, record, maxLen);
        if result != Success {
          return;
        }
      }
      if !hasChangeCipherSpec {
        return Discard;
      }
      label Opened:
      hasChangeCipherSpec := false;
      forall i: nat | i < ring.Length ensures SlotOk(i) {
        assert old@Opened(SlotOk(i));
      }
      return Success;
    }

    /** The current message if it is complete: its type, body and raw bytes. */
    method GetMessage() returns (ok: bool, typ: byte, body: seq<byte>, raw: seq<byte>)
      requires Valid()
      modifies this`hasMessage
      ensures Valid() && hasMessage == (old(hasMessage) || ok)
      ensures ok <==> Reassembly.HasMessage(View())
      ensures ok ==> raw == Reassembly.RawMessage(View())
      ensures ok ==> [typ] == raw[..1] && body == raw[HEADER_LENGTH..]
    {
      var idx := readSeq % MAX_FLIGHT;
      assert SlotOk(idx);
      var frag := ring[idx];
      if frag != null { frag.CompleteView(); }
      if frag == null || frag.reassembly != null {
        return false, 0, [], [];
      }
      hasMessage := true;
      forall i: nat | i < ring.Length ensures SlotOk(i) {
        assert old(SlotOk(i));
      }
      raw := frag.data[..];
      assert Reassembly.Received(frag.View().body) == frag.data[HEADER_LENGTH..];
      assert raw == frag.data[..HEADER_LENGTH] + frag.data[HEADER_LENGTH..];
      return true, frag.typ, frag.data[HEADER_LENGTH..], raw;
    }

    /** Consumes the current message; a flight that was sent completely now has a reply. */
    method NextMessage(outgoingComplete: bool)
      requires Valid() && hasMessage
      modifies ring, this`contents, this`owned, this`readSeq, this`hasMessage, this`flightHasReply
      ensures Valid() && !hasMessage
      ensures flightHasReply == (old(flightHasReply) || outgoingComplete)
      ensures View() == Reassembly.Next(old(View()))
    {
      Reassembly.NextKeepsRing(View());
      var idx := readSeq % MAX_FLIGHT;
      ring[idx] := null;
      contents := contents[idx := None];
      owned := owned[idx := {}];
      readSeq := (readSeq + 1) % TWO_16;
      hasMessage := false;
      if outgoingComplete {
        flightHasReply := true;
      }
      forall i: nat | i < ring.Length ensures SlotOk(i) {
        assert old(SlotOk(i));
      }
    }

    /** Whether anything but the current message is buffered; a cipher change is
        refused while there is. */
    method HasUnprocessedHandshakeData() returns (leftover: bool)
      requires Valid()
      ensures leftover <==> hasChangeCipherSpec || exists i: nat ::
        i < MAX_FLIGHT && contents[i].Some? && !(hasMessage && i == Reassembly.Current(View()))
    {
      if hasChangeCipherSpec {
        return true;
      }
      var current := readSeq % MAX_FLIGHT;
      for i := 0 to MAX_FLIGHT
        invariant forall j: nat | j < i :: contents[j].None? || (hasMessage && j == current)
      {
        assert SlotOk(i);
        if !(hasMessage && i == current) && ring[i] != null {
          return true;
        }
      }
      return false;
    }

    /** Moves to the next read epoch; refused while this epoch's data is left over. */
    method SetReadState() returns (ok: bool)
      requires Valid()
      modifies this`rEpoch, this`nullCipher
      ensures Valid()
      ensures View() == if ok then Reassembly.NextEpoch(old(View())) else old(View())
      ensures ok <==> !hasChangeCipherSpec && forall i: nat ::
        i < MAX_FLIGHT && contents[i].Some? ==> hasMessage && i == Reassembly.Current(View())
    {
      var leftover := HasUnprocessedHandshakeData();
      if leftover {
        return false;
      }
      rEpoch, nullCipher := (rEpoch + 1) % TWO_16, false;
      forall i: nat | i < ring.Length ensures SlotOk(i) {
        assert old(SlotOk(i));
      }
      ok := true;
    }
  }
}
