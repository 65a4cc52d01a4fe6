/**
 The DTLS replay window (section 4.1.2.6 of RFC 6347) and the read side of the
 record layer that consults it.
 */
module ReplayWindow {
  import opened Bits
  import opened Bytes
  import opened DtlsRecord
  import opened Protocol

  const WINDOW_SIZE: nat := 64

  /** Bit k of bits stands for the record number maxSeqNum - k. */
  datatype Window = Window(bits: nat, maxSeqNum: nat)

  const EMPTY_WINDOW := Window(0, 0)

  predicate ShouldDiscard(w: Window, seqNum: nat) {
    seqNum <= w.maxSeqNum
    && (w.maxSeqNum - seqNum >= WINDOW_SIZE || Bit(w.bits, w.maxSeqNum - seqNum))
  }

  function Slide(w: Window, seqNum: nat): Window {
    if seqNum > w.maxSeqNum then
      var shift := seqNum - w.maxSeqNum;
      Window(if shift >= WINDOW_SIZE then 0 else w.bits * Pow2(shift) % Pow2(WINDOW_SIZE), seqNum)
    else w
  }

  function Record(w: Window, seqNum: nat): Window {
    var slid := Slide(w, seqNum);
    var idx := slid.maxSeqNum - seqNum;
    if idx < WINDOW_SIZE then slid.(bits := Or(slid.bits, Pow2(idx))) else slid
  }

  /** The window w is what recording exactly the numbers in seen leaves behind. */
  ghost predicate Tracks(w: Window, seen: set<nat>) {
    && (seen == {} ==> w == EMPTY_WINDOW)
    && (seen != {} ==> w.maxSeqNum in seen)
    && (forall n <- seen :: n <= w.maxSeqNum)
    && w.bits < Pow2(WINDOW_SIZE)
    && (forall k: nat | k < WINDOW_SIZE ::
          Bit(w.bits, k) <==> k <= w.maxSeqNum && w.maxSeqNum - k in seen)
  }

  lemma EmptyTracks()
    ensures Tracks(EMPTY_WINDOW, {})
  {
    forall k: nat ensures !Bit(0, k) { ZeroHasNoBits(k); }
  }

  /** The window refuses a number iff it was recorded or lies 64 or more below the maximum. */
  lemma DiscardExact(w: Window, seen: set<nat>, seqNum: nat)
    requires Tracks(w, seen)
    ensures ShouldDiscard(w, seqNum) <==> seqNum in seen || seqNum + WINDOW_SIZE <= w.maxSeqNum
  {
    if seqNum <= w.maxSeqNum && w.maxSeqNum - seqNum < WINDOW_SIZE {
      assert w.maxSeqNum - (w.maxSeqNum - seqNum) == seqNum;
    }
  }

  lemma SlideBit(w: Window, seqNum: nat, k: nat)
    requires seqNum > w.maxSeqNum && k < WINDOW_SIZE
    ensures Bit(Slide(w, seqNum).bits, k)
       <==> seqNum - w.maxSeqNum <= k && Bit(w.bits, k - (seqNum - w.maxSeqNum))
  {
    var shift := seqNum - w.maxSeqNum;
    if shift >= WINDOW_SIZE {
      ZeroHasNoBits(k);
    } else {
      TruncateBit(w.bits * Pow2(shift), WINDOW_SIZE, k);
      ShiftBit(w.bits, shift, k);
    }
  }

  lemma RecordMax(w: Window, seqNum: nat)
    ensures Record(w, seqNum).maxSeqNum == if seqNum > w.maxSeqNum then seqNum else w.maxSeqNum
  {
  }

  /** Recording a number, stale or not, adds exactly that number. */
  lemma RecordTracks(w: Window, seen: set<nat>, seqNum: nat)
    requires Tracks(w, seen)
    ensures Tracks(Record(w, seqNum), seen + {seqNum})
    ensures Record(w, seqNum).maxSeqNum == if seqNum > w.maxSeqNum then seqNum else w.maxSeqNum
  {
    assert Pow2(0) == 1;
    hide Pow2, Or, Bit;
    var slid, r := Slide(w, seqNum), Record(w, seqNum);
    var idx := slid.maxSeqNum - seqNum;
    assert slid.bits < Pow2(WINDOW_SIZE);
    if idx < WINDOW_SIZE {
      Pow2Monotone(idx, WINDOW_SIZE - 1);
      OrBound(slid.bits, Pow2(idx), WINDOW_SIZE);
    }
    forall k: nat | k < WINDOW_SIZE
      ensures Bit(r.bits, k) <==> k <= r.maxSeqNum && r.maxSeqNum - k in seen + {seqNum}
    {
      BitTracks(w, seen, seqNum, k);
    }
  }

  lemma BitTracks(w: Window, seen: set<nat>, seqNum: nat, k: nat)
    requires Tracks(w, seen) && k < WINDOW_SIZE
    ensures var r := Record(w, seqNum);
            Bit(r.bits, k) <==> k <= r.maxSeqNum && r.maxSeqNum - k in seen + {seqNum}
  {
    hide Pow2, Or, Bit;
    var slid := Slide(w, seqNum);
    var idx := slid.maxSeqNum - seqNum;
    if idx < WINDOW_SIZE {
      OrBit(slid.bits, Pow2(idx), k);
      Pow2Bit(idx, k);
    }
    if seqNum > w.maxSeqNum {
      SlideBit(w, seqNum, k);
      if seqNum - w.maxSeqNum <= k <= seqNum {
        assert w.maxSeqNum - (k - (seqNum - w.maxSeqNum)) == seqNum - k;
      }
    }
  }

  // The connection.

  datatype ReadState = ReadState(epoch: nat, window: Window)

  const INITIAL := ReadState(0, EMPTY_WINDOW)

  /** What the read side can be asked to do.  authentic says whether the AEAD
      opens the record into a plaintext of legal length. */
  datatype Event = Arrival(recordNumber: nat, authentic: bool) | KeyChange

  predicate Accepts(st: ReadState, ev: Event) {
    && ev.Arrival?
    && Epoch(ev.recordNumber) == st.epoch
    && !ShouldDiscard(st.window, ev.recordNumber)
    && ev.authentic
  }

  function Step(st: ReadState, ev: Event): ReadState {
    match ev
    case KeyChange => ReadState((st.epoch + 1) % EPOCHS, EMPTY_WINDOW)
    case Arrival(n, _) => if Accepts(st, ev) then st.(window := Record(st.window, n)) else st
  }

  /** The record numbers a run accepts, in order. */
  function Accepted(st: ReadState, evs: seq<Event>): seq<nat>
    decreases |evs|
  {
    if |evs| == 0 then []
    else (if Accepts(st, evs[0]) then [evs[0].recordNumber] else [])
         + Accepted(Step(st, evs[0]), evs[1..])
  }

  function KeyChanges(evs: seq<Event>): nat {
    if |evs| == 0 then 0 else (if evs[0].KeyChange? then 1 else 0) + KeyChanges(evs[1..])
  }

  ghost predicate Distinct(s: seq<nat>) {
    forall i, j | 0 <= i < j < |s| :: s[i] != s[j]
  }

  lemma DistinctCons(x: nat, s: seq<nat>)
    requires x !in s && Distinct(s)
    ensures Distinct([x] + s)
  {
  }

  /** st is where the read side stands after accepting exactly the numbers in past. */
  ghost predicate Consistent(st: ReadState, past: set<nat>) {
    && (forall n <- past :: Epoch(n) <= st.epoch)
    && Tracks(st.window, set n <- past | Epoch(n) == st.epoch)
  }

  /** Acceptance in terms of what was accepted before. */
  lemma AcceptsExactly(st: ReadState, past: set<nat>, n: nat, authentic: bool)
    requires Consistent(st, past)
    ensures Accepts(st, Arrival(n, authentic))
       <==> Epoch(n) == st.epoch && n !in past && n + WINDOW_SIZE > st.window.maxSeqNum && authentic
  {
    DiscardExact(st.window, (set m <- past | Epoch(m) == st.epoch), n);
  }

  lemma StepConsistent(st: ReadState, past: set<nat>, ev: Event)
    requires Consistent(st, past)
    requires ev.KeyChange? ==> st.epoch + 1 < EPOCHS
    ensures Consistent(Step(st, ev), if Accepts(st, ev) then past + {ev.recordNumber} else past)
    ensures Accepts(st, ev) ==> ev.recordNumber !in past
  {
    if Accepts(st, ev) {
      var n := ev.recordNumber;
      var current := set m <- past | Epoch(m) == st.epoch;
      DiscardExact(st.window, current, n);
      RecordTracks(st.window, current, n);
      assert (set m <- past + {n} | Epoch(m) == st.epoch) == current + {n};
    } else if ev.KeyChange? {
      EmptyTracks();
      assert (set m <- past | Epoch(m) == st.epoch + 1) == {};
    }
  }

  lemma StepEpoch(st: ReadState, evs: seq<Event>)
    requires |evs| > 0 && st.epoch + KeyChanges(evs) < EPOCHS
    ensures Step(st, evs[0]).epoch + KeyChanges(evs[1..]) == st.epoch + KeyChanges(evs)
  {
    hide Accepts, Record;
    assert KeyChanges(evs) == (if evs[0].KeyChange? then 1 else 0) + KeyChanges(evs[1..]);
    hide KeyChanges;
    match evs[0]
    case KeyChange =>
    case Arrival(_, _) =>
  }

  lemma {:induction false} AcceptedIsFresh(st: ReadState, past: set<nat>, evs: seq<Event>)
    requires Consistent(st, past)
    requires st.epoch + KeyChanges(evs) < EPOCHS
    ensures forall n <- Accepted(st, evs) :: n !in past
    ensures Distinct(Accepted(st, evs))
    decreases |evs|
  {
    if |evs| > 0 {
      var ev, next := evs[0], Step(st, evs[0]);
      var rest := Accepted(next, evs[1..]);
      StepEpoch(st, evs);
      StepConsistent(st, past, ev);
      if Accepts(st, ev) {
        var past' := past + {ev.recordNumber};
        AcceptedIsFresh(next, past', evs[1..]);
        assert forall n <- rest :: n !in past';
        DistinctCons(ev.recordNumber, rest);
        assert Accepted(st, evs) == [ev.recordNumber] + rest;
      } else {
        AcceptedIsFresh(next, past, evs[1..]);
        assert Accepted(st, evs) == [] + rest == rest;
      }
    }
  }

  /** Over a whole connection without epoch wrap, no record number is accepted twice. */
  lemma NoReplay(evs: seq<Event>)
    requires KeyChanges(evs) < EPOCHS
    ensures Distinct(Accepted(INITIAL, evs))
  {
    EmptyTracks();
    assert (set n <- {} | Epoch(n) == 0) == {};
    AcceptedIsFresh(INITIAL, {}, evs);
  }

  function Rekeys(k: nat): seq<Event> {
    if k == 0 then [] else [KeyChange] + Rekeys(k - 1)
  }

  lemma RollOver(e: nat, k: nat)
    requires e < EPOCHS
    ensures ((e + 1) % EPOCHS + k) % EPOCHS == (e + 1 + k) % EPOCHS
  {
  }

  lemma StepSkipped(st: ReadState, evs: seq<Event>)
    ensures Accepted(st, [KeyChange] + evs) == Accepted(Step(st, KeyChange), evs)
    ensures KeyChanges([KeyChange] + evs) == 1 + KeyChanges(evs)
  {
    hide ShouldDiscard, Record;
    assert ([KeyChange] + evs)[1..] == evs;
  }

  lemma {:induction false} AfterRekeys(st: ReadState, k: nat, evs: seq<Event>)
    requires st.epoch < EPOCHS
    ensures KeyChanges(Rekeys(k) + evs) == k + KeyChanges(evs)
    ensures Accepted(st, Rekeys(k) + evs)
         == Accepted(if k == 0 then st else ReadState((st.epoch + k) % EPOCHS, EMPTY_WINDOW), evs)
    decreases k
  {
    hide ShouldDiscard, Record, Epoch;
    var all := Rekeys(k) + evs;
    if k == 0 {
      assert all == evs;
    } else {
      assert all == [KeyChange] + (Rekeys(k - 1) + evs);
      hide Accepted, KeyChanges, Rekeys;
      StepSkipped(st, Rekeys(k - 1) + evs);
      AfterRekeys(Step(st, KeyChange), k - 1, evs);
      RollOver(st.epoch, k - 1);
    }
  }

  /** The bound of NoReplay is needed: one more key change wraps the 16-bit epoch
      and the first record is accepted again. */
  lemma ReplayAfterEpochWrap()
    ensures var evs := [Arrival(0, true)] + (Rekeys(EPOCHS) + [Arrival(0, true)]);
            KeyChanges(evs) == EPOCHS && Accepted(INITIAL, evs) == [0, 0]
  {
    var a := Arrival(0, true);
    var tail := Rekeys(EPOCHS) + [a];
    EmptyTracks();
    DiscardExact(EMPTY_WINDOW, {}, 0);
    hide ShouldDiscard, Record, Rekeys;
    FirstAccepted(INITIAL, 0, tail);
    FirstAccepted(INITIAL, 0, []);
    assert Accepted(INITIAL, []) == [] && [a] + [] == [a] && KeyChanges([]) == 0;
    hide Accepted, KeyChanges;
    AfterRekeys(Step(INITIAL, a), EPOCHS, [a]);
  }

  lemma FirstAccepted(st: ReadState, n: nat, evs: seq<Event>)
    requires Accepts(st, Arrival(n, true))
    ensures Accepted(st, [Arrival(n, true)] + evs) == [n] + Accepted(Step(st, Arrival(n, true)), evs)
    ensures KeyChanges([Arrival(n, true)] + evs) == KeyChanges(evs)
  {
    hide Accepts, Record;
    assert ([Arrival(n, true)] + evs)[1..] == evs;
  }

  // The record layer itself.

  const DTLS_VERSION_MAJOR: nat := 0xfe
  // alerts, received and sent
  const AL_WARNING: byte := 1
  const AL_FATAL: byte := 2
  const AD_CLOSE_NOTIFY: byte := 0
  const AD_UNEXPECTED_MESSAGE: nat := 10
  const AD_RECORD_OVERFLOW: nat := 22
  const AD_ILLEGAL_PARAMETER: nat := 47
  const AD_DECODE_ERROR: nat := 50
  const MAX_WARNING_ALERTS: nat := 4

  /** Error ends the connection; alert is what the peer is told, zero if nothing. */
  datatype OpenResult =
    | Success(typ: byte, plaintext: seq<byte>)
    | Partial
    | Discard
    | CloseNotify
    | Error(alert: nat)

  /** What an alert comes to, after so many warnings in a row. */
  function OnAlert(warnings: nat, alert: seq<byte>): OpenResult {
    if |alert| != 2 then Error(AD_DECODE_ERROR)
    else if alert[0] == AL_WARNING then
      if alert[1] == AD_CLOSE_NOTIFY then CloseNotify
      else if warnings >= MAX_WARNING_ALERTS then Error(AD_UNEXPECTED_MESSAGE)
      else Discard
    else if alert[0] == AL_FATAL then Error(0)
    else Error(AD_ILLEGAL_PARAMETER)
  }

  class DtlsReader {
    var rEpoch: nat
    var bits: nat
    var maxSeqNum: nat
    var nullCipher: bool
    var recordVersion: nat
    var closed: bool
    var warningAlertCount: nat
    // every record number ever accepted
    ghost var accepted: set<nat>

    ghost function View(): ReadState
      reads this
    {
      ReadState(rEpoch, Window(bits, maxSeqNum))
    }

    ghost predicate Valid()
      reads this
    {
      rEpoch < EPOCHS && Consistent(View(), accepted)
    }

    constructor ()
      ensures Valid() && View() == INITIAL && accepted == {} && nullCipher && !closed && warningAlertCount == 0
    {
      rEpoch, bits, maxSeqNum, warningAlertCount := 0, 0, 0, 0;
      nullCipher, recordVersion, closed, accepted := true, 0, false, {};
      new;
      EmptyTracks();
      assert (set n: nat <- {} | Epoch(n) == 0) == {};
    }

    predicate VersionOk(version: nat)
      reads this`nullCipher, this`recordVersion
    {
      if nullCipher then version / 256 == DTLS_VERSION_MAJOR else version == recordVersion
    }

    /** A record is taken up if its header is good, it is of this epoch, new, and not below
        the window. */
    ghost predicate TakesUp(p: Option<WireRecord>)
      reads this
    {
      && p.Some? && VersionOk(p.value.version) && Epoch(p.value.recordNumber) == rEpoch
      && p.value.recordNumber !in accepted && p.value.recordNumber + WINDOW_SIZE > maxSeqNum
    }

    /** decrypted is what the AEAD makes of the record, None if it does not authenticate. */
    method OpenRecord(input: seq<byte>, decrypted: Option<seq<byte>>)
      returns (result: OpenResult, consumed: nat)
      requires Valid()
      modifies this`bits, this`maxSeqNum, this`accepted, this`closed, this`warningAlertCount
      ensures Valid() && consumed <= |input|
      ensures old(closed) ==> result == CloseNotify && consumed == 0
      ensures !old(closed) && input == [] ==> result == Partial && consumed == 0
      ensures
        var p := ParseRecord(input);
        if !old(closed) && old(TakesUp(p)) && decrypted.Some? && |decrypted.value| <= MAX_PLAIN_LENGTH then
          // It is accepted, and the window moves on.
          && accepted == old(accepted) + {p.value.recordNumber}
          && View() == Step(old(View()), Arrival(p.value.recordNumber, true))
          && consumed == p.value.Size()
          && if p.value.typ == RT_ALERT then
               && result == OnAlert(old(warningAlertCount), decrypted.value) && closed == result.CloseNotify?
               && warningAlertCount == old(warningAlertCount) + (if IsWarning(decrypted.value) then 1 else 0)
             else
               result == Success(p.value.typ, decrypted.value) && !closed && warningAlertCount == 0
        else
          // Nothing changes, and only an authentic record that is too long is an error.
          && accepted == old(accepted) && View() == old(View())
          && closed == old(closed) && warningAlertCount == old(warningAlertCount)
          && (!closed && input != [] ==>
                && result == (if old(TakesUp(p)) && decrypted.Some? then Error(AD_RECORD_OVERFLOW) else Discard)
                && consumed == (if p.Some? && VersionOk(p.value.version) then p.value.Size() else |input|))
    {
      hide Consistent, Step, Record, OnAlert;
      consumed := 0;
      if closed {
        return CloseNotify, 0;
      }
      if |input| == 0 {
        return Partial, 0;
      }
      var p := ParseRecord(input);
      if p.None? || !VersionOk(p.value.version) {
        return Discard, |input|;
      }
      var n := p.value.recordNumber;
      AcceptsExactly(View(), accepted, n, true);
      consumed := p.value.Size();
      if Epoch(n) != rEpoch || ShouldDiscard(Window(bits, maxSeqNum), n) {
        return Discard, consumed;
      }
      if decrypted.None? {
        return Discard, consumed;
      }
      if |decrypted.value| > MAX_PLAIN_LENGTH {
        return Error(AD_RECORD_OVERFLOW), consumed;
      }
      Note(n);
      if p.value.typ == RT_ALERT {
        result := ProcessAlert(decrypted.value);
        return;
      }
      warningAlertCount := 0;
      result := Success(p.value.typ, decrypted.value);
    }

    method ProcessAlert(alert: seq<byte>) returns (result: OpenResult)
      requires !closed
      modifies this`closed, this`warningAlertCount
      ensures result == OnAlert(old(warningAlertCount), alert) && closed == result.CloseNotify?
      ensures warningAlertCount == old(warningAlertCount) + (if IsWarning(alert) then 1 else 0)
    {
      if |alert| != 2 {
        return Error(AD_DECODE_ERROR);
      }
      if alert[0] == AL_WARNING {
        if alert[1] == AD_CLOSE_NOTIFY {
          closed := true;
          return CloseNotify;
        }
        warningAlertCount := warningAlertCount + 1;
        if warningAlertCount > MAX_WARNING_ALERTS {
          return Error(AD_UNEXPECTED_MESSAGE);
        }
        return Discard;
      }
      if alert[0] == AL_FATAL {
        return Error(0);
      }
      return Error(AD_ILLEGAL_PARAMETER);
    }

    /** The window moves on to an accepted record. */
    method Note(n: nat)
      requires Valid() && Accepts(View(), Arrival(n, true))
      modifies this`bits, this`maxSeqNum, this`accepted
      ensures Valid() && accepted == old(accepted) + {n}
      ensures View() == Step(old(View()), Arrival(n, true))
    {
      hide Consistent, Record;
      StepConsistent(View(), accepted, Arrival(n, true));
      BitmapRecord(n);
      accepted := accepted + {n};
    }

    method BitmapRecord(seqNum: nat)
      modifies this`bits, this`maxSeqNum
      ensures Window(bits, maxSeqNum) == Record(old(Window(bits, maxSeqNum)), seqNum)
    {
      if seqNum > maxSeqNum {
        var shift := seqNum - maxSeqNum;
        if shift >= WINDOW_SIZE {
          bits := 0;
        } else {
          bits := bits * Pow2(shift) % Pow2(WINDOW_SIZE);
        }
        maxSeqNum := seqNum;
      }
      var idx := maxSeqNum - seqNum;
      if idx < WINDOW_SIZE {
        bits := Or(bits, Pow2(idx));
      }
    }

    /** Installs new read keys; refused while handshake data of this epoch is left over. */
    method SetReadState(version: nat, leftover: bool) returns (ok: bool)
      requires Valid()
      modifies this`rEpoch, this`bits, this`maxSeqNum, this`nullCipher, this`recordVersion
      ensures ok <==> !leftover
      ensures !ok ==> Valid() && unchanged(this)
      ensures ok ==> View() == Step(old(View()), KeyChange) && !nullCipher && recordVersion == version
      ensures ok && old(rEpoch) + 1 < EPOCHS ==> Valid()
    {
      if leftover {
        return false;
      }
      if rEpoch + 1 < EPOCHS {
        StepConsistent(View(), accepted, KeyChange);
      }
      rEpoch := (rEpoch + 1) % EPOCHS;
      bits, maxSeqNum := 0, 0;
      nullCipher, recordVersion := false, version;
      ok := true;
    }
  }

  /** An alert that is counted: a warning that does not close the connection. */
  predicate IsWarning(alert: seq<byte>) { |alert| == 2 && alert[0] == AL_WARNING && alert[1] != AD_CLOSE_NOTIFY }

  /** An authentic record a peer may send after a key change to version. */
  predicate Sendable(p: WireRecord, epoch: nat, version: nat) {
    && p.Encodable() && |p.body| <= MAX_ENCRYPTED_LENGTH && p.version == version && Epoch(p.recordNumber) == epoch
    && p.typ != RT_ALERT
  }

  /** After a key change, the records of the new epoch and version that arrive with
      increasing numbers, each at the front of some datagram and opened by the AEAD to
      plaintexts of legal length, are all returned, with their plaintexts. */
  method RecordsAfterKeyChange(reader: DtlsReader, version: nat, records: seq<WireRecord>, plain: seq<seq<byte>>,
                               behind: seq<seq<byte>>)
    returns (results: seq<OpenResult>)
    requires reader.Valid() && !reader.closed && reader.rEpoch + 1 < EPOCHS
    requires |records| == |plain| == |behind|
    requires forall i | 0 <= i < |records| :: Sendable(records[i], reader.rEpoch + 1, version)
    requires forall i | 0 <= i < |plain| :: |plain[i]| <= MAX_PLAIN_LENGTH
    requires forall i, j | 0 <= i < j < |records| :: records[i].recordNumber < records[j].recordNumber
    modifies reader
    ensures |results| == |records|
    ensures forall i | 0 <= i < |records| :: results[i] == Success(records[i].typ, plain[i])
  {
    hide Consistent, Record, RecordBytes, ParseRecord, WireRecord.Encodable, Slide;
    ghost var epoch, past := reader.rEpoch + 1, reader.accepted;
    NothingInNextEpoch(reader.View(), past);
    var ok := reader.SetReadState(version, false);
    results := [];
    for k := 0 to |records|
      invariant reader.Valid() && !reader.closed && reader.rEpoch == epoch && reader.VersionOk(version)
      invariant !reader.nullCipher && |results| == k
      invariant forall i | 0 <= i < k :: results[i] == Success(records[i].typ, plain[i])
      invariant reader.accepted == past + set i | 0 <= i < k :: records[i].recordNumber
      invariant if k == 0 then reader.maxSeqNum == 0 else reader.maxSeqNum == records[k - 1].recordNumber
    {
      var p := records[k];
      ParseInvertsRecord(p, behind[k]);
      RecordMax(Window(reader.bits, reader.maxSeqNum), p.recordNumber);
      assert p.recordNumber !in past;
      var result, _ := reader.OpenRecord(RecordBytes(p) + behind[k], Some(plain[k]));
      results := results + [result];
    }
  }

  lemma NothingInNextEpoch(st: ReadState, past: set<nat>)
    requires Consistent(st, past)
    ensures forall n | Epoch(n) == st.epoch + 1 :: n !in past
  {
  }
}
