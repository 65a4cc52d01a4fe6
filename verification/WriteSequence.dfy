/**
 The record numbers of sealed DTLS records: one 48-bit counter for the current
 write epoch and one, kept for retransmission, for the epoch before it.
 */
module WriteSequence {
  import opened Protocol

  datatype WriteState = WriteState(epoch: nat, seqNum: nat, lastSeqNum: nat)
  {
    predicate Ok() { epoch < EPOCHS && seqNum < SEQUENCES && lastSeqNum < SEQUENCES }
  }

  datatype Nonce = Nonce(epoch: nat, seqNum: nat)

  datatype Op = Seal(previousEpoch: bool) | KeyChange

  predicate Enabled(w: WriteState, op: Op) { op == Seal(true) ==> w.epoch >= 1 }

  /** The number a seal puts into its record. */
  function NonceOf(w: WriteState, previousEpoch: bool): Nonce
    requires previousEpoch ==> w.epoch >= 1
  {
    if previousEpoch then Nonce(w.epoch - 1, w.lastSeqNum) else Nonce(w.epoch, w.seqNum)
  }

  /** The 48-bit increment; it wraps to zero, and the seal then reports failure. */
  function Increment(n: nat): nat { (n + 1) % SEQUENCES }

  function Step(w: WriteState, op: Op): WriteState {
    match op
    case Seal(false) => w.(seqNum := Increment(w.seqNum))
    case Seal(true) => w.(lastSeqNum := Increment(w.lastSeqNum))
    case KeyChange => WriteState((w.epoch + 1) % EPOCHS, 0, w.seqNum)
  }

  predicate Wraps(w: WriteState, op: Op) {
    match op
    case Seal(false) => w.seqNum + 1 == SEQUENCES
    case Seal(true) => w.lastSeqNum + 1 == SEQUENCES
    case KeyChange => w.epoch + 1 == EPOCHS
  }

  /** No step of the run overflows a counter.  A sequence number overflow shows as a
      failed seal, so this says: the connection stops at the first such failure. */
  predicate OverflowFree(w: WriteState, ops: seq<Op>)
    decreases |ops|
  {
    |ops| > 0 ==> Enabled(w, ops[0]) && !Wraps(w, ops[0]) && OverflowFree(Step(w, ops[0]), ops[1..])
  }

  /** The numbers of the records a run seals, in order. */
  function Nonces(w: WriteState, ops: seq<Op>): seq<Nonce>
    requires OverflowFree(w, ops)
    decreases |ops|
  {
    if |ops| == 0 then []
    else (if ops[0].Seal? then [NonceOf(w, ops[0].previousEpoch)] else [])
         + Nonces(Step(w, ops[0]), ops[1..])
  }

  /** n has not been used yet in state w: its counter has not reached it, or its
      epoch is still to come. */
  predicate Unused(w: WriteState, n: Nonce) {
    || n.epoch > w.epoch
    || (n.epoch == w.epoch && n.seqNum >= w.seqNum)
    || (n.epoch + 1 == w.epoch && n.seqNum >= w.lastSeqNum)
  }

  /** What a step uses was unused before and is used afterwards; used numbers stay used. */
  lemma StepUses(w: WriteState, op: Op)
    requires Enabled(w, op) && !Wraps(w, op) && w.Ok()
    ensures Step(w, op).Ok()
    ensures op.Seal? ==> Unused(w, NonceOf(w, op.previousEpoch))
                         && !Unused(Step(w, op), NonceOf(w, op.previousEpoch))
    ensures forall n :: Unused(Step(w, op), n) ==> Unused(w, n)
  {
  }

  lemma {:induction false} NoncesUnused(w: WriteState, ops: seq<Op>)
    requires w.Ok() && OverflowFree(w, ops)
    ensures forall n <- Nonces(w, ops) :: Unused(w, n)
    ensures forall i, j | 0 <= i < j < |Nonces(w, ops)| :: Nonces(w, ops)[i] != Nonces(w, ops)[j]
    decreases |ops|
  {
    if |ops| > 0 {
      var rest := Nonces(Step(w, ops[0]), ops[1..]);
      StepUses(w, ops[0]);
      NoncesUnused(Step(w, ops[0]), ops[1..]);
      if ops[0].Seal? {
        var n := NonceOf(w, ops[0].previousEpoch);
        assert n !in rest;
        assert Nonces(w, ops) == [n] + rest;
      } else {
        assert Nonces(w, ops) == [] + rest == rest;
      }
    }
  }

  const INITIAL := WriteState(0, 0, 0)

  /** No record number is used twice, over any interleaving of fresh records,
      retransmissions in the previous epoch, and key changes. */
  lemma NoncesNeverRepeat(ops: seq<Op>)
    requires OverflowFree(INITIAL, ops)
    ensures forall i, j | 0 <= i < j < |Nonces(INITIAL, ops)| ::
      Nonces(INITIAL, ops)[i] != Nonces(INITIAL, ops)[j]
  {
    NoncesUnused(INITIAL, ops);
  }

  /** Sealing on after the failure would start over: the next number is the epoch's first. */
  lemma OverflowRestarts(w: WriteState)
    requires w.Ok() && Wraps(w, Seal(false))
    ensures NonceOf(Step(w, Seal(false)), false) == Nonce(w.epoch, 0)
    ensures !Unused(w, Nonce(w.epoch, 0))
  {
  }
}
