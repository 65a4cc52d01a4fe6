/**
 Saturating reference counts: the version under a lock, and the one whose threads retry
 compare-and-exchange, step by step in any interleaving.
 */
module Refcount {
  const REFCOUNT_MAX: nat := 0xffff_ffff

  datatype Op = Inc | Dec

  /** What a call comes to: zero says whether a decrement reported zero. */
  datatype Outcome = Returned(zero: bool) | Aborted

  /** One call as the locked version runs it. */
  function Locked(op: Op, count: nat): (nat, Outcome) {
    match op
    case Inc => (if count < REFCOUNT_MAX then count + 1 else count, Returned(false))
    case Dec =>
      if count == 0 then (0, Aborted)
      else
        var c := if count < REFCOUNT_MAX then count - 1 else count;
        (c, Returned(c == 0))
  }

  class LockedCount {
    var count: nat

    constructor ()
      ensures count == 1
    {
      count := 1;
    }

    method RefcountInc()
      requires count <= REFCOUNT_MAX
      modifies this
      ensures (count, Returned(false)) == Locked(Inc, old(count)) && count <= REFCOUNT_MAX
    {
      if count < REFCOUNT_MAX {
        count := count + 1;
      }
    }

    method RefcountDecAndTestZero() returns (r: Outcome)
      requires count <= REFCOUNT_MAX
      modifies this
      ensures (count, r) == Locked(Dec, old(count)) && count <= REFCOUNT_MAX
    {
      if count == 0 {
        return Aborted;
      }
      if count < REFCOUNT_MAX {
        count := count - 1;
      }
      return Returned(count == 0);
    }
  }

  // The lock-free version.

  /** A thread between calls, or in a call with the value it expects. */
  datatype Thread = Idle | Trying(op: Op, expected: nat)

  datatype Entry = Entry(op: Op, outcome: Outcome)

  /** The shared count, the threads, the references each holds, and the calls in the
      order they took effect.  Once a call aborts, nothing runs. */
  datatype World = World(count: nat, threads: seq<Thread>, held: seq<nat>, log: seq<Entry>, aborted: bool)

  datatype Step =
    | Call(i: nat, op: Op)
    | Exchange(i: nat, spurious: bool)
    | Pass(i: nat, j: nat)

  function Effect(w: World, i: nat, op: Op, count: nat, outcome: Outcome): World
    requires i < |w.threads| == |w.held|
  {
    var h := w.held[i];
    World(count, w.threads[i := Idle],
          w.held[i := if op.Inc? then h + 1 else if h > 0 then h - 1 else 0],
          w.log + [Entry(op, outcome)], outcome.Aborted?)
  }

  /** Thread i has read the count: it is done if there is nothing to exchange, and
      otherwise will try to. */
  function Observe(w: World, i: nat, op: Op): World
    requires i < |w.threads| == |w.held|
  {
    if op.Dec? && w.count == 0 then Effect(w, i, op, w.count, Aborted)
    else if w.count == REFCOUNT_MAX then Effect(w, i, op, w.count, Returned(false))
    else w.(threads := w.threads[i := Trying(op, w.count)])
  }

  /** A call starts by loading the count; an exchange succeeds if the count is still the
      expected one, unless it fails spuriously, and otherwise loads the count again. */
  function Next(w: World, s: Step): World
    requires |w.threads| == |w.held| && Enabled(w, s)
  {
    match s
    case Call(i, op) => Observe(w, i, op)
    case Exchange(i, spurious) =>
      var t := w.threads[i];
      if spurious || w.count != t.expected then Observe(w, i, t.op)
      else
        var value := if t.op.Inc? then t.expected + 1 else t.expected - 1;
        Effect(w, i, t.op, if value < 0 then 0 else value, Returned(t.op.Dec? && value == 0))
    case Pass(i, j) => w.(held := w.held[i := w.held[i] - 1][j := w.held[i := w.held[i] - 1][j] + 1])
  }

  /** Calls are made, and references passed on, only by threads that hold one. */
  predicate Enabled(w: World, s: Step) {
    && !w.aborted
    && match s
       case Call(i, _) => i < |w.threads| && i < |w.held| && w.threads[i].Idle? && w.held[i] > 0
       case Exchange(i, _) => i < |w.threads| && w.threads[i].Trying?
       case Pass(i, j) => i < |w.threads| && i < |w.held| && j < |w.held| && w.threads[i].Idle? && w.held[i] > 0
  }

  function Total(held: seq<nat>): nat {
    if |held| == 0 then 0 else held[0] + Total(held[1..])
  }

  lemma {:induction false} TotalUpdate(held: seq<nat>, i: nat, v: nat)
    requires i < |held|
    ensures Total(held[i := v]) == Total(held) - held[i] + v
  {
    if i == 0 {
      assert held[i := v][1..] == held[1..];
    } else {
      assert held[i := v][1..] == held[1..][i - 1 := v];
      TotalUpdate(held[1..], i - 1, v);
    }
  }

  lemma {:induction false} HoldsSome(held: seq<nat>, i: nat)
    requires i < |held|
    ensures Total(held) >= held[i]
  {
    if i > 0 {
      HoldsSome(held[1..], i - 1);
    }
  }

  /** The calls of the log, one after another under the lock: what the count comes to, if
      each call has the outcome it has in the log. */
  ghost function Replay(start: nat, log: seq<Entry>): (count: int)
    ensures count >= -1
  {
    if |log| == 0 then start
    else
      var before, last := Replay(start, log[..|log| - 1]), log[|log| - 1];
      if before < 0 || Locked(last.op, before).1 != last.outcome then -1 else Locked(last.op, before).0
  }

  function Zeros(log: seq<Entry>): nat {
    if |log| == 0 then 0
    else Zeros(log[..|log| - 1]) + (if log[|log| - 1].outcome == Returned(true) then 1 else 0)
  }

  /** The exchanging threads do what the locked calls would do in the order of the log;
      until the count saturates it is the number of references held, and zero has been
      reported exactly if nobody holds one. */
  ghost predicate Inv(start: nat, w: World) {
    && |w.threads| == |w.held| && w.count <= REFCOUNT_MAX && !w.aborted
    && Replay(start, w.log) == w.count
    && (w.count < REFCOUNT_MAX ==> w.count == Total(w.held))
    && Zeros(w.log) == (if w.count == 0 then 1 else 0)
    && (forall i | 0 <= i < |w.threads| && w.threads[i].Trying? :: w.held[i] > 0 && 0 < w.threads[i].expected < REFCOUNT_MAX)
  }

  lemma OneMoreEntry(start: nat, log: seq<Entry>, e: Entry)
    requires Replay(start, log) >= 0 && Locked(e.op, Replay(start, log)).1 == e.outcome
    ensures Replay(start, log + [e]) == Locked(e.op, Replay(start, log)).0
    ensures Zeros(log + [e]) == Zeros(log) + (if e.outcome == Returned(true) then 1 else 0)
  {
    assert (log + [e])[..|log|] == log;
  }

  /** A call that takes effect as under the lock keeps the invariant. */
  lemma EffectKeeps(start: nat, w: World, i: nat, op: Op, outcome: Outcome)
    requires Inv(start, w) && i < |w.threads| && w.held[i] > 0
    requires Locked(op, w.count).1 == outcome && !outcome.Aborted?
    ensures Inv(start, Effect(w, i, op, Locked(op, w.count).0, outcome))
  {
    OneMoreEntry(start, w.log, Entry(op, outcome));
    TotalUpdate(w.held, i, if op.Inc? then w.held[i] + 1 else w.held[i] - 1);
    HoldsSome(w.held, i);
  }

  lemma ObserveKeeps(start: nat, w: World, i: nat, op: Op)
    requires Inv(start, w) && i < |w.threads| && w.held[i] > 0
    ensures Inv(start, Observe(w, i, op))
  {
    HoldsSome(w.held, i);
    if w.count == REFCOUNT_MAX {
      EffectKeeps(start, w, i, op, Returned(false));
    }
  }

  lemma ExchangeKeeps(start: nat, w: World, i: nat, spurious: bool)
    requires Inv(start, w) && Enabled(w, Exchange(i, spurious))
    ensures Inv(start, Next(w, Exchange(i, spurious)))
  {
    var t := w.threads[i];
    hide Inv;
    TryingHolds(start, w, i);
    if spurious || w.count != t.expected {
      ObserveKeeps(start, w, i, t.op);
    } else {
      EffectKeeps(start, w, i, t.op, Locked(t.op, w.count).1);
    }
  }

  lemma TryingHolds(start: nat, w: World, i: nat)
    requires Inv(start, w) && i < |w.threads| && w.threads[i].Trying?
    ensures w.held[i] > 0 && 0 < w.threads[i].expected < REFCOUNT_MAX
  {
  }

  lemma PassKeeps(start: nat, w: World, i: nat, j: nat)
    requires Inv(start, w) && Enabled(w, Pass(i, j))
    ensures Inv(start, Next(w, Pass(i, j)))
  {
    hide Replay, Zeros;
    var given := w.held[i := w.held[i] - 1];
    TotalUpdate(w.held, i, w.held[i] - 1);
    TotalUpdate(given, j, given[j] + 1);
  }

  /** Every step of every thread keeps the invariant: no call aborts. */
  lemma StepKeeps(start: nat, w: World, s: Step)
    requires Inv(start, w) && Enabled(w, s)
    ensures Inv(start, Next(w, s))
  {
    hide Inv, Next;
    match s
    case Call(i, op) => CallKeeps(start, w, i, op);
    case Exchange(i, spurious) => ExchangeKeeps(start, w, i, spurious);
    case Pass(i, j) => PassKeeps(start, w, i, j);
  }

  lemma CallKeeps(start: nat, w: World, i: nat, op: Op)
    requires Inv(start, w) && Enabled(w, Call(i, op))
    ensures Inv(start, Next(w, Call(i, op)))
  {
    ObserveKeeps(start, w, i, op);
  }

  /** The end of a run. */
  ghost predicate Runs(w: World, steps: seq<Step>, end: World)
    decreases |steps|
  {
    if |steps| == 0 then end == w
    else |w.threads| == |w.held| && Enabled(w, steps[0]) && Runs(Next(w, steps[0]), steps[1..], end)
  }

  lemma {:induction false} RunKeeps(start: nat, w: World, steps: seq<Step>, end: World)
    requires Inv(start, w) && Runs(w, steps, end)
    ensures Inv(start, end)
    decreases |steps|
  {
    if |steps| > 0 {
      StepKeeps(start, w, steps[0]);
      RunKeeps(start, Next(w, steps[0]), steps[1..], end);
    }
  }

  predicate Begins(w: World) {
    && |w.threads| == |w.held| && !w.aborted && w.log == []
    && 0 < w.count == Total(w.held) < REFCOUNT_MAX
    && forall t <- w.threads :: t.Idle?
  }

  /** In every run of any number of threads, whatever exchanges fail: the calls refine
      the locked ones, none aborts, and zero is reported once, exactly when the last
      reference is dropped. */
  lemma BalancedRun(w: World, steps: seq<Step>, end: World)
    requires Begins(w) && Runs(w, steps, end)
    ensures !end.aborted && Replay(w.count, end.log) == end.count
    ensures end.count < REFCOUNT_MAX ==> end.count == Total(end.held)
    ensures Zeros(end.log) == (if end.count == 0 then 1 else 0)
  {
    assert forall i | 0 <= i < |w.threads| :: w.threads[i] in w.threads;
    RunKeeps(w.count, w, steps, end);
  }

  /** Once the count saturates it never changes, and zero is never reported. */
  lemma {:induction false} SaturationIsForever(start: nat, w: World, steps: seq<Step>, end: World)
    requires Inv(start, w) && w.count == REFCOUNT_MAX && Runs(w, steps, end)
    ensures end.count == REFCOUNT_MAX && Zeros(end.log) == 0
    decreases |steps|
  {
    if |steps| > 0 {
      StepKeeps(start, w, steps[0]);
      SaturationIsForever(start, Next(w, steps[0]), steps[1..], end);
    }
  }

  /** The count saturates only when that many references are held. */
  lemma SaturatesWhenFull(start: nat, w: World, s: Step)
    requires Inv(start, w) && Enabled(w, s) && w.count < REFCOUNT_MAX && Next(w, s).count == REFCOUNT_MAX
    ensures Total(Next(w, s).held) == REFCOUNT_MAX
  {
    hide Replay, Zeros;
    if s.Exchange? && !s.spurious && w.count == w.threads[s.i].expected {
      TotalUpdate(w.held, s.i, w.held[s.i] + 1);
    }
  }

  /** At every point of the run fewer references are held than the count can tell. */
  ghost predicate NeverFull(w: World, steps: seq<Step>)
    decreases |steps|
  {
    && Total(w.held) < REFCOUNT_MAX
    && (|steps| > 0 && |w.threads| == |w.held| && Enabled(w, steps[0]) ==> NeverFull(Next(w, steps[0]), steps[1..]))
  }

  /** In such a run the count is the number of references at every point. */
  lemma {:induction false} CountIsHeld(start: nat, w: World, steps: seq<Step>, end: World)
    requires Inv(start, w) && w.count < REFCOUNT_MAX && NeverFull(w, steps) && Runs(w, steps, end)
    ensures end.count == Total(end.held) < REFCOUNT_MAX
    decreases |steps|
  {
    if |steps| > 0 {
      var next := Next(w, steps[0]);
      StepKeeps(start, w, steps[0]);
      if next.count == REFCOUNT_MAX {
        SaturatesWhenFull(start, w, steps[0]);
      }
      CountIsHeld(start, next, steps[1..], end);
    }
  }

  /** An exchange that fails, but not spuriously, does so because another call has taken
      effect; a thread that is let run then takes at most one exchange more. */
  lemma AloneFinishes(start: nat, w: World, i: nat)
    requires Inv(start, w) && Enabled(w, Exchange(i, false))
    ensures var next := Next(w, Exchange(i, false));
            && (w.count == w.threads[i].expected ==> Finished(w, i, next))
            && (next.threads[i].Trying? ==>
                  Enabled(next, Exchange(i, false)) && Finished(next, i, Next(next, Exchange(i, false))))
  {
    hide Replay, Zeros;
    TryingHolds(start, w, i);
    ExchangeKeeps(start, w, i, false);
  }

  /** Thread i has finished the call it was in. */
  predicate Finished(w: World, i: nat, next: World) {
    i < |w.threads| == |next.threads| && w.threads[i].Trying? && next.threads[i].Idle? && |next.log| == |w.log| + 1
    && next.log[|w.log|].op == w.threads[i].op
  }

  /** The decrement that reports zero is the last call of the run: nobody is left who
      holds a reference, or is in a call. */
  lemma ZeroIsLast(start: nat, w: World, s: Step)
    requires Inv(start, w) && Zeros(w.log) > 0
    ensures !Enabled(w, s)
  {
    if s.Exchange? && s.i < |w.threads| && w.threads[s.i].Trying? {
      HoldsSome(w.held, s.i);
    }
    if !s.Exchange? && s.i < |w.held| {
      HoldsSome(w.held, s.i);
    }
  }

  /** Without the discipline, a decrement can find zero, and aborts. */
  lemma UnbalancedAborts()
    ensures Locked(Dec, 0).1 == Aborted
    ensures var w := World(0, [Idle], [0], [], false); Observe(w, 0, Dec).aborted
  {
  }
}
