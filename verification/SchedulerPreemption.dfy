/**
  Bounded preemption: how many ticks of its core a thread in the look-ahead slot can be kept
  waiting by a running thread of no higher priority, whatever the other cores do meanwhile.
*/
module SchedulerPreemption {
  import opened Common
  import opened SchedulerModel
  import opened SchedulerInvariant
  import opened SchedulerSteps
  import opened SchedulerResults

  /** The slot of core `c` holds a thread that may preempt the thread the core is running. */
  ghost predicate Pending(s: Sched, c: nat, t: ThreadId) {
    && c < |s.cores| && s.WellFormed()
    && s.cores[c].next == t != s.cores[c].idle
    && s.threads[s.cores[c].current].state == Running
    && s.threads[t].priority >= s.threads[s.cores[c].current].priority
  }

  /** What is left of the quantum lasts for `k` more ticks. */
  predicate LastsFor(s: Sched, c: nat, k: nat)
    requires c < |s.cores|
  {
    && s.cores[c].cyclesLeft < (k + 1) * s.quantum
    && (k > 0 ==> k * s.quantum <= s.cores[c].cyclesLeft)
  }

  lemma LastsForQuotient(s: Sched, c: nat)
    requires c < |s.cores| && s.quantum > 0
    ensures s.cores[c].cyclesLeft < s.quantum ==> LastsFor(s, c, 0)
    ensures s.cores[c].cyclesLeft >= s.quantum ==>
              s.cores[c].cyclesLeft / s.quantum > 0 && LastsFor(s, c, s.cores[c].cyclesLeft / s.quantum)
  {
    var x, q := s.cores[c].cyclesLeft, s.quantum;
    var d := x / q;
    assert x == d * q + x % q;
    assert (d + 1) * q == d * q + q;
    QuotientPositive(x, q);
  }

  lemma QuotientPositive(x: int, q: int)
    requires 0 < q
    ensures x >= q ==> x / q >= 1
  {
    assert x == (x / q) * q + x % q;
  }

  /** Core `c` is not made to switch by its own thread. */
  predicate Undisturbed(step: Step, c: nat) {
    step != Block(c) && step != Exit(c)
  }

  function TickCount(steps: seq<Step>, c: nat): nat {
    if steps == [] then 0 else (if steps[0] == Clock(c) then 1 else 0) + TickCount(steps[1..], c)
  }

  /** A tick of the core either completes the wait or brings it one tick closer. */
  lemma OwnTick(s: Sched, c: nat, t: ThreadId, k: nat)
    requires Inv(s) && c < |s.cores| && s.WellFormed() && Pending(s, c, t) && LastsFor(s, c, k)
    ensures var f := Tick(s, c);
            && |f.cores| == |s.cores|
            && (if k == 0 then f.cores[c].current == t else Pending(f, c, t) && LastsFor(f, c, k - 1))
  {
    hide *;
    LastsForMeans(s, c, k);
    OneTickLess(s.cores[c].cyclesLeft, s.quantum, k);
    var f := Tick(s, c);
    if k == 0 {
      PendingSwitch(s, c, t);
    } else {
      PendingStay(s, c, t);
      LastsForMeans(f, c, k - 1);
    }
  }

  lemma LastsForMeans(s: Sched, c: nat, k: nat)
    requires c < |s.cores|
    ensures LastsFor(s, c, k) <==>
            && s.cores[c].cyclesLeft < (k + 1) * s.quantum
            && (k > 0 ==> k * s.quantum <= s.cores[c].cyclesLeft)
  {}

  lemma OneTickLess(x: int, q: nat, k: nat)
    requires x < (k + 1) * q && (k > 0 ==> k * q <= x)
    ensures k == 0 ==> x < q
    ensures k > 0 ==> x >= q && x - q < k * q && (k - 1 > 0 ==> (k - 1) * q <= x - q)
  {
    assert (k + 1) * q == k * q + q;
    if k > 0 {
      assert k * q == (k - 1) * q + q && (k - 1) * q >= 0;
    }
  }

  lemma PendingSwitch(s: Sched, c: nat, t: ThreadId)
    requires Inv(s) && Pending(s, c, t) && s.cores[c].cyclesLeft < s.quantum
    ensures |Tick(s, c).cores| == |s.cores| && Tick(s, c).cores[c].current == t
  {
    hide Inv, InvDuring, Tick, SwitchToNext;
    InvImplies(s);
    InvParts(s, -1);
    PendingTick(s, c, t);
    hide IdleThreads, Sorted, Eligible, Conserved, Currents;
    SwitchFrame(s, c);
  }

  lemma PendingStay(s: Sched, c: nat, t: ThreadId)
    requires Inv(s) && Pending(s, c, t) && s.cores[c].cyclesLeft >= s.quantum
    ensures var f := Tick(s, c);
            && |f.cores| == |s.cores| && Pending(f, c, t) && f.quantum == s.quantum
            && f.cores[c].cyclesLeft == s.cores[c].cyclesLeft - s.quantum
  {
    hide Inv, InvDuring, Tick, SwitchToNext;
    TickKeepsInv(s, c);
    InvImplies(s);
    InvParts(s, -1);
    PendingTick(s, c, t);
    hide IdleThreads, Sorted, Eligible, Conserved, Currents, Sched.WellFormed;
  }

  lemma PendingTick(s: Sched, c: nat, t: ThreadId)
    requires s.WellFormed() && Conserved(s) && Pending(s, c, t)
    ensures var left := s.cores[c].cyclesLeft - s.quantum;
            Tick(s, c) == if s.cores[c].cyclesLeft < s.quantum then SwitchToNext(s, c)
                          else s.WithCore(c, s.cores[c].(cyclesLeft := left))
  {
    hide Conserved, FillNext;
    SlotIsReady(s, c);
    assert Prepare(s, c) == s;
    hide SwitchToNext, Prepare, Sched.WellFormed;
  }

  lemma TickKeepsInv(s: Sched, c: nat)
    requires Inv(s) && c < |s.cores|
    ensures s.WellFormed() && Inv(Tick(s, c)) && Tick(s, c).WellFormed()
  {
    hide *;
    InvImplies(s);
    NobodyLeaving(s, c);
    TickKeeps(s, c);
    InvImplies(Tick(s, c));
  }

  // --- the other steps

  /** The thread a tick would switch to. */
  function NextUp(s: Sched, d: nat): ThreadId
    requires d < |s.cores| && s.WellFormed()
  {
    PrepareWellFormed(s, d);
    Prepare(s, d).cores[d].next
  }

  /** A tick of one core touches no other core, and no thread but the two it switches between. */
  lemma TickFrame(s: Sched, d: nat)
    requires d < |s.cores| && s.WellFormed() && InvDuring(s, d)
    ensures var f := Tick(s, d);
            var n := NextUp(s, d);
            && |f.cores| == |s.cores| && f.quantum == s.quantum && f.threads.Keys == s.threads.Keys
            && (forall c :: 0 <= c < |s.cores| && c != d ==> f.cores[c] == s.cores[c])
            && (forall t :: t in s.threads && t != s.cores[d].current && t != n ==> f.threads[t] == s.threads[t])
            && (forall t :: t in s.threads ==> f.threads[t].priority == s.threads[t].priority)
  {
    hide *;
    InvParts(s, d);
    PrepareKeeps(s, d);
    PrepareFrame(s, d);
    TickCases(s, d);
    NextUpIs(s, d);
    TickFrameOf(s, Prepare(s, d), Tick(s, d), d);
  }

  lemma NextUpIs(s: Sched, d: nat)
    requires d < |s.cores| && s.WellFormed() && |Prepare(s, d).cores| == |s.cores|
    ensures NextUp(s, d) == Prepare(s, d).cores[d].next
  {
    hide Prepare;
  }

  lemma TickFrameOf(s: Sched, p: Sched, f: Sched, d: nat)
    requires d < |s.cores| && s.WellFormed() && SameCurrent(s, p, d) && p.WellFormed()
    requires forall c :: 0 <= c < |s.cores| && c != d ==> p.cores[c] == s.cores[c]
    requires f == SwitchToNext(p, d)
             || (&& |f.cores| == |p.cores| && f.threads == p.threads && f.quantum == p.quantum
                 && (forall c :: 0 <= c < |p.cores| && c != d ==> f.cores[c] == p.cores[c]))
    ensures |f.cores| == |s.cores| && f.quantum == s.quantum && f.threads.Keys == s.threads.Keys
    ensures forall c :: 0 <= c < |s.cores| && c != d ==> f.cores[c] == s.cores[c]
    ensures forall t :: t in s.threads && t != s.cores[d].current && t != p.cores[d].next ==>
              f.threads[t] == s.threads[t]
    ensures forall t :: t in s.threads ==> f.threads[t].priority == s.threads[t].priority
  {
    SwitchFrame(p, d);
    hide SwitchToNext, Sched.WellFormed;
  }

  lemma TickCases(s: Sched, d: nat)
    requires d < |s.cores| && s.WellFormed() && InvDuring(s, d) && Prepare(s, d).WellFormed()
    requires |Prepare(s, d).cores| == |s.cores|
    ensures var p := Prepare(s, d);
            var f := Tick(s, d);
            f == SwitchToNext(p, d)
            || (&& |f.cores| == |p.cores| && f.threads == p.threads && f.quantum == p.quantum
                && (forall c :: 0 <= c < |p.cores| && c != d ==> f.cores[c] == p.cores[c]))
  {
    hide Tick, Prepare, SwitchToNext, InvDuring, Prepared;
    PrepareKeeps(s, d);
    InvParts(s, d);
    hide Sorted, Eligible, Conserved, Currents, Sched.WellFormed;
    TickStays(s, d);
  }

  lemma PrepareFrame(s: Sched, d: nat)
    requires d < |s.cores| && s.WellFormed()
    ensures var p := Prepare(s, d);
            && p.WellFormed() && |p.cores| == |s.cores| && p.quantum == s.quantum
            && (forall c :: 0 <= c < |s.cores| && c != d ==> p.cores[c] == s.cores[c])
  {
    PrepareWellFormed(s, d);
    hide FillNext;
    FillNextFrame(Zeroed(s, d), d);
  }

  /** A thread waiting in one core's slot is not in another's. */
  lemma SlotsDiffer(s: Sched, c: nat, d: nat)
    requires c < |s.cores| && d < |s.cores| && c != d && s.WellFormed() && Conserved(s)
    requires s.cores[c].next != s.cores[c].idle && s.cores[d].next != s.cores[d].idle
    ensures s.cores[c].next != s.cores[d].next
  {
    if s.cores[c].next == s.cores[d].next {
      TwoPlacesCount(s, InSlot(c), InSlot(d), s.cores[c].next);
    }
  }

  /** Ticking another core, even one whose thread has just given up, leaves a pending switch pending. */
  lemma OtherTick(s: Sched, c: nat, d: nat, t: ThreadId, k: nat)
    requires d < |s.cores| && d != c && InvDuring(s, d) && Pending(s, c, t) && LastsFor(s, c, k)
    ensures Pending(Tick(s, d), c, t) && LastsFor(Tick(s, d), c, k)
  {
    TickFrame(s, d);
    TickKeeps(s, d);
    PrepareKeeps(s, d);
    PrepareFrame(s, d);
    var p := Prepare(s, d);
    NotInvolved(s, p, c, d, t);
    NextUpIs(s, d);
    hide NextUp, Prepare, Tick, InvDuring, Inv, Prepared;
    InvImplies(Tick(s, d));
    hide Sched.WellFormed;
    assert s.cores[c].current in s.threads && t in s.threads;
  }

  /** Neither the pending thread nor the running thread of core `c` is one that core `d` switches between. */
  lemma NotInvolved(s: Sched, p: Sched, c: nat, d: nat, t: ThreadId)
    requires d < |s.cores| && d != c && InvDuring(s, d) && Pending(s, c, t)
    requires Prepared(p, d) && SameCurrent(s, p, d) && p.cores[c] == s.cores[c]
    ensures s.cores[c].current in s.threads && t in s.threads
    ensures t != s.cores[d].current && s.cores[c].current != s.cores[d].current
    ensures t != p.cores[d].next && s.cores[c].current != p.cores[d].next
  {
    hide InvDuring, Prepared, Pending;
    PendingParts(s, c, t);
    PreparedParts(p, d);
    InvParts(s, d);
    InvParts(p, d);
    hide IdleThreads, Sorted, Eligible, Conserved, Currents, Sched.WellFormed;
    CurrentsDiffer(s, c, d, t);
    SlotNotInvolved(p, c, d, t);
  }

  lemma PendingParts(s: Sched, c: nat, t: ThreadId)
    requires Pending(s, c, t)
    ensures c < |s.cores| && s.WellFormed() && s.cores[c].next == t && t != s.cores[c].idle
    ensures s.cores[c].current in s.threads && t in s.threads
    ensures s.threads[s.cores[c].current].state == Running
  {}

  lemma CurrentsDiffer(s: Sched, c: nat, d: nat, t: ThreadId)
    requires c < |s.cores| && d < |s.cores| && c != d
    requires s.WellFormed() && IdleThreads(s) && Eligible(s) && Conserved(s) && Currents(s, d)
    requires s.cores[c].next == t && t != s.cores[c].idle
    ensures t != s.cores[d].current && s.cores[c].current != s.cores[d].current
  {
    SlotIsReady(s, c);
    IdleStaysHome(s, d, c);
    hide Eligible, Conserved;
  }

  lemma SlotNotInvolved(s: Sched, c: nat, d: nat, t: ThreadId)
    requires c < |s.cores| && d < |s.cores| && c != d
    requires s.WellFormed() && IdleThreads(s) && Eligible(s) && Conserved(s)
    requires s.cores[c].next == t && t != s.cores[c].idle
    requires s.threads[s.cores[c].current].state == Running
    ensures t != s.cores[d].next && s.cores[c].current != s.cores[d].next
  {
    IdleStaysHome(s, d, c);
    if s.cores[d].next != s.cores[d].idle {
      SlotsDiffer(s, c, d);
      SlotIsReady(s, d);
    }
  }

  /** A step that only changes the states of threads not involved, or adds to the queues, changes nothing for core `c`. */
  lemma Unaffected(s: Sched, f: Sched, c: nat, t: ThreadId, k: nat)
    requires Pending(s, c, t) && LastsFor(s, c, k) && f.WellFormed()
    requires |f.cores| >= |s.cores| && f.cores[c] == s.cores[c] && f.quantum == s.quantum
    requires t in f.threads && f.threads[t] == s.threads[t].(affinity := f.threads[t].affinity)
    requires var u := s.cores[c].current; u in f.threads && f.threads[u] == s.threads[u].(affinity := f.threads[u].affinity)
    ensures Pending(f, c, t) && LastsFor(f, c, k)
  {
    hide Sched.WellFormed;
  }

  lemma OtherLeaves(s: Sched, c: nat, d: nat, state: ThreadState, t: ThreadId, k: nat)
    requires Inv(s) && Pending(s, c, t) && LastsFor(s, c, k) && d < |s.cores| && d != c
    requires s.cores[d].current != s.cores[d].idle && (state == Waiting || state == Terminated)
    ensures var f := Leave(s, d, state); Pending(f, c, t) && LastsFor(f, c, k)
  {
    hide InvDuring, Inv, Pending, LastsFor;
    InvImplies(s);
    PendingParts(s, c, t);
    GivingUpKeeps(s, d, state);
    var g := s.WithState(s.cores[d].current, state);
    NotCurrent(s, c, d, t);
    Unaffected(s, g, c, t, k);
    OtherTick(g, c, d, t, k);
  }

  lemma NotCurrent(s: Sched, c: nat, d: nat, t: ThreadId)
    requires Inv(s) && Pending(s, c, t) && d < |s.cores| && d != c
    ensures t != s.cores[d].current && s.cores[c].current != s.cores[d].current
  {
    hide Inv, InvDuring, Pending;
    NobodyLeaving(s, d);
    PendingParts(s, c, t);
    InvParts(s, d);
    hide *;
    CurrentsDiffer(s, c, d, t);
  }

  /** Every step but a tick of the core, or its own thread giving up, leaves a pending switch pending. */
  lemma OtherStepPending(s: Sched, step: Step, c: nat, t: ThreadId, k: nat)
    requires Inv(s) && c < |s.cores| && s.WellFormed() && Pending(s, c, t) && LastsFor(s, c, k)
    requires Undisturbed(step, c) && step != Clock(c)
    ensures Pending(Attempt(s, step), c, t) && LastsFor(Attempt(s, step), c, k)
  {
    hide Inv, InvDuring, Pending, LastsFor, Tick, Leave, Sched.WellFormed;
    InvImplies(s);
    PendingParts(s, c, t);
    if Enabled(s, step) {
      StepKeeps(s, step);
      InvImplies(After(s, step));
      match step {
        case Clock(d) =>
          NobodyLeaving(s, d);
          OtherTick(s, c, d, t, k);
        case ShortTick(_) =>
        case Block(d) => OtherLeaves(s, c, d, Waiting, t, k);
        case Exit(d) => OtherLeaves(s, c, d, Terminated, t, k);
        case Wake(u) =>
          PendingIsReady(s, c, t);
          Unaffected(s, After(s, step), c, t, k);
        case Create(u, info) => Unaffected(s, After(s, step), c, t, k);
        case SetAffinity(d, mask) => Unaffected(s, After(s, step), c, t, k);
        case StartCore(u, quantumReset) => Unaffected(s, After(s, step), c, t, k);
      }
    }
  }

  lemma PendingIsReady(s: Sched, c: nat, t: ThreadId)
    requires Inv(s) && Pending(s, c, t)
    ensures t in s.threads && s.threads[t].state == Ready
  {
    SlotIsReady(s, c);
  }

  // --- the bound

  lemma {:induction false} CurrentAfterTicks(s: Sched, steps: seq<Step>, c: nat, t: ThreadId, k: nat)
    requires Inv(s) && c < |s.cores| && s.WellFormed() && Pending(s, c, t) && LastsFor(s, c, k)
    requires forall i :: 0 <= i < |steps| ==> Undisturbed(steps[i], c)
    requires steps != [] && steps[|steps| - 1] == Clock(c) && TickCount(steps, c) == k + 1
    ensures c < |Run(s, steps).cores| && Run(s, steps).cores[c].current == t
    decreases |steps|
  {
    hide Inv, InvDuring, Pending, LastsFor, Attempt, Tick, Sched.WellFormed;
    var first, rest := steps[0], steps[1..];
    var s' := Attempt(s, first);
    AttemptKeeps(s, first);
    assert Run(s, steps) == Run(s', rest);
    if first == Clock(c) {
      OwnTick(s, c, t, k);
      AttemptTick(s, c, t);
      InvImplies(s');
      if rest == [] {
        assert TickCount(rest, c) == 0;
        assert Run(s', rest) == s';
      } else {
        LastTickCounts(rest, c);
        CurrentAfterTicks(s', rest, c, t, k - 1);
      }
    } else {
      OtherStepPending(s, first, c, t, k);
      PendingParts(s', c, t);
      CurrentAfterTicks(s', rest, c, t, k);
    }
  }

  lemma AttemptTick(s: Sched, c: nat, t: ThreadId)
    requires Inv(s) && Pending(s, c, t)
    ensures Attempt(s, Clock(c)) == Tick(s, c)
  {
    hide Tick;
  }

  lemma {:induction false} LastTickCounts(steps: seq<Step>, c: nat)
    requires steps != [] && steps[|steps| - 1] == Clock(c)
    ensures TickCount(steps, c) >= 1
  {
    if |steps| > 1 {
      LastTickCounts(steps[1..], c);
    }
  }

  /** The number of ticks of its core that the thread in the slot can be kept waiting. */
  function TickBound(s: Sched, c: nat): nat
    requires c < |s.cores| && s.quantum > 0
  {
    if s.cores[c].cyclesLeft < s.quantum then 1 else s.cores[c].cyclesLeft / s.quantum + 1
  }

  /**
    In every run in which the core's own thread does not give up and the core's ticks are not
    cut short, whatever the other cores do, the thread in the look-ahead slot is current after
    exactly `TickBound` ticks of the core.
  */
  lemma BoundedPreemption(s: Sched, steps: seq<Step>, c: nat, t: ThreadId)
    requires Inv(s) && c < |s.cores| && s.WellFormed() && s.quantum > 0 && Pending(s, c, t)
    requires forall i :: 0 <= i < |steps| ==> Undisturbed(steps[i], c)
    requires steps != [] && steps[|steps| - 1] == Clock(c) && TickCount(steps, c) == TickBound(s, c)
    ensures c < |Run(s, steps).cores| && Run(s, steps).cores[c].current == t
  {
    hide Inv, Pending, Sched.WellFormed;
    LastsForQuotient(s, c);
    CurrentAfterTicks(s, steps, c, t, TickBound(s, c) - 1);
  }

  lemma ResetLasts(s: Sched, c: nat, reset: nat)
    requires c < |s.cores| && s.quantum > 0 && s.cores[c].cyclesLeft == reset * s.quantum
    ensures LastsFor(s, c, reset)
  {
    assert (reset + 1) * s.quantum == reset * s.quantum + s.quantum;
  }

  /** Right after a reset of the quantum that takes QuantumReset + 1 ticks. */
  lemma BoundAfterReset(s: Sched, steps: seq<Step>, c: nat, t: ThreadId, reset: nat)
    requires Inv(s) && c < |s.cores| && s.WellFormed() && s.quantum > 0 && Pending(s, c, t) && s.cores[c].cyclesLeft == reset * s.quantum
    requires forall i :: 0 <= i < |steps| ==> Undisturbed(steps[i], c)
    requires steps != [] && steps[|steps| - 1] == Clock(c) && TickCount(steps, c) == reset + 1
    ensures c < |Run(s, steps).cores| && Run(s, steps).cores[c].current == t
  {
    hide *;
    ResetLasts(s, c, reset);
    CurrentAfterTicks(s, steps, c, t, reset);
  }
}
