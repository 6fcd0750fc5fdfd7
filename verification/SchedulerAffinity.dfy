/**
  Which threads a core may run.  What a core takes up is always admitted by its mask; only a thread
  that changes its own mask can be outside it, and it stays so exactly as long as no switch comes.
*/
module SchedulerAffinity {
  import opened BitWords
  import opened Common
  import opened ReadyQueues
  import opened SchedulerModel
  import opened SchedulerInvariant
  import opened SchedulerSteps

  /** After every run the threads in a core's queues and in its look-ahead slot may run there. */
  lemma HeldAdmitted(s: Sched, steps: seq<Step>, c: nat)
    requires Inv(s)
    requires c < |Run(s, steps).cores|
    ensures var r := Run(s, steps);
            && CanRun(r.threads, r.cores[c].next, c)
            && (forall p, i :: 0 <= p < 32 && 0 <= i < |r.cores[c].queues[p]| ==> CanRun(r.threads, r.cores[c].queues[p][i], c))
  {
    RunKeeps(s, steps);
    var r := Run(s, steps);
    hide Run, Queued, CanRun;
    assert CoreEligible(r.threads, r.cores[c], c);
    forall p, i | 0 <= p < 32 && 0 <= i < |r.cores[c].queues[p]|
      ensures CanRun(r.threads, r.cores[c].queues[p][i], c)
    {
      QueuedMember(r.cores[c].queues, p, r.cores[c].queues[p][i]);
    }
  }

  /** The current thread of the core may run there. */
  ghost predicate Admitted(s: Sched, c: nat)
    requires c < |s.cores|
  {
    CanRun(s.threads, s.cores[c].current, c)
  }

  /** What a step can do to the current thread of a core. */
  ghost predicate AdmittedAfter(s: Sched, r: Sched, c: nat)
    requires c < |s.cores|
  {
    && c < |r.cores|
    && (r.cores[c].current == s.cores[c].current ==> (Admitted(s, c) ==> Admitted(r, c)))
    && (r.cores[c].current != s.cores[c].current ==> Admitted(r, c))
  }

  lemma TickAdmits(s: Sched, d: nat, c: nat)
    requires c < |s.cores| && d < |s.cores| && InvDuring(s, d) && s.WellFormed()
    ensures AdmittedAfter(s, Tick(s, d), c)
  {
    hide Tick, Sched.WellFormed, InvDuring, Bit;
    TickMoves(s, d);
    CurrentsExist(s, c);
  }

  /** A tick changes no mask, and makes at most one thread current, which its core may run. */
  lemma TickMoves(s: Sched, d: nat)
    requires d < |s.cores| && InvDuring(s, d) && s.WellFormed()
    ensures var f := Tick(s, d);
            && |f.cores| == |s.cores|
            && (forall t :: t in s.threads ==> t in f.threads && f.threads[t].affinity == s.threads[t].affinity)
            && (forall c :: 0 <= c < |s.cores| && c != d ==> f.cores[c].current == s.cores[c].current)
            && (f.cores[d].current == s.cores[d].current || CanRun(f.threads, f.cores[d].current, d))
  {
    hide Tick, Prepare, SwitchToNext, InvDuring, Prepared, Sched.WellFormed, IdleThreads, Sorted, Eligible, Conserved,
         Currents, Bit, Queued;
    var p := Prepare(s, d);
    PrepareKeeps(s, d);
    PrepareWellFormed(s, d);
    OthersPrepared(s, d);
    PreparedParts(p, d);
    InvParts(p, d);
    InvParts(s, d);
    QuantumPositive(s);
    TickStays(s, d);
    SlotCanRun(p, d);
    SwitchFrame(p, d);
  }

  lemma QuantumPositive(s: Sched)
    requires IdleThreads(s)
    ensures s.quantum > 0
  {
  }

  lemma CurrentsExist(s: Sched, c: nat)
    requires c < |s.cores| && s.WellFormed()
    ensures s.cores[c].current in s.threads
  {
  }

  lemma OthersPrepared(s: Sched, d: nat)
    requires d < |s.cores| && s.WellFormed()
    ensures |Prepare(s, d).cores| == |s.cores|
    ensures forall c :: 0 <= c < |s.cores| ==> Prepare(s, d).cores[c].current == s.cores[c].current
  {
    hide FillNext;
    FillNextFrame(Zeroed(s, d), d);
  }

  /** The current thread of the core takes itself off its mask. */
  ghost predicate Excludes(step: Step, c: nat) {
    step.SetAffinity? && step.core == c && !Bit(step.mask, c)
  }

  lemma LeaveAdmits(s: Sched, d: nat, state: ThreadState, c: nat)
    requires Inv(s) && c < |s.cores| && d < |s.cores| && s.WellFormed() && s.cores[d].current != s.cores[d].idle
    requires state == Waiting || state == Terminated
    ensures AdmittedAfter(s, Leave(s, d, state), c)
  {
    hide Tick, Inv, InvDuring, Bit, Sched.WellFormed;
    CurrentsExist(s, c);
    CurrentsExist(s, d);
    var g := s.WithState(s.cores[d].current, state);
    GivingUpKeeps(s, d, state);
    InvParts(g, d);
    TickAdmits(g, d, c);
  }

  lemma OneCurrentEach(s: Sched, c: nat, d: nat)
    requires Inv(s) && c < |s.cores| && d < |s.cores|
    ensures s.cores[c].current == s.cores[d].current ==> c == d
  {
    hide IdleThreads, Sorted, Eligible, Conserved, Sched.WellFormed;
  }

  /** A step that makes another thread current makes one current that is admitted; only the thread itself can stop being so. */
  lemma StepAdmits(s: Sched, step: Step, c: nat)
    requires Inv(s) && c < |s.cores|
    ensures c < |Attempt(s, step).cores|
    ensures AdmittedAfter(s, Attempt(s, step), c)
            || (Excludes(step, c) && Attempt(s, step).cores[c].current == s.cores[c].current)
  {
    hide Inv, InvDuring, Tick, Bit, Leave, Sched.WellFormed;
    InvImplies(s);
    CurrentsExist(s, c);
    if Enabled(s, step) {
      match step {
        case Clock(d) =>
          NobodyLeaving(s, d);
          TickAdmits(s, d, c);
        case ShortTick(_) =>
        case Block(d) => LeaveAdmits(s, d, Waiting, c);
        case Exit(d) => LeaveAdmits(s, d, Terminated, c);
        case Wake(t) =>
        case Create(t, info) =>
        case SetAffinity(d, mask) => OneCurrentEach(s, c, d);
        case StartCore(t, quantumReset) =>
      }
    }
  }

  /** A core that has just come up runs its idle thread. */
  lemma NewCoreAdmits(s: Sched, step: Step, c: nat)
    requires Inv(s) && |s.cores| <= c < |Attempt(s, step).cores|
    ensures Admitted(Attempt(s, step), c)
  {
    hide Inv, InvDuring, Tick, Leave, Sched.WellFormed;
    InvImplies(s);
    SingleBit(c, c);
    hide Bit, Pow2;
    if s.WellFormed() && Enabled(s, step) && !step.StartCore? {
      SameNumber(s, step);
    }
  }

  lemma SameNumber(s: Sched, step: Step)
    requires Inv(s) && s.WellFormed() && Enabled(s, step) && !step.StartCore?
    ensures |After(s, step).cores| == |s.cores|
  {
    hide Inv, InvDuring, Tick, Sched.WellFormed, Bit;
    match step {
      case Clock(d) =>
        NobodyLeaving(s, d);
        TickMoves(s, d);
      case Block(d) =>
        CurrentsExist(s, d);
        GivingUpKeeps(s, d, Waiting);
        InvParts(s.WithState(s.cores[d].current, Waiting), d);
        TickMoves(s.WithState(s.cores[d].current, Waiting), d);
      case Exit(d) =>
        CurrentsExist(s, d);
        GivingUpKeeps(s, d, Terminated);
        InvParts(s.WithState(s.cores[d].current, Terminated), d);
        TickMoves(s.WithState(s.cores[d].current, Terminated), d);
      case _ =>
    }
  }

  // --- over runs

  lemma {:induction false} RunLast(s: Sched, steps: seq<Step>)
    requires steps != []
    ensures Run(s, steps) == Attempt(Run(s, steps[..|steps| - 1]), steps[|steps| - 1])
    decreases |steps|
  {
    hide Attempt;
    if |steps| == 1 {
      assert steps[..0] == [] && steps[1..] == [];
    } else {
      var s', rest := Attempt(s, steps[0]), steps[1..];
      RunLast(s', rest);
      assert steps[..|steps| - 1][0] == steps[0] && steps[..|steps| - 1][1..] == rest[..|rest| - 1];
    }
  }

  /** The current thread of the core after `j` steps; -1 before the core comes up. */
  ghost function CurrentAt(s: Sched, steps: seq<Step>, c: nat, j: nat): int {
    if j <= |steps| && c < |Run(s, steps[..j]).cores| then Run(s, steps[..j]).cores[c].current else -1
  }

  /** Step `i` took the current thread of the core off its mask, and the core has not switched since. */
  ghost predicate OutsideSince(s: Sched, steps: seq<Step>, c: nat, i: nat) {
    && i < |steps| && Excludes(steps[i], c)
    && forall j :: i <= j <= |steps| ==> CurrentAt(s, steps, c, j) == CurrentAt(s, steps, c, |steps|) != -1
  }

  /** The current thread of the core is admitted, or has been outside its mask ever since it changed the mask itself. */
  ghost predicate Accounted(s: Sched, steps: seq<Step>, c: nat)
    requires c < |Run(s, steps).cores|
  {
    Admitted(Run(s, steps), c) || exists i :: OutsideSince(s, steps, c, i)
  }

  lemma PrefixCurrents(s: Sched, steps: seq<Step>, c: nat, j: nat)
    requires steps != [] && j < |steps|
    ensures CurrentAt(s, steps, c, j) == CurrentAt(s, steps[..|steps| - 1], c, j)
  {
    hide Run;
    assert steps[..|steps| - 1][..j] == steps[..j];
  }

  /** A thread stays outside its mask as long as the core keeps it. */
  lemma OutsideStill(s: Sched, steps: seq<Step>, c: nat, i: nat)
    requires steps != [] && OutsideSince(s, steps[..|steps| - 1], c, i)
    requires CurrentAt(s, steps, c, |steps|) == CurrentAt(s, steps, c, |steps| - 1) != -1
    ensures OutsideSince(s, steps, c, i)
  {
    hide CurrentAt, Excludes;
    var n := |steps| - 1;
    assert steps[..n][i] == steps[i];
    forall j | i <= j <= n + 1
      ensures CurrentAt(s, steps, c, j) == CurrentAt(s, steps, c, n + 1)
    {
      PrefixCurrents(s, steps, c, n);
      if j <= n {
        PrefixCurrents(s, steps, c, j);
      }
    }
  }

  lemma WholeRun(s: Sched, steps: seq<Step>, c: nat)
    ensures c < |Run(s, steps).cores| ==> CurrentAt(s, steps, c, |steps|) == Run(s, steps).cores[c].current
    ensures steps != [] && c < |Run(s, steps[..|steps| - 1]).cores| ==>
              CurrentAt(s, steps, c, |steps| - 1) == Run(s, steps[..|steps| - 1]).cores[c].current
  {
    hide Run;
    assert steps[..|steps|] == steps;
  }

  lemma LastStep(s: Sched, steps: seq<Step>, c: nat, before: Sched)
    requires steps != [] && before == Run(s, steps[..|steps| - 1]) && Inv(before) && c < |before.cores|
    requires Run(s, steps) == Attempt(before, steps[|steps| - 1])
    requires Accounted(s, steps[..|steps| - 1], c)
    ensures c < |Run(s, steps).cores| && Accounted(s, steps, c)
  {
    hide Inv, Run, Attempt, CanRun, Excludes, CurrentAt;
    var n := |steps| - 1;
    var r := Run(s, steps);
    StepAdmits(before, steps[n], c);
    WholeRun(s, steps, c);
    if !Admitted(r, c) {
      if Admitted(before, c) {
        assert OutsideSince(s, steps, c, n);
      } else {
        var i :| OutsideSince(s, steps[..n], c, i);
        OutsideStill(s, steps, c, i);
      }
    }
  }

  /**
    No core runs a thread outside its mask but one that took itself off the mask while it ran
    there, and only as long as the core has not switched since.  In particular, in a run in which
    nobody does that, no core ever runs a thread outside its mask.
  */
  lemma {:induction false} AffinityRespected(s: Sched, steps: seq<Step>, c: nat)
    requires Inv(s) && forall d :: 0 <= d < |s.cores| ==> Admitted(s, d)
    requires c < |Run(s, steps).cores|
    ensures Accounted(s, steps, c)
    ensures (forall i :: 0 <= i < |steps| ==> !Excludes(steps[i], c)) ==> Admitted(Run(s, steps), c)
    decreases |steps|
  {
    hide Inv, Admitted, Excludes, Attempt, CurrentAt;
    if steps != [] {
      var n := |steps| - 1;
      var before := Run(s, steps[..n]);
      RunLast(s, steps);
      RunKeeps(s, steps[..n]);
      if c < |before.cores| {
        AffinityRespected(s, steps[..n], c);
        LastStep(s, steps, c, before);
      } else {
        NewCoreAdmits(before, steps[n], c);
      }
    }
  }

  // --- when a thread outside its mask is moved

  /** The thread that the next tick of the core has in its slot. */
  function NextFor(s: Sched, c: nat): ThreadId
    requires c < |s.cores|
  {
    if s.cores[c].next != s.cores[c].idle then s.cores[c].next else Select(s, c).thread
  }

  /** There is time left, or nobody waits that may preempt the current thread. */
  predicate Keeps(s: Sched, c: nat)
    requires c < |s.cores| && s.cores[c].current in s.threads && NextFor(s, c) in s.threads
  {
    || s.cores[c].cyclesLeft >= s.quantum || NextFor(s, c) == s.cores[c].idle
    || s.threads[s.cores[c].current].priority > s.threads[NextFor(s, c)].priority
  }

  lemma CurrentRuns(s: Sched, c: nat)
    requires c < |s.cores| && s.WellFormed() && Currents(s, -1) && s.cores[c].current != s.cores[c].idle
    ensures s.cores[c].current in s.threads && s.threads[s.cores[c].current].state == Running
    ensures Zeroed(s, c) == s
  {
  }

  lemma PreparedSlot(s: Sched, c: nat)
    requires Inv(s) && c < |s.cores| && s.WellFormed() && s.cores[c].current != s.cores[c].idle
    ensures var p := Prepare(s, c);
            && SameCurrent(s, p, c) && p.WellFormed() && p.cores[c].next == NextFor(s, c)
            && p.cores[c].cyclesLeft == s.cores[c].cyclesLeft
    ensures s.cores[c].current in s.threads && s.threads[s.cores[c].current].state == Running
    ensures CanRun(s.threads, NextFor(s, c), c)
  {
    hide Inv, InvDuring, Prepare, Select, FillNext, Zeroed, Sched.WellFormed, Bit;
    InvImplies(s);
    NobodyLeaving(s, c);
    InvParts(s, -1);
    PrepareKeeps(s, c);
    PrepareCases(s, c);
    PrepareWellFormed(s, c);
    PreparedParts(Prepare(s, c), c);
    InvParts(Prepare(s, c), c);
    SlotCanRun(Prepare(s, c), c);
    CurrentRuns(s, c);
    FillNextFrame(s, c);
    FallbackIsIdle(s, c);
  }

  /**
    A tick takes a running thread off its core exactly when its quantum is used up and another
    thread that may preempt it is waiting; the thread is then queued for the cores that it may use.
    So the tick that a change of the mask forces moves a thread off a core it may no longer use only
    in this case.
  */
  lemma MovedExactly(s: Sched, c: nat)
    requires Inv(s) && c < |s.cores| && s.WellFormed() && s.cores[c].current != s.cores[c].idle
    ensures NextFor(s, c) in s.threads && s.cores[c].current in s.threads && |Tick(s, c).cores| == |s.cores|
    ensures Tick(s, c).cores[c].current == s.cores[c].current <==> Keeps(s, c)
    ensures !Keeps(s, c) ==>
              && Tick(s, c).cores[c].current == NextFor(s, c)
              && s.cores[c].current in Tick(s, c).threads && Tick(s, c).threads[s.cores[c].current].state == Ready
  {
    hide Inv, InvDuring, Prepare, Select, SwitchToNext, NextFor, Sched.WellFormed, Bit, Prepared;
    PreparedSlot(s, c);
    NobodyLeaving(s, c);
    PrepareKeeps(s, c);
    SlotIsAnother(Prepare(s, c), c);
    SwitchFrame(Prepare(s, c), c);
  }

  /** A running thread is not in the slot. */
  lemma SlotIsAnother(p: Sched, c: nat)
    requires Prepared(p, c) && p.WellFormed() && p.cores[c].current != p.cores[c].idle
    ensures p.cores[c].next != p.cores[c].current
  {
    PairFacts(p, c);
  }
}
