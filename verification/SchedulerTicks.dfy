/**
  What a clock tick does in full: when it counts down, when it fills the look-ahead slot, when it
  switches, and what becomes of a core that has nothing to run but its idle thread.
*/
module SchedulerTicks {
  import opened Common
  import opened ReadyQueues
  import opened SchedulerModel
  import opened SchedulerInvariant
  import opened SchedulerSteps

  // --- the quantum

  /** What is left of the quantum when a tick begins. */
  function TimeLeft(s: Sched, c: nat): int
    requires c < |s.cores| && s.cores[c].current in s.threads
  {
    if s.threads[s.cores[c].current].state == Running then s.cores[c].cyclesLeft else 0
  }

  /**
    A tick counts one quantum down as long as there is one; after that the thread that has the core
    then, be it the same or another, has its own number of quanta in full.
  */
  lemma QuantumExactly(s: Sched, c: nat)
    requires c < |s.cores| && InvDuring(s, c) && s.WellFormed()
    ensures var r := Tick(s, c);
      && |r.cores| == |s.cores| && r.cores[c].current in r.threads && s.cores[c].current in s.threads
      && (TimeLeft(s, c) >= s.quantum ==>
           r.cores[c].current == s.cores[c].current && r.cores[c].cyclesLeft == TimeLeft(s, c) - s.quantum)
      && (TimeLeft(s, c) < s.quantum ==>
           r.cores[c].cyclesLeft == r.threads[r.cores[c].current].quantumReset * s.quantum)
  {
    hide InvDuring, FillNext, SwitchToNext, Sched.WellFormed, Prepared;
    InvParts(s, c);
    QuantumIs(s);
    CurrentKnown(s, c);
    PrepareWellFormed(s, c);
    PreparedCycles(s, c);
    var p := Prepare(s, c);
    CurrentKnown(p, c);
    SwitchFrame(p, c);
  }

  lemma QuantumIs(s: Sched)
    requires IdleThreads(s)
    ensures s.quantum > 0
  {
  }

  lemma CurrentKnown(s: Sched, c: nat)
    requires c < |s.cores| && s.WellFormed()
    ensures s.cores[c].current in s.threads && s.cores[c].next in s.threads
  {
  }

  lemma PreparedCycles(s: Sched, c: nat)
    requires c < |s.cores| && s.WellFormed()
    ensures s.cores[c].current in s.threads
    ensures var p := Prepare(s, c);
      && |p.cores| == |s.cores| && p.quantum == s.quantum && p.threads == s.threads
      && p.cores[c].current == s.cores[c].current && p.cores[c].cyclesLeft == TimeLeft(s, c)
  {
    hide FillNext;
    FillNextFrame(Zeroed(s, c), c);
  }
  // --- when a tick fills the slot and when it switches

  /** The thread in the slot, if any, could not run. */
  predicate SlotEmpty(s: Sched, c: nat)
    requires c < |s.cores| && s.WellFormed()
  {
    s.cores[c].next == s.cores[c].idle || s.threads[s.cores[c].next].state != Ready
  }

  /**
    The current thread makes room for the one in the slot: it has no quantum left or has ended, and
    if it still runs it has no higher priority and is not taken off for the idle thread.
  */
  predicate GivesWay(s: Sched, c: nat, next: ThreadId)
    requires c < |s.cores| && s.cores[c].current in s.threads && next in s.threads
  {
    var thread := s.threads[s.cores[c].current];
    && (TimeLeft(s, c) < s.quantum || thread.state == Terminated)
    && (thread.state == Running && s.cores[c].current != s.cores[c].idle ==> next != s.cores[c].idle)
    && (thread.state == Running ==> thread.priority <= s.threads[next].priority)
  }

  /**
    In any state a tick fills the slot exactly when it is empty, and then switches exactly when the
    current thread gives way; otherwise it changes no thread, no queue and no slot.
  */
  lemma TickExactly(s: Sched, c: nat)
    requires c < |s.cores| && s.WellFormed()
    ensures var p := Prepare(s, c);
      && p.WellFormed() && |p.cores| == |s.cores| && s.cores[c].current in s.threads && p.cores[c].next in s.threads
      && (if SlotEmpty(s, c) then p == FillNext(Zeroed(s, c), c)
          else p == s.WithCore(c, s.cores[c].(cyclesLeft := TimeLeft(s, c))))
      && (if GivesWay(s, c, p.cores[c].next) then Tick(s, c) == SwitchToNext(p, c)
          else |Tick(s, c).cores| == |s.cores| && Tick(s, c) == p.WithCore(c, p.cores[c].(cyclesLeft := Tick(s, c).cores[c].cyclesLeft)))
  {
    hide FillNext, SwitchToNext, Sched.WellFormed;
    CurrentKnown(s, c);
    PrepareWellFormed(s, c);
    PreparedCycles(s, c);
    CurrentKnown(Prepare(s, c), c);
    FillNextFrame(Zeroed(s, c), c);
    SameCore(s, c);
    SameCore(Prepare(s, c), c);
    DecideExactly(Prepare(s, c), c);
  }

  lemma SameCore(s: Sched, c: nat)
    requires c < |s.cores|
    ensures s.WithCore(c, s.cores[c]) == s
  {
  }

  lemma DecideExactly(p: Sched, c: nat)
    requires c < |p.cores| && p.WellFormed()
    ensures p.cores[c].current in p.threads && p.cores[c].next in p.threads
    ensures var core := p.cores[c];
      var thread := p.threads[core.current];
      if (core.cyclesLeft < p.quantum || thread.state == Terminated)
         && (thread.state == Running && core.current != core.idle ==> core.next != core.idle)
         && (thread.state == Running ==> thread.priority <= p.threads[core.next].priority)
      then Decide(p, c) == SwitchToNext(p, c)
      else |Decide(p, c).cores| == |p.cores| && Decide(p, c) == p.WithCore(c, core.(cyclesLeft := Decide(p, c).cores[c].cyclesLeft))
  {
    hide SwitchToNext;
  }
  /**
    A core that runs its idle thread and finds nobody else queues that thread, which goes on running
    while it counts as ready, exactly when its quantum is used up.
  */
  lemma IdleQueuesItself(s: Sched, c: nat)
    requires c < |s.cores| && s.WellFormed() && s.cores[c].current == s.cores[c].idle
    requires s.threads[s.cores[c].idle].state == Running && SlotEmpty(s, c) && Select(s, c).thread == s.cores[c].idle
    ensures var r := Tick(s, c);
      var idle := s.cores[c].idle;
      && |r.cores| == |s.cores| && r.cores[c].current == idle && idle in r.threads
      && if s.cores[c].cyclesLeft < s.quantum
         then r.threads[idle].state == Ready && var ids := r.shared[s.threads[idle].priority]; ids != [] && ids[|ids| - 1] == idle
         else r.threads[idle].state == Running && r.shared == Select(s, c).after.shared
  {
    hide FillNext, SwitchToNext, Prepare, Tick, Sched.WellFormed, Select;
    TickExactly(s, c);
    FillNextFrame(s, c);
    FallbackIsIdle(s, c);
    SwitchToSelf(Prepare(s, c), c);
  }

  lemma SwitchToSelf(p: Sched, c: nat)
    requires c < |p.cores| && p.WellFormed()
    ensures p.cores[c].current in p.threads && p.cores[c].next in p.threads
    ensures p.cores[c].current == p.cores[c].next ==>
      var r := SwitchToNext(p, c);
      var t := p.cores[c].current;
      && |r.cores| == |p.cores| && r.cores[c].current == t && t in r.threads && r.threads[t].state == Ready
      && var ids := r.shared[p.threads[t].priority]; ids != [] && ids[|ids| - 1] == t
  {
    hide FillNext, Queued;
    FillNextFrame(Granted(p, c), c);
  }
}
