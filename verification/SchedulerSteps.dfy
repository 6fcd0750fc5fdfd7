/**
  Every step of the scheduler keeps the invariant, so it holds along every run.
*/
module SchedulerSteps {
  import opened BitWords
  import opened Common
  import opened ReadyQueues
  import opened SchedulerModel
  import opened SchedulerInvariant

  /** The state a tick works on after filling the slot: an idle thread in the slot is in no queue. */
  ghost predicate Prepared(s: Sched, c: nat) {
    && c < |s.cores|
    && InvDuring(s, c)
    && (s.cores[c].next == s.cores[c].idle ==> Places(s, s.cores[c].idle) == 0)
  }

  lemma SlotIsReady(s: Sched, c: nat)
    requires c < |s.cores| && s.WellFormed() && Conserved(s)
    ensures s.cores[c].next != s.cores[c].idle ==>
              s.threads[s.cores[c].next].state == Ready && Places(s, s.cores[c].next) == 1
  {
    HeldBound(s.cores, c, s.cores[c].next);
  }

  ghost predicate SameCurrent(s: Sched, p: Sched, c: nat)
    requires c < |s.cores|
  {
    && |p.cores| == |s.cores| && p.threads == s.threads && p.quantum == s.quantum
    && p.cores[c].current == s.cores[c].current && p.cores[c].idle == s.cores[c].idle
  }

  /** Changing only what is left of the quantum keeps the invariant. */
  lemma QuantumOnly(s: Sched, f: Sched, leaving: int)
    requires InvDuring(s, leaving) && SameQueues(s, f) && f.threads == s.threads
    requires forall c :: 0 <= c < |s.cores| ==> f.cores[c].current == s.cores[c].current
    ensures InvDuring(f, leaving)
  {
    SameQueuesCarries(s, f);
    SameThreadsRun(s, f, leaving);
    SameIdle(s, f);
    forall t
      ensures Places(f, t) == Places(s, t)
    {
      SamePlaces(s, f, t);
    }
  }

  lemma ZeroedKeeps(s: Sched, c: nat)
    requires c < |s.cores| && InvDuring(s, c)
    ensures var z := Zeroed(s, c);
            && InvDuring(z, c) && SameCurrent(s, z, c) && z.cores[c].next == s.cores[c].next
            && (forall t :: Places(z, t) == Places(s, t))
  {
    var z := Zeroed(s, c);
    ZeroedSame(s, c);
    hide Zeroed, InvDuring, Places;
    QuantumOnly(s, z, c);
    forall t
      ensures Places(z, t) == Places(s, t)
    {
      SamePlaces(s, z, t);
    }
  }

  lemma ZeroedSame(s: Sched, c: nat)
    requires c < |s.cores| && s.cores[c].current in s.threads
    ensures var z := Zeroed(s, c);
            && SameQueues(s, z) && SameCurrent(s, z, c) && z.cores[c].next == s.cores[c].next
            && (forall d :: 0 <= d < |s.cores| ==> z.cores[d].current == s.cores[d].current)
  {}

  /** In a state that keeps the invariant the slot is refilled exactly when it is empty. */
  lemma PrepareCases(s: Sched, c: nat)
    requires c < |s.cores| && s.WellFormed() && Conserved(s)
    ensures Prepare(s, c) == if s.cores[c].next == s.cores[c].idle then FillNext(Zeroed(s, c), c) else Zeroed(s, c)
  {
    hide FillNext;
    SlotIsReady(s, c);
  }

  lemma PrepareKeeps(s: Sched, c: nat)
    requires c < |s.cores| && InvDuring(s, c)
    ensures Prepared(Prepare(s, c), c)
    ensures SameCurrent(s, Prepare(s, c), c)
  {
    hide FillNext, Select, Migrate, Zeroed;
    ZeroedKeeps(s, c);
    PrepareCases(s, c);
    var z := Zeroed(s, c);
    hide *;
    InvParts(z, c);
    if s.cores[c].next == s.cores[c].idle {
      FilledPrepared(z, c);
      SameCurrentTrans(s, z, c);
    } else {
      PreparedParts(z, c);
    }
  }

  lemma PreparedParts(s: Sched, c: nat)
    ensures Prepared(s, c) <==>
            && c < |s.cores| && InvDuring(s, c)
            && (s.cores[c].next == s.cores[c].idle ==> Places(s, s.cores[c].idle) == 0)
  {
    hide InvDuring, Places;
  }

  lemma FilledPrepared(z: Sched, c: nat)
    requires c < |z.cores| && InvDuring(z, c) && z.cores[c].next == z.cores[c].idle
    ensures Prepared(FillNext(z, c), c)
  {
    hide *;
    InvParts(z, c);
    FillNextKeeps(z, c, c);
    FillNextFrame(z, c);
    FallbackIsIdle(z, c);
    if Select(z, c).thread == z.cores[c].idle {
      IdlePickedIsNowhere(z, c);
    }
    PreparedParts(FillNext(z, c), c);
  }

  lemma SameCurrentTrans(s: Sched, z: Sched, c: nat)
    requires c < |s.cores| && SameCurrent(s, z, c)
    ensures SameCurrent(s, FillNext(z, c), c)
  {
    FillNextFrame(z, c);
  }

  // --- switching to the thread in the slot

  /** What switching does to the parts of the state that are not queues. */
  lemma SwitchFrame(s: Sched, c: nat)
    requires c < |s.cores| && s.WellFormed()
    ensures var f := SwitchToNext(s, c);
            var orig := s.cores[c].current;
            var next := s.cores[c].next;
            var requeued := orig == next || s.threads[orig].state == Running;
            && |f.cores| == |s.cores| && f.quantum == s.quantum && f.threads.Keys == s.threads.Keys
            && (forall d :: 0 <= d < |s.cores| && d != c ==> f.cores[d] == s.cores[d])
            && f.cores[c].current == next && f.cores[c].idle == s.cores[c].idle
            && f.cores[c].cyclesLeft == s.threads[next].quantumReset * s.quantum
            && f.threads == s.threads[next := s.threads[next].(state := Running)]
                                     [orig := s.threads[orig].(state :=
                                        if requeued then Ready else s.threads[orig].state)]
  {
    hide FillNext, Select, Migrate;
    FillNextFrame(Granted(s, c), c);
  }

  lemma GrantedSame(s: Sched, c: nat)
    requires c < |s.cores| && s.WellFormed()
    ensures var g := Granted(s, c);
            && SameQueues(s, g) && g.cores[c].current == s.cores[c].current
  {
    hide FillNext, Places;
  }

  lemma GrantedKeeps(s: Sched, c: nat)
    requires c < |s.cores| && s.WellFormed() && Sorted(s) && Eligible(s) && IdleThreads(s)
    ensures var g := Granted(s, c);
            && g.WellFormed() && Sorted(g) && Eligible(g) && CanRun(g.threads, g.cores[c].idle, c)
            && (forall t :: Places(g, t) == Places(s, t))
  {
    hide Places, Granted, Sorted, Eligible, IdleThreads;
    var g := Granted(s, c);
    GrantedSame(s, c);
    SameQueuesCarries(s, g);
    IdleRunsHere(s, c);
    forall t
      ensures Places(g, t) == Places(s, t)
    {
      SamePlaces(s, g, t);
    }
  }

  /** Making the slot's old content current touches no queue. */
  lemma TakeSlot(f: Sched, c: nat, next: ThreadId)
    requires c < |f.cores| && f.WellFormed() && Sorted(f) && Eligible(f) && CanRun(f.threads, next, c)
    ensures var w := f.WithCore(c, f.cores[c].(current := next));
            && w.WellFormed() && Sorted(w) && Eligible(w)
            && (forall t :: Places(w, t) == Places(f, t))
  {
    var w := f.WithCore(c, f.cores[c].(current := next));
    assert CoreEligible(f.threads, f.cores[c], c);
    assert CoreEligible(w.threads, w.cores[c], c);
    assert SortedQueues(f.threads, f.cores[c].queues);
    forall t
      ensures Places(w, t) == Places(f, t)
    {
      SameHeld(f.cores, w.cores, t);
    }
  }

  lemma EnqueueKeeps(s: Sched, t: ThreadId)
    requires t in s.threads && s.WellFormed() && Sorted(s) && Eligible(s)
    ensures var e := s.Enqueue(t).WithState(t, Ready);
            && e.WellFormed() && Sorted(e) && Eligible(e)
            && (forall u :: Places(e, u) == Places(s, u) + if u == t then 1 else 0)
  {
    var e := s.Enqueue(t).WithState(t, Ready);
    var p := s.threads[t].priority;
    AppendAddsOne(s.shared, p, t);
    forall c | 0 <= c < |e.cores|
      ensures CoreEligible(e.threads, e.cores[c], c) && SortedQueues(e.threads, e.cores[c].queues)
    {
      assert CoreEligible(s.threads, s.cores[c], c);
    }
    assert SortedQueues(e.threads, e.shared);
  }

  /** The queue part of the invariant after a switch, and where every thread is then. */
  lemma SwitchQueues(s: Sched, c: nat)
    requires c < |s.cores| && s.WellFormed() && Sorted(s) && Eligible(s) && IdleThreads(s)
    ensures var f := SwitchToNext(s, c);
            var orig := s.cores[c].current;
            var requeued := orig == s.cores[c].next || s.threads[orig].state == Running;
            && f.WellFormed() && Sorted(f) && Eligible(f)
            && (forall t ::
                  && Places(f, t) <= Places(s, t) - Slot(s.cores[c], t) + (if requeued && t == orig then 1 else 0)
                  && (t != s.cores[c].idle ==>
                        Places(f, t) == Places(s, t) - Slot(s.cores[c], t) + (if requeued && t == orig then 1 else 0)))
  {
    SwitchedQueues(s, c);
    hide Places, Slot, Sorted, Eligible, IdleThreads, FillNext;
    SwitchedState(s, c);
    hide Switched;
    EnqueueKeeps(Switched(s, c), s.cores[c].current);
  }

  lemma SwitchedState(s: Sched, c: nat)
    requires c < |s.cores| && s.WellFormed()
    ensures Switched(s, c).threads == s.threads[s.cores[c].next := s.threads[s.cores[c].next].(state := Running)]
  {
  }

  lemma SwitchedQueues(s: Sched, c: nat)
    requires c < |s.cores| && s.WellFormed() && Sorted(s) && Eligible(s) && IdleThreads(s)
    ensures var w := Switched(s, c);
            && w.WellFormed() && Sorted(w) && Eligible(w)
            && (forall t ::
                  && Places(w, t) <= Places(s, t) - Slot(s.cores[c], t)
                  && (t != s.cores[c].idle ==> Places(w, t) == Places(s, t) - Slot(s.cores[c], t)))
  {
    hide FillNext, Places, Sorted, Eligible, IdleThreads, Granted, Select, Migrate;
    var g := Granted(s, c);
    GrantedSame(s, c);
    GrantedKeeps(s, c);
    FillNextWellFormed(g, c);
    FillNextSorted(g, c);
    FillNextEligible(g, c);
    FillNextFrame(g, c);
    SlotCanRun(s, c);
    TakeSlot(FillNext(g, c), c, s.cores[c].next);
    forall t
      ensures Places(Switched(s, c), t) <= Places(s, t) - Slot(s.cores[c], t)
      ensures t != s.cores[c].idle ==> Places(Switched(s, c), t) == Places(s, t) - Slot(s.cores[c], t)
    {
      FillNextPlaces(g, c, t);
    }
  }

  lemma SlotCanRun(s: Sched, c: nat)
    requires c < |s.cores| && Eligible(s)
    ensures CanRun(s.threads, s.cores[c].next, c)
  {
    assert CoreEligible(s.threads, s.cores[c], c);
  }

  function StateAfterSwitch(s: Sched, c: nat, t: ThreadId): ThreadState
    requires c < |s.cores| && s.WellFormed() && t in s.threads
  {
    if t == s.cores[c].current then
      if t == s.cores[c].next || s.threads[t].state == Running then Ready else s.threads[t].state
    else if t == s.cores[c].next then Running
    else s.threads[t].state
  }

  function Requeued(s: Sched, c: nat, t: ThreadId): nat
    requires c < |s.cores| && s.WellFormed()
  {
    if t == s.cores[c].current && (t == s.cores[c].next || s.threads[t].state == Running) then 1 else 0
  }

  /** What `SwitchFrame` and `SwitchQueues` say of a switch away from a thread that is not queued, as a relation. */
  ghost predicate SwitchedTo(s: Sched, c: nat, f: Sched)
    requires c < |s.cores| && s.WellFormed()
  {
    && |f.cores| == |s.cores| && f.quantum == s.quantum && f.threads.Keys == s.threads.Keys
    && (forall d :: 0 <= d < |s.cores| && d != c ==> f.cores[d] == s.cores[d])
    && f.cores[c].current == s.cores[c].next && f.cores[c].idle == s.cores[c].idle
    && (forall t :: t in s.threads ==>
          f.threads[t] == s.threads[t].(state := StateAfterSwitch(s, c, t)))
    && (forall t :: Places(f, t) <= Places(s, t) - Slot(s.cores[c], t) + Requeued(s, c, t))
    && (forall t :: t != s.cores[c].idle ==>
          Places(f, t) == Places(s, t) - Slot(s.cores[c], t) + Requeued(s, c, t))
  }

  /** A core's current thread and slot hold no other core's idle thread. */
  lemma NotOthersIdle(s: Sched, c: nat, t: ThreadId)
    requires c < |s.cores| && IdleThreads(s) && CanRun(s.threads, t, c)
    ensures s.IsIdle(t) ==> t == s.cores[c].idle
  {
    if s.IsIdle(t) {
      var d :| 0 <= d < |s.cores| && s.cores[d].idle == t;
      SingleBit(d, c);
    }
  }

  /** The facts about the two threads a switch involves. */
  ghost predicate SwitchPair(s: Sched, c: nat)
    requires c < |s.cores| && s.WellFormed()
  {
    var orig := s.cores[c].current;
    var next := s.cores[c].next;
    var idle := s.cores[c].idle;
    && (s.IsIdle(orig) <==> orig == idle) && (s.IsIdle(next) <==> next == idle)
    && (orig != idle ==> s.threads[orig].state != Ready && Places(s, orig) == 0)
    && (next != idle ==> s.threads[next].state == Ready && Places(s, next) == 1)
    && (next == idle ==> Places(s, idle) == 0)
    && s.IsIdle(idle)
  }

  lemma CurrentIdle(s: Sched, c: nat)
    requires c < |s.cores| && IdleThreads(s)
    ensures s.IsIdle(s.cores[c].current) <==> s.cores[c].current == s.cores[c].idle
    ensures s.IsIdle(s.cores[c].idle)
  {
    assert s.IsIdle(s.cores[c].idle);
  }

  lemma PairFacts(s: Sched, c: nat)
    requires Prepared(s, c)
    ensures SwitchPair(s, c)
  {
    hide Places, CoreEligible, Sorted, Slot, CanRun, Bit, Queued;
    CurrentIdle(s, c);
    SlotCanRun(s, c);
    NotOthersIdle(s, c, s.cores[c].next);
    hide Eligible, IdleThreads, Sched.IsIdle;
    SlotIsReady(s, c);
  }

  lemma CountAfterSwitch(s: Sched, c: nat, t: ThreadId)
    requires c < |s.cores| && s.WellFormed() && Conserved(s) && SwitchPair(s, c) && t in s.threads
    ensures var after := Places(s, t) - Slot(s.cores[c], t) + Requeued(s, c, t);
            var ready := ReadyCount(s.threads[t].(state := StateAfterSwitch(s, c, t)));
            && after <= ready && (!s.IsIdle(t) ==> after == ready)
  {
    hide Places;
    if t == s.cores[c].current {
    } else if t == s.cores[c].next {
    }
  }

  lemma ConservedAt(s: Sched, c: nat, f: Sched, t: ThreadId)
    requires c < |s.cores| && s.WellFormed() && Conserved(s)
    requires SwitchPair(s, c) && SwitchedTo(s, c, f)
    ensures ConservedFor(f, t)
  {
    SwitchedAt(s, c, f, t);
    hide SwitchedTo, Places, Slot, Requeued, StateAfterSwitch, Sched.IsIdle, ReadyCount, Conserved, SwitchPair;
    if t in s.threads {
      CountAfterSwitch(s, c, t);
    }
    OnlyThreadsAfterSwitch(s, c, t);
  }

  lemma SwitchedAt(s: Sched, c: nat, f: Sched, t: ThreadId)
    requires c < |s.cores| && s.WellFormed() && SwitchedTo(s, c, f)
    ensures t in f.threads <==> t in s.threads
    ensures f.IsIdle(t) <==> s.IsIdle(t)
    ensures f.IsIdle(s.cores[c].idle) && s.IsIdle(s.cores[c].idle)
    ensures t in s.threads ==> f.threads[t] == s.threads[t].(state := StateAfterSwitch(s, c, t))
    ensures Places(f, t) <= Places(s, t) - Slot(s.cores[c], t) + Requeued(s, c, t)
    ensures t != s.cores[c].idle ==> Places(f, t) == Places(s, t) - Slot(s.cores[c], t) + Requeued(s, c, t)
  {
  }

  lemma SwitchConserved(s: Sched, c: nat, f: Sched)
    requires c < |s.cores| && s.WellFormed() && Conserved(s)
    requires SwitchPair(s, c) && SwitchedTo(s, c, f)
    ensures Conserved(f)
  {
    hide *;
    forall t
      ensures ConservedFor(f, t)
    {
      ConservedAt(s, c, f, t);
    }
    ConservedParts(f);
  }

  lemma OnlyThreadsAfterSwitch(s: Sched, c: nat, t: ThreadId)
    requires c < |s.cores| && s.WellFormed() && Conserved(s)
    ensures Places(s, t) - Slot(s.cores[c], t) + Requeued(s, c, t) > 0 ==> t in s.threads
  {
    hide Places;
  }

  lemma SwitchIdle(s: Sched, c: nat, f: Sched)
    requires c < |s.cores| && s.WellFormed() && IdleThreads(s)
    requires SwitchPair(s, c) && SwitchedTo(s, c, f)
    ensures IdleThreads(f)
  {
  }

  /** No other core runs the thread this core switches to, nor the one it switches from. */
  lemma NobodyElse(s: Sched, c: nat, d: nat)
    requires c < |s.cores| && s.WellFormed() && IdleThreads(s) && Eligible(s) && Currents(s, c)
    requires SwitchPair(s, c) && d < |s.cores| && d != c
    ensures s.cores[d].current != s.cores[c].next && s.cores[d].current != s.cores[c].current
  {
    hide Places;
    if s.cores[c].next == s.cores[c].idle {
      IdleStaysHome(s, c, d);
    } else {
      assert s.IsIdle(s.cores[d].idle);
    }
  }

  lemma SwitchCurrents(s: Sched, c: nat, f: Sched)
    requires c < |s.cores| && s.WellFormed() && IdleThreads(s) && Eligible(s) && Currents(s, c)
    requires SwitchPair(s, c) && SwitchedTo(s, c, f)
    ensures Currents(f, -1)
  {
    hide Places, Slot, Eligible, IdleThreads, Queued, Requeued;
    forall d | 0 <= d < |s.cores| && d != c
      ensures s.cores[d].current != s.cores[c].next
      ensures s.cores[d].current != s.cores[c].current
    {
      NobodyElse(s, c, d);
    }
    forall t | t in f.threads && f.threads[t].state == Running
      ensures exists d :: 0 <= d < |f.cores| && f.cores[d].current == t
    {
      RunningAfterSwitch(s, c, f, t);
    }
  }

  lemma RunningAfterSwitch(s: Sched, c: nat, f: Sched, t: ThreadId)
    requires c < |s.cores| && s.WellFormed() && Currents(s, c) && SwitchedTo(s, c, f)
    requires t in f.threads && f.threads[t].state == Running
    ensures exists d :: 0 <= d < |f.cores| && f.cores[d].current == t
  {
  }

  lemma SwitchKeeps(s: Sched, c: nat)
    requires Prepared(s, c)
    ensures Inv(SwitchToNext(s, c))
  {
    PairFacts(s, c);
    hide *;
    PreparedParts(s, c);
    InvParts(s, c);
    var f := SwitchToNext(s, c);
    SwitchFrame(s, c);
    SwitchQueues(s, c);
    SwitchRelated(s, c, f);
    SwitchConserved(s, c, f);
    SwitchIdle(s, c, f);
    SwitchCurrents(s, c, f);
    InvParts(f, -1);
    InvIs(f);
  }

  lemma InvIs(s: Sched)
    ensures Inv(s) == InvDuring(s, -1)
  {
    hide InvDuring;
  }

  lemma SwitchRelated(s: Sched, c: nat, f: Sched)
    requires c < |s.cores| && s.WellFormed() && Sorted(s) && Eligible(s) && IdleThreads(s)
    requires f == SwitchToNext(s, c)
    ensures SwitchedTo(s, c, f)
  {
    SwitchFrame(s, c);
    SwitchQueues(s, c);
    hide *;
    StateAfterIs(s, c, f);
    RequeuedIs(s, c);
    SwitchedParts(s, c, f);
  }

  lemma StateAfterIs(s: Sched, c: nat, f: Sched)
    requires c < |s.cores| && s.WellFormed() && f == SwitchToNext(s, c)
    ensures forall t :: t in s.threads ==>
              t in f.threads && f.threads[t] == s.threads[t].(state := StateAfterSwitch(s, c, t))
  {
  }

  lemma RequeuedIs(s: Sched, c: nat)
    requires c < |s.cores| && s.WellFormed()
    ensures var orig := s.cores[c].current;
            var requeued := orig == s.cores[c].next || s.threads[orig].state == Running;
            forall t :: Requeued(s, c, t) == if requeued && t == orig then 1 else 0
  {}

  lemma SwitchedParts(s: Sched, c: nat, f: Sched)
    requires c < |s.cores| && s.WellFormed()
    requires |f.cores| == |s.cores| && f.quantum == s.quantum && f.threads.Keys == s.threads.Keys
    requires forall d :: 0 <= d < |s.cores| && d != c ==> f.cores[d] == s.cores[d]
    requires f.cores[c].current == s.cores[c].next && f.cores[c].idle == s.cores[c].idle
    requires forall t :: t in s.threads ==> f.threads[t] == s.threads[t].(state := StateAfterSwitch(s, c, t))
    requires forall t :: Places(f, t) <= Places(s, t) - Slot(s.cores[c], t) + Requeued(s, c, t)
    requires forall t :: t != s.cores[c].idle ==>
               Places(f, t) == Places(s, t) - Slot(s.cores[c], t) + Requeued(s, c, t)
    ensures SwitchedTo(s, c, f)
  {
    hide Places, Slot, Requeued, StateAfterSwitch;
  }

  // --- the steps

  /** A tick restores the invariant even when the current thread has just given up. */
  lemma TickKeeps(s: Sched, c: nat)
    requires c < |s.cores| && InvDuring(s, c)
    ensures Inv(Tick(s, c))
  {
    PrepareKeeps(s, c);
    var p := Prepare(s, c);
    if Tick(s, c) == SwitchToNext(p, c) {
      hide *;
      SwitchKeeps(p, c);
    } else {
      PreparedParts(p, c);
      TickStays(s, c);
      hide *;
      PreparedParts(p, c);
      StaysKeeps(p, Tick(s, c), c);
    }
  }

  /** A tick that does not switch changes nothing but what is left of the quantum, and the current thread runs. */
  lemma TickStays(s: Sched, c: nat)
    requires c < |s.cores| && s.WellFormed() && s.quantum > 0
    requires Prepare(s, c).WellFormed() && SameCurrent(s, Prepare(s, c), c)
    ensures var p := Prepare(s, c);
            var f := Tick(s, c);
            f == SwitchToNext(p, c)
            || (&& SameQueues(p, f) && f.threads == p.threads
                && (forall d :: 0 <= d < |p.cores| ==> f.cores[d].current == p.cores[d].current)
                && (forall d :: 0 <= d < |p.cores| && d != c ==> f.cores[d] == p.cores[d])
                && s.threads[s.cores[c].current].state == Running)
  {
    hide FillNext, SwitchToNext;
    if s.threads[s.cores[c].current].state != Running {
      GivenUpMeansNoQuantum(s, c);
    }
    hide Prepare;
  }

  lemma GivenUpMeansNoQuantum(s: Sched, c: nat)
    requires c < |s.cores| && s.WellFormed() && s.threads[s.cores[c].current].state != Running
    ensures |Prepare(s, c).cores| == |s.cores| && Prepare(s, c).cores[c].cyclesLeft == 0
  {
  }

  /** If the current thread of the core still runs, nobody is leaving. */
  lemma StaysKeeps(p: Sched, f: Sched, c: nat)
    requires InvDuring(p, c) && SameQueues(p, f) && f.threads == p.threads
    requires forall d :: 0 <= d < |p.cores| ==> f.cores[d].current == p.cores[d].current
    requires c < |p.cores| && p.threads[p.cores[c].current].state == Running
    ensures Inv(f)
  {
    assert Currents(p, -1);
    hide *;
    InvParts(p, c);
    InvParts(p, -1);
    QuantumOnly(p, f, -1);
    InvIs(f);
  }

  /** The current thread gives up the processor inside the step that takes it away. */
  lemma GivingUpKeeps(s: Sched, c: nat, state: ThreadState)
    requires Inv(s) && c < |s.cores| && s.WellFormed() && s.cores[c].current != s.cores[c].idle
    requires state == Waiting || state == Terminated
    ensures InvDuring(s.WithState(s.cores[c].current, state), c)
  {
    var g := s.WithState(s.cores[c].current, state);
    hide *;
    InvIs(s);
    InvParts(s, -1);
    CurrentIdle(s, c);
    GivingUpSame(s, c, state);
    SameQueuesCarries(s, g);
    forall u
      ensures ConservedFor(g, u)
    {
      SamePlaces(s, g, u);
      GivenUpConserved(s, c, state, u);
    }
    ConservedParts(g);
    GivenUpCurrents(s, c, state);
    InvParts(g, c);
  }

  lemma GivingUpSame(s: Sched, c: nat, state: ThreadState)
    requires c < |s.cores| && s.WellFormed()
    ensures SameQueues(s, s.WithState(s.cores[c].current, state))
    ensures s.WithState(s.cores[c].current, state).cores == s.cores
  {}

  lemma CurrentIsRunning(s: Sched, c: nat)
    requires c < |s.cores| && s.WellFormed() && Currents(s, -1) && s.cores[c].current != s.cores[c].idle
    ensures s.cores[c].current in s.threads && s.threads[s.cores[c].current].state == Running
  {
  }

  lemma GivenUpConserved(s: Sched, c: nat, state: ThreadState, u: ThreadId)
    requires c < |s.cores| && s.WellFormed() && Conserved(s) && Currents(s, -1)
    requires s.cores[c].current != s.cores[c].idle
    requires state == Waiting || state == Terminated
    requires var g := s.WithState(s.cores[c].current, state); Places(g, u) == Places(s, u)
    ensures ConservedFor(s.WithState(s.cores[c].current, state), u)
  {
    hide Places, Sched.IsIdle, Conserved, Sched.WellFormed, Currents;
    CurrentIsRunning(s, c);
    SameIdle(s, s.WithState(s.cores[c].current, state));
    ConservedParts(s);
    assert ConservedFor(s, u);
  }

  lemma GivenUpCurrents(s: Sched, c: nat, state: ThreadState)
    requires c < |s.cores| && s.WellFormed() && IdleThreads(s) && Currents(s, -1)
    requires !s.IsIdle(s.cores[c].current)
    requires state == Waiting || state == Terminated
    ensures var g := s.WithState(s.cores[c].current, state);
            IdleThreads(g) && Currents(g, c)
  {
  }

  lemma WakeKeeps(s: Sched, t: ThreadId)
    requires InvDuring(s, -1) && t in s.threads && s.threads[t].state == Waiting
    ensures Inv(s.Enqueue(t).WithState(t, Ready))
  {
    var f := s.Enqueue(t).WithState(t, Ready);
    EnqueueKeeps(s, t);
    hide *;
    InvParts(s, -1);
    forall u
      ensures ConservedFor(f, u)
    {
      WokenConserved(s, t, u);
    }
    ConservedParts(f);
    WokenCurrents(s, t);
    InvParts(f, -1);
    InvIs(f);
  }

  lemma WokenConserved(s: Sched, t: ThreadId, u: ThreadId)
    requires t in s.threads && s.threads[t].state == Waiting && s.WellFormed() && IdleThreads(s) && Conserved(s)
    requires Places(s.Enqueue(t).WithState(t, Ready), u) == Places(s, u) + if u == t then 1 else 0
    ensures ConservedFor(s.Enqueue(t).WithState(t, Ready), u)
  {
  }

  lemma WokenCurrents(s: Sched, t: ThreadId)
    requires t in s.threads && s.threads[t].state == Waiting && s.WellFormed() && IdleThreads(s) && Currents(s, -1)
    ensures var f := s.Enqueue(t).WithState(t, Ready);
            IdleThreads(f) && Currents(f, -1)
  {
  }

  /** A new thread, before it is queued. */
  function WithThread(s: Sched, t: ThreadId, info: Thread): Sched {
    s.(threads := s.threads[t := info.(state := Waiting)])
  }

  lemma WithThreadQueues(s: Sched, t: ThreadId, info: Thread)
    requires s.WellFormed() && Sorted(s) && Eligible(s) && t !in s.threads && info.priority < 32
    ensures var g := WithThread(s, t, info); g.WellFormed() && Sorted(g) && Eligible(g)
  {
    var g := WithThread(s, t, info);
    forall c | 0 <= c < |g.cores|
      ensures SortedQueues(g.threads, g.cores[c].queues) && CoreEligible(g.threads, g.cores[c], c)
    {
      assert CoreEligible(s.threads, s.cores[c], c);
    }
  }

  lemma WithThreadConserved(s: Sched, t: ThreadId, info: Thread, u: ThreadId)
    requires s.WellFormed() && Conserved(s) && t !in s.threads
    ensures ConservedFor(WithThread(s, t, info), u)
  {
  }

  lemma WithThreadCurrents(s: Sched, t: ThreadId, info: Thread)
    requires s.WellFormed() && IdleThreads(s) && Currents(s, -1) && t !in s.threads
    ensures var g := WithThread(s, t, info); IdleThreads(g) && Currents(g, -1)
  {
  }

  lemma WithThreadKeeps(s: Sched, t: ThreadId, info: Thread)
    requires Inv(s) && t !in s.threads && info.priority < 32
    ensures InvDuring(WithThread(s, t, info), -1)
  {
    var g := WithThread(s, t, info);
    hide *;
    InvIs(s);
    InvParts(s, -1);
    WithThreadQueues(s, t, info);
    forall u
      ensures ConservedFor(g, u)
    {
      WithThreadConserved(s, t, info, u);
    }
    ConservedParts(g);
    WithThreadCurrents(s, t, info);
    InvParts(g, -1);
  }

  /** A creation is a new thread and its first wake-up. */
  lemma CreateIs(s: Sched, t: ThreadId, info: Thread)
    requires info.priority < 32
    ensures var g := WithThread(s, t, info);
      && t in g.threads && g.threads[t].state == Waiting && g.threads[t].priority < 32
      && s.(threads := s.threads[t := info.(state := Ready)]).Enqueue(t) == g.Enqueue(t).WithState(t, Ready)
  {
    hide Append;
    assert info.(state := Waiting).(state := Ready) == info.(state := Ready);
    assert s.threads[t := info.(state := Waiting)][t := info.(state := Ready)] == s.threads[t := info.(state := Ready)];
  }

  lemma CreateKeeps(s: Sched, t: ThreadId, info: Thread)
    requires Inv(s) && t !in s.threads && info.priority < 32
    ensures Inv(s.(threads := s.threads[t := info.(state := Ready)]).Enqueue(t))
  {
    hide Inv, InvDuring, WithThread, Sched.Enqueue, Sched.WithState;
    CreateIs(s, t, info);
    WithThreadKeeps(s, t, info);
    WakeKeeps(WithThread(s, t, info), t);
  }

  /** The thread whose mask changes is in no queue and in no slot. */
  lemma ReboundEligible(s: Sched, c: nat, mask: nat)
    requires c < |s.cores| && s.WellFormed() && Eligible(s) && Places(s, s.cores[c].current) == 0
    requires !s.IsIdle(s.cores[c].current)
    ensures Eligible(Rebound(s, c, mask))
  {
    hide Queued, Bit;
    var t := s.cores[c].current;
    forall d | 0 <= d < |s.cores|
      ensures CoreEligible(Rebound(s, c, mask).threads, s.cores[d], d)
    {
      assert CoreEligible(s.threads, s.cores[d], d);
      HeldBound(s.cores, d, t);
      assert Queued(s.cores[d].queues)[t] == 0 && s.cores[d].next != t;
    }
  }

  lemma ReboundQueues(s: Sched, c: nat, mask: nat)
    requires c < |s.cores| && s.WellFormed() && Sorted(s)
    ensures var r := Rebound(s, c, mask); r.WellFormed() && Sorted(r)
    ensures forall t :: Places(Rebound(s, c, mask), t) == Places(s, t)
  {
    hide Queued;
    var r := Rebound(s, c, mask);
    assert SortedQueues(s.threads, s.shared);
    forall d | 0 <= d < |s.cores|
      ensures SortedQueues(r.threads, s.cores[d].queues)
    {
      assert SortedQueues(s.threads, s.cores[d].queues);
    }
  }

  lemma ReboundIdle(s: Sched, c: nat, mask: nat)
    requires c < |s.cores| && s.WellFormed() && IdleThreads(s) && !s.IsIdle(s.cores[c].current)
    ensures IdleThreads(Rebound(s, c, mask))
  {
    hide Queued, Pow2, Sched.WellFormed;
    assert forall d :: 0 <= d < |s.cores| ==> s.cores[d].idle != s.cores[c].current;
  }

  lemma ReboundCurrents(s: Sched, c: nat, mask: nat)
    requires c < |s.cores| && s.cores[c].current in s.threads && s.WellFormed() && Currents(s, -1)
    ensures Currents(Rebound(s, c, mask), -1)
  {
    hide Queued, Sched.WellFormed;
    var r := Rebound(s, c, mask);
    assert forall t <- r.threads :: r.threads[t].state == s.threads[t].state;
  }

  lemma ReboundConserved(s: Sched, c: nat, mask: nat, u: ThreadId)
    requires c < |s.cores| && s.WellFormed() && Conserved(s)
    requires Places(Rebound(s, c, mask), u) == Places(s, u)
    ensures ConservedFor(Rebound(s, c, mask), u)
  {
    hide Places, Conserved, Sched.IsIdle;
    ConservedParts(s);
    SameIdle(s, Rebound(s, c, mask));
    assert ConservedFor(s, u);
  }

  lemma ReboundKeeps(s: Sched, c: nat, mask: nat)
    requires Inv(s) && c < |s.cores| && s.WellFormed() && s.cores[c].current != s.cores[c].idle
    ensures Inv(Rebound(s, c, mask))
  {
    var r := Rebound(s, c, mask);
    hide *;
    InvIs(s);
    InvParts(s, -1);
    CurrentIdle(s, c);
    CurrentNowhere(s, c);
    ReboundEligible(s, c, mask);
    ReboundQueues(s, c, mask);
    ReboundIdle(s, c, mask);
    ReboundCurrents(s, c, mask);
    forall u
      ensures ConservedFor(r, u)
    {
      ReboundConserved(s, c, mask, u);
    }
    ConservedParts(r);
    InvParts(r, -1);
    InvIs(r);
  }

  lemma CurrentNowhere(s: Sched, c: nat)
    requires c < |s.cores| && s.WellFormed() && Conserved(s) && Currents(s, -1) && !s.IsIdle(s.cores[c].current)
    ensures Places(s, s.cores[c].current) == 0
  {
    hide Places;
  }

  lemma {:induction false} HeldAppend(cores: seq<Core>, core: Core, t: ThreadId)
    ensures HeldByAll(cores + [core], t) == HeldByAll(cores, t) + Held(core, t)
  {
    if cores == [] {
      assert [core][1..] == [];
    } else {
      HeldAppend(cores[1..], core, t);
      assert (cores + [core])[1..] == cores[1..] + [core];
    }
  }

  lemma StartedPlaces(s: Sched, t: ThreadId, quantumReset: nat, u: ThreadId)
    ensures Places(Started(s, t, quantumReset), u) == Places(s, u)
  {
    var core := Core(NoQueues(), t, t, t, 3 * s.quantum);
    NothingQueued(core.queues);
    HeldAppend(s.cores, core, u);
  }

  lemma StartedConserved(s: Sched, t: ThreadId, quantumReset: nat, u: ThreadId)
    requires s.WellFormed() && Conserved(s) && t !in s.threads
    requires Places(Started(s, t, quantumReset), u) == Places(s, u)
    ensures ConservedFor(Started(s, t, quantumReset), u)
  {
    hide Places;
    var r := Started(s, t, quantumReset);
    assert r.cores[|s.cores|].idle == t;
    assert forall c :: 0 <= c < |s.cores| ==> r.cores[c] == s.cores[c];
    assert u != t ==> (r.IsIdle(u) <==> s.IsIdle(u));
  }

  lemma NewCoreEligible(threads: map<ThreadId, Thread>, t: ThreadId, n: nat, left: int)
    requires t in threads && threads[t].affinity == Pow2(n)
    ensures CoreEligible(threads, Core(NoQueues(), t, t, t, left), n)
  {
    SingleBit(n, n);
    NothingQueued(NoQueues());
  }

  lemma StartedEligible(s: Sched, t: ThreadId, quantumReset: nat)
    requires s.WellFormed() && Eligible(s) && t !in s.threads
    ensures Eligible(Started(s, t, quantumReset))
  {
    hide Queued, Bit, Pow2, NoQueues;
    var r := Started(s, t, quantumReset);
    NewCoreEligible(r.threads, t, |s.cores|, 3 * s.quantum);
    forall c | 0 <= c < |s.cores|
      ensures r.cores[c] == s.cores[c] && CoreEligible(r.threads, s.cores[c], c)
    {
      assert CoreEligible(s.threads, s.cores[c], c);
    }
  }

  lemma StartedSorted(s: Sched, t: ThreadId, quantumReset: nat)
    requires s.WellFormed() && Sorted(s) && t !in s.threads
    ensures Started(s, t, quantumReset).WellFormed() && Sorted(Started(s, t, quantumReset))
  {
    hide Queued, Pow2, NoQueues;
    var r := Started(s, t, quantumReset);
    NothingQueued(NoQueues());
    forall c | 0 <= c < |r.cores|
      ensures SortedQueues(r.threads, r.cores[c].queues)
    {
      if c < |s.cores| {
        assert r.cores[c] == s.cores[c];
        assert SortedQueues(s.threads, s.cores[c].queues);
      }
    }
    assert SortedQueues(r.threads, r.shared);
  }

  /** The cores, the new one last, once it has come up. */
  lemma StartedCores(s: Sched, t: ThreadId, quantumReset: nat)
    requires s.WellFormed() && t !in s.threads
    ensures var r := Started(s, t, quantumReset);
      && |r.cores| == |s.cores| + 1 && r.quantum == s.quantum
      && r.threads == s.threads[t := Thread(Running, 0, Pow2(|s.cores|), quantumReset)]
      && r.cores[|s.cores|].current == t && r.cores[|s.cores|].idle == t
      && forall c :: 0 <= c < |s.cores| ==>
           && r.cores[c] == s.cores[c] && r.cores[c].current in s.threads && r.cores[c].idle in s.threads
           && r.cores[c].current != t && r.cores[c].idle != t
  {
    hide Queued, Pow2, NoQueues;
  }

  lemma StartedIdle(s: Sched, t: ThreadId, quantumReset: nat)
    requires s.WellFormed() && IdleThreads(s) && t !in s.threads && |s.cores| < 64
    ensures IdleThreads(Started(s, t, quantumReset))
  {
    hide Queued, Pow2, Started, Sched.WellFormed;
    StartedCores(s, t, quantumReset);
  }

  lemma StartedCurrents(s: Sched, t: ThreadId, quantumReset: nat)
    requires s.WellFormed() && Currents(s, -1) && t !in s.threads
    ensures Currents(Started(s, t, quantumReset), -1)
  {
    hide Queued, Pow2, Started, Sched.WellFormed;
    StartedCores(s, t, quantumReset);
    var r := Started(s, t, quantumReset);
    forall u | u in r.threads && r.threads[u].state == Running
      ensures exists c :: 0 <= c < |r.cores| && r.cores[c].current == u
    {
      if u == t {
        assert r.cores[|s.cores|].current == u;
      } else {
        var c :| 0 <= c < |s.cores| && s.cores[c].current == u;
        assert r.cores[c].current == u;
      }
    }
  }

  /** A core that comes up disturbs nothing. */
  lemma StartedKeeps(s: Sched, t: ThreadId, quantumReset: nat)
    requires Inv(s) && t !in s.threads && |s.cores| < 64
    ensures Inv(Started(s, t, quantumReset))
  {
    var r := Started(s, t, quantumReset);
    hide *;
    InvIs(s);
    InvParts(s, -1);
    StartedSorted(s, t, quantumReset);
    StartedEligible(s, t, quantumReset);
    StartedIdle(s, t, quantumReset);
    StartedCurrents(s, t, quantumReset);
    forall u
      ensures ConservedFor(r, u)
    {
      StartedPlaces(s, t, quantumReset, u);
      StartedConserved(s, t, quantumReset, u);
    }
    ConservedParts(r);
    InvParts(r, -1);
    InvIs(r);
  }

  /** Every step keeps the invariant. */
  lemma StepKeeps(s: Sched, step: Step)
    requires Inv(s) && Enabled(s, step)
    ensures Inv(After(s, step))
  {
    hide Inv, InvDuring, Tick, Sched.WellFormed;
    InvImplies(s);
    match step {
      case Clock(c) =>
        NobodyLeaving(s, c);
        TickKeeps(s, c);
      case ShortTick(_) =>
      case Block(c) =>
        GivingUpKeeps(s, c, Waiting);
        TickKeeps(s.WithState(s.cores[c].current, Waiting), c);
      case Exit(c) =>
        GivingUpKeeps(s, c, Terminated);
        TickKeeps(s.WithState(s.cores[c].current, Terminated), c);
      case Wake(t) =>
        assert s.WithState(t, Ready).Enqueue(t) == s.Enqueue(t).WithState(t, Ready);
        WakeKeeps(s, t);
      case Create(t, info) => CreateKeeps(s, t, info);
      case SetAffinity(c, mask) => ReboundKeeps(s, c, mask);
      case StartCore(t, quantumReset) => StartedKeeps(s, t, quantumReset);
    }
  }

  lemma InvImplies(s: Sched)
    requires Inv(s)
    ensures s.WellFormed() && InvDuring(s, -1)
  {}

  lemma NobodyLeaving(s: Sched, c: nat)
    requires Inv(s)
    ensures InvDuring(s, c)
  {
  }

  // --- runs

  /** A step, or nothing when the step cannot happen. */
  ghost function Attempt(s: Sched, step: Step): Sched {
    if s.WellFormed() && Enabled(s, step) then After(s, step) else s
  }

  ghost function Run(s: Sched, steps: seq<Step>): Sched
    decreases |steps|
  {
    if steps == [] then s else Run(Attempt(s, steps[0]), steps[1..])
  }

  lemma AttemptKeeps(s: Sched, step: Step)
    requires Inv(s)
    ensures Inv(Attempt(s, step))
  {
    hide Inv, After, Sched.WellFormed;
    if s.WellFormed() && Enabled(s, step) {
      StepKeeps(s, step);
    }
  }

  /** The invariant holds at the end of every run, hence in every reachable state. */
  lemma {:induction false} RunKeeps(s: Sched, steps: seq<Step>)
    requires Inv(s)
    ensures Inv(Run(s, steps))
    decreases |steps|
  {
    hide Inv, Attempt;
    if steps != [] {
      AttemptKeeps(s, steps[0]);
      RunKeeps(Attempt(s, steps[0]), steps[1..]);
    }
  }
}
