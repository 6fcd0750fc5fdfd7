/**
  What every step of the scheduler keeps, and hence what holds in every state a run can reach,
  on any number of cores (up to the 64 an affinity mask can name) and with any number of
  threads: no ready thread is lost or queued twice, no thread runs on two cores, and no core
  takes up a thread whose affinity does not admit it.
*/
module SchedulerInvariant {
  import opened BitWords
  import opened Common
  import opened ReadyQueues
  import opened SchedulerModel

  // --- where the threads are

  /** How often a core's look-ahead slot holds a thread; its own idle thread there counts as an empty slot. */
  ghost function Slot(core: Core, t: ThreadId): nat {
    if core.next == t && core.next != core.idle then 1 else 0
  }

  ghost function Held(core: Core, t: ThreadId): nat {
    Queued(core.queues)[t] + Slot(core, t)
  }

  ghost function HeldByAll(cores: seq<Core>, t: ThreadId): nat {
    if cores == [] then 0 else Held(cores[0], t) + HeldByAll(cores[1..], t)
  }

  /**
    In how many places a thread waits for a processor: positions of the shared queues, positions
    of the queues of all cores, and look-ahead slots.
  */
  ghost function Places(s: Sched, t: ThreadId): nat {
    Queued(s.shared)[t] + HeldByAll(s.cores, t)
  }

  lemma {:induction false} HeldUpdate(cores: seq<Core>, c: nat, core: Core, t: ThreadId)
    requires c < |cores|
    ensures HeldByAll(cores[c := core], t) + Held(cores[c], t) == HeldByAll(cores, t) + Held(core, t)
  {
    var u := cores[c := core];
    if c == 0 {
      assert u[1..] == cores[1..];
    } else {
      HeldUpdate(cores[1..], c - 1, core, t);
      assert u[1..] == cores[1..][c - 1 := core];
    }
  }

  lemma {:induction false} HeldWhere(cores: seq<Core>, t: ThreadId) returns (c: nat)
    requires HeldByAll(cores, t) > 0
    ensures c < |cores| && Held(cores[c], t) > 0
  {
    if Held(cores[0], t) > 0 {
      c := 0;
    } else {
      c := HeldWhere(cores[1..], t);
      c := c + 1;
    }
  }

  lemma {:induction false} HeldBound(cores: seq<Core>, c: nat, t: ThreadId)
    requires c < |cores|
    ensures Held(cores[c], t) <= HeldByAll(cores, t)
  {
    if c > 0 {
      HeldBound(cores[1..], c - 1, t);
    }
  }

  // --- the invariant

  ghost predicate IdleThreads(s: Sched) {
    && |s.cores| <= 64 && s.quantum > 0
    && (forall c, d :: 0 <= c < d < |s.cores| ==> s.cores[c].idle != s.cores[d].idle)
    && (forall c, d :: 0 <= c < |s.cores| && 0 <= d < |s.cores| && c != d ==> s.cores[c].current != s.cores[d].idle)
    && (forall c :: 0 <= c < |s.cores| ==>
          var t := s.cores[c].idle;
          && t in s.threads && s.threads[t].affinity == Pow2(c) && s.threads[t].priority == 0
          && (s.threads[t].state == Running || s.threads[t].state == Ready)
          && (s.threads[t].state == Running ==> s.cores[c].current == t))
  }

  ghost predicate SortedQueues(threads: map<ThreadId, Thread>, q: Queues) {
    forall p, t :: 0 <= p < 32 && t in q[p] ==> t in threads && threads[t].priority == p
  }

  ghost predicate Sorted(s: Sched) {
    && SortedQueues(s.threads, s.shared)
    && forall c :: 0 <= c < |s.cores| ==> SortedQueues(s.threads, s.cores[c].queues)
  }

  predicate CanRun(threads: map<ThreadId, Thread>, t: ThreadId, c: nat) {
    t in threads && Bit(threads[t].affinity, c)
  }

  ghost predicate CoreEligible(threads: map<ThreadId, Thread>, core: Core, c: nat) {
    && CanRun(threads, core.next, c)
    && forall t :: t in Queued(core.queues) ==> CanRun(threads, t, c)
  }

  /** Every core holds only threads whose affinity admits it. */
  ghost predicate Eligible(s: Sched) {
    forall c :: 0 <= c < |s.cores| ==> CoreEligible(s.threads, s.cores[c], c)
  }

  function ReadyCount(thread: Thread): nat {
    if thread.state == Ready then 1 else 0
  }

  /**
    A thread that is not an idle thread is in as many places as its state says: one if it is
    ready, none otherwise.  An idle thread is in at most that many.
  */
  ghost predicate Conserved(s: Sched) {
    && (forall t :: Places(s, t) > 0 ==> t in s.threads)
    && (forall t :: t in s.threads && !s.IsIdle(t) ==> Places(s, t) == ReadyCount(s.threads[t]))
    && (forall t :: t in s.threads ==> Places(s, t) <= ReadyCount(s.threads[t]))
  }

  /** The same for one thread. */
  ghost predicate ConservedFor(s: Sched, t: ThreadId) {
    && (Places(s, t) > 0 ==> t in s.threads)
    && (t in s.threads ==> Places(s, t) <= ReadyCount(s.threads[t]))
    && (t in s.threads && !s.IsIdle(t) ==> Places(s, t) == ReadyCount(s.threads[t]))
  }

  lemma ConservedParts(s: Sched)
    ensures Conserved(s) <==> forall t :: ConservedFor(s, t)
  {
    hide Places, ReadyCount, Sched.IsIdle;
    if forall t :: ConservedFor(s, t) {
      forall t
        ensures Places(s, t) > 0 ==> t in s.threads
        ensures t in s.threads ==> Places(s, t) <= ReadyCount(s.threads[t])
        ensures t in s.threads && !s.IsIdle(t) ==> Places(s, t) == ReadyCount(s.threads[t])
      {
        assert ConservedFor(s, t);
      }
    }
  }

  /** Between steps the current thread runs; inside a step the one on core `leaving` may have given up. */
  ghost predicate Currents(s: Sched, leaving: int) {
    && (forall c, d :: 0 <= c < d < |s.cores| ==> s.cores[c].current != s.cores[d].current)
    && (forall t :: t in s.threads && s.threads[t].state == Running ==>
          exists c :: 0 <= c < |s.cores| && s.cores[c].current == t)
    && (forall c :: 0 <= c < |s.cores| && s.cores[c].current in s.threads && s.cores[c].current != s.cores[c].idle ==>
          var state := s.threads[s.cores[c].current].state;
          if c == leaving then state != Ready else state == Running)
  }

  ghost predicate InvDuring(s: Sched, leaving: int) {
    s.WellFormed() && IdleThreads(s) && Sorted(s) && Eligible(s) && Conserved(s) && Currents(s, leaving)
  }

  ghost predicate Inv(s: Sched) {
    InvDuring(s, -1)
  }

  // --- filling the look-ahead slot

  /** Whether filling the slot takes a queued idle thread out of circulation. */
  ghost function Dropped(s: Sched, c: nat, t: ThreadId): nat
    requires c < |s.cores|
  {
    var pick := Select(s, c);
    if pick.fromQueue && pick.thread == t == s.cores[c].idle then 1 else 0
  }

  lemma SelectCount(s: Sched, c: nat, t: ThreadId)
    requires c < |s.cores|
    ensures var pick := Select(s, c);
            Queued(pick.after.shared)[t] + Queued(pick.after.cores[c].queues)[t]
            + (if pick.fromQueue && pick.thread == t then 1 else 0)
            == Queued(s.shared)[t] + Queued(s.cores[c].queues)[t]
  {
    SelectMembers(s, c);
    var pick := Select(s, c);
    var taken := if pick.fromQueue then multiset{pick.thread} else multiset{};
    assert (Queued(pick.after.shared) + Queued(pick.after.cores[c].queues) + taken)[t]
        == (Queued(s.shared) + Queued(s.cores[c].queues))[t];
  }

  /**
    Refilling the slot overwrites what it held and loses nothing else, except that it may take
    the idle thread out of the queues.
  */
  lemma FillNextPlaces(s: Sched, c: nat, t: ThreadId)
    requires c < |s.cores|
    ensures Places(FillNext(s, c), t) + Slot(s.cores[c], t) + Dropped(s, c, t) == Places(s, t)
  {
    hide FillNext, Select, HeldByAll, Queued;
    var f := FillNext(s, c);
    FallbackIsIdle(s, c);
    FillNextFrame(s, c);
    SelectCount(s, c, t);
    HeldUpdate(s.cores, c, f.cores[c], t);
    assert f.cores == s.cores[c := f.cores[c]];
  }

  /** A migration that changes anything leaves the core with a thread. */
  lemma MigrateAddsOrKeeps(s: Sched, c: nat)
    requires c < |s.cores|
    ensures Migrate(s, c) == s || Top(Migrate(s, c).cores[c].queues) >= 0
  {
    var m := Migrate(s, c);
    if m != s {
      var p := TopAllowed(s.shared, s.Allowed(c));
      assert m.cores[c].queues[p] != [];
    }
  }

  /** When the selection falls back to the idle thread, nothing the core could run is queued. */
  lemma FallbackMeansNothing(s: Sched, c: nat, t: ThreadId)
    requires c < |s.cores| && s.WellFormed() && !Select(s, c).fromQueue && CanRun(s.threads, t, c)
    ensures t !in Queued(s.cores[c].queues) && t !in Queued(s.shared)
  {
    var m := Migrate(s, c);
    assert Top(m.cores[c].queues) == -1;
    NothingQueued(m.cores[c].queues);
    MigrateAddsOrKeeps(s, c);
    if t in Queued(s.shared) {
      assert t in s.Allowed(c);
      var _ := QueuedWhere(s.shared, t);
    }
  }

  lemma IdleStaysHome(s: Sched, c: nat, d: nat)
    requires c < |s.cores| && d < |s.cores| && c != d
    requires IdleThreads(s) && Eligible(s)
    ensures Held(s.cores[d], s.cores[c].idle) == 0 && s.cores[c].idle != s.cores[d].current
  {
    SingleBit(c, d);
    assert CoreEligible(s.threads, s.cores[d], d);
  }

  /** After a selection that returned the idle thread, that thread is in no queue. */
  lemma IdlePickedIsNowhere(s: Sched, c: nat)
    requires c < |s.cores| && s.WellFormed() && IdleThreads(s) && Eligible(s) && Conserved(s)
    requires Select(s, c).thread == s.cores[c].idle
    ensures Places(FillNext(s, c), s.cores[c].idle) == 0
  {
    hide FillNext, Select;
    var idle := s.cores[c].idle;
    FillNextPlaces(s, c, idle);
    if Select(s, c).fromQueue {
      assert Places(s, idle) <= 1;
    } else {
      IdleRunsHere(s, c);
      FallbackMeansNothing(s, c, idle);
      if HeldByAll(s.cores, idle) > 0 {
        var d := HeldWhere(s.cores, idle);
        if d == c {
          assert false;
        } else {
          IdleStaysHome(s, c, d);
        }
      }
    }
  }

  lemma MigrateSorted(s: Sched, c: nat)
    requires c < |s.cores| && Sorted(s)
    ensures Sorted(Migrate(s, c))
  {
    var m := Migrate(s, c);
    if m != s {
      var p := TopAllowed(s.shared, s.Allowed(c));
      var i := FirstAllowed(s.shared[p], s.Allowed(c));
      assert forall t :: t in m.shared[p] ==> t in s.shared[p];
      assert s.shared[p][i] in s.shared[p];
      assert SortedQueues(s.threads, s.cores[c].queues);
      assert SortedQueues(m.threads, m.cores[c].queues);
    }
  }

  lemma FillNextSorted(s: Sched, c: nat)
    requires c < |s.cores| && Sorted(s)
    ensures Sorted(FillNext(s, c))
  {
    MigrateSorted(s, c);
    var m := Migrate(s, c);
    var f := FillNext(s, c);
    assert SortedQueues(m.threads, m.cores[c].queues);
    assert SortedQueues(f.threads, f.cores[c].queues);
  }

  lemma MigrateEligible(s: Sched, c: nat)
    requires c < |s.cores| && s.WellFormed() && Eligible(s)
    ensures forall t :: t in Queued(Migrate(s, c).cores[c].queues) ==> CanRun(s.threads, t, c)
  {
    var m := Migrate(s, c);
    assert CoreEligible(s.threads, s.cores[c], c);
    if m != s {
      var p := TopAllowed(s.shared, s.Allowed(c));
      var i := FirstAllowed(s.shared[p], s.Allowed(c));
      AppendAddsOne(s.cores[c].queues, p, s.shared[p][i]);
    }
  }

  lemma FillNextEligible(s: Sched, c: nat)
    requires c < |s.cores| && s.WellFormed() && Eligible(s) && CanRun(s.threads, s.cores[c].idle, c)
    ensures Eligible(FillNext(s, c))
  {
    var f := FillNext(s, c);
    FillNextFrame(s, c);
    FallbackIsIdle(s, c);
    PickedCanRun(s, c);
    hide FillNext, Select;
    assert CoreEligible(s.threads, s.cores[c], c);
    assert CoreEligible(f.threads, f.cores[c], c);
  }

  lemma PickedCanRun(s: Sched, c: nat)
    requires c < |s.cores| && s.WellFormed() && Eligible(s) && CanRun(s.threads, s.cores[c].idle, c)
    ensures CanRun(s.threads, Select(s, c).thread, c)
    ensures forall t :: t in Queued(Select(s, c).after.cores[c].queues) ==> CanRun(s.threads, t, c)
  {
    MigrateEligible(s, c);
    var q := Migrate(s, c).cores[c].queues;
    var p := Top(q);
    if p != -1 {
      RemoveTakesOne(q, p, 0);
      QueuedMember(q, p, q[p][0]);
      forall t | t in Queued(Remove(q, p, 0))
        ensures t in Queued(q)
      {}
    }
    hide Migrate, Eligible;
  }

  /** Filling an empty slot keeps the invariant. */
  lemma FillNextKeeps(s: Sched, c: nat, leaving: int)
    requires c < |s.cores| && InvDuring(s, leaving) && s.cores[c].next == s.cores[c].idle
    ensures InvDuring(FillNext(s, c), leaving)
  {
    hide *;
    InvParts(s, leaving);
    var f := FillNext(s, c);
    FillNextFrame(s, c);
    FillNextWellFormed(s, c);
    FillNextSorted(s, c);
    IdleRunsHere(s, c);
    FillNextEligible(s, c);
    FillNextConserved(s, c);
    SameThreadsRun(s, f, leaving);
    InvParts(f, leaving);
  }

  lemma IdleRunsHere(s: Sched, c: nat)
    requires c < |s.cores| && IdleThreads(s)
    ensures CanRun(s.threads, s.cores[c].idle, c)
  {
    SingleBit(c, c);
  }

  /** The invariant and its parts, for proofs that hide the definitions. */
  lemma InvParts(s: Sched, leaving: int)
    ensures InvDuring(s, leaving) <==>
            s.WellFormed() && IdleThreads(s) && Sorted(s) && Eligible(s) && Conserved(s) && Currents(s, leaving)
  {}

  lemma SameThreadsRun(s: Sched, f: Sched, leaving: int)
    requires |s.cores| == |f.cores| && s.threads == f.threads && s.quantum == f.quantum
    requires forall c :: 0 <= c < |s.cores| ==>
               f.cores[c].idle == s.cores[c].idle && f.cores[c].current == s.cores[c].current
    requires IdleThreads(s) && Currents(s, leaving)
    ensures IdleThreads(f) && Currents(f, leaving)
  {
  }

  lemma FillNextConserved(s: Sched, c: nat)
    requires c < |s.cores| && s.WellFormed() && Conserved(s) && s.cores[c].next == s.cores[c].idle
    ensures Conserved(FillNext(s, c))
  {
    hide FillNext, Places, Select;
    var f := FillNext(s, c);
    FillNextFrame(s, c);
    SameIdle(s, f);
    forall t
      ensures Places(f, t) <= Places(s, t)
      ensures t != s.cores[c].idle ==> Places(f, t) == Places(s, t)
    {
      FillNextPlaces(s, c, t);
    }
    assert s.IsIdle(s.cores[c].idle);
  }

  lemma SameIdle(s: Sched, f: Sched)
    requires |s.cores| == |f.cores|
    requires forall c :: 0 <= c < |s.cores| ==> f.cores[c].idle == s.cores[c].idle
    ensures forall t :: s.IsIdle(t) <==> f.IsIdle(t)
  {}

  // --- changes that leave the queues alone

  /** Two states that differ at most in thread states, current threads and quanta. */
  ghost predicate SameQueues(s: Sched, f: Sched) {
    && f.threads.Keys == s.threads.Keys && f.shared == s.shared && f.quantum == s.quantum
    && |f.cores| == |s.cores|
    && (forall t :: t in s.threads ==>
          f.threads[t].priority == s.threads[t].priority && f.threads[t].affinity == s.threads[t].affinity)
    && (forall c :: 0 <= c < |s.cores| ==>
          && f.cores[c].queues == s.cores[c].queues && f.cores[c].next == s.cores[c].next
          && f.cores[c].idle == s.cores[c].idle
          && (f.cores[c].current == s.cores[c].current
              || f.cores[c].current == s.cores[c].next || f.cores[c].current == s.cores[c].idle))
  }

  lemma SameQueuesCarries(s: Sched, f: Sched)
    requires SameQueues(s, f) && s.WellFormed() && Sorted(s) && Eligible(s) && IdleThreads(s)
    ensures f.WellFormed() && Sorted(f) && Eligible(f)
  {
    hide Queued, IdleThreads;
    forall c | 0 <= c < |f.cores|
      ensures CoreEligible(f.threads, f.cores[c], c)
      ensures SortedQueues(f.threads, f.cores[c].queues)
    {
      assert CoreEligible(s.threads, s.cores[c], c);
    }
  }

  lemma {:induction false} SameHeld(cores: seq<Core>, others: seq<Core>, t: ThreadId)
    requires |cores| == |others|
    requires forall c :: 0 <= c < |cores| ==>
               && cores[c].queues == others[c].queues && cores[c].next == others[c].next
               && cores[c].idle == others[c].idle
    ensures HeldByAll(cores, t) == HeldByAll(others, t)
  {
    if cores != [] {
      SameHeld(cores[1..], others[1..], t);
    }
  }

  lemma SamePlaces(s: Sched, f: Sched, t: ThreadId)
    requires SameQueues(s, f)
    ensures Places(f, t) == Places(s, t)
  {
    SameHeld(s.cores, f.cores, t);
  }
}
