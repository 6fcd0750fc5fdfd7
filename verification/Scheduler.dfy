/**
  The scheduler as the kernel runs it: queues and summary words updated in place, the summary
  comparison that decides whether to look at the shared queues, the loops over priorities and
  over the threads of one queue.  Each method is proved to compute the corresponding function
  of the model, so everything proved about runs of the model holds for runs of these methods.
*/
module Scheduler {
  import opened BitWords
  import opened Common
  import opened ReadyQueues
  import opened SchedulerModel
  import SchedulerInvariant
  import SchedulerSteps

  /** A summary word has bit `p` set exactly when queue `p` is not empty. */
  ghost predicate Summarises(w: nat, q: Queues) {
    w < Pow2(32) && forall p :: 0 <= p < 32 ==> (Bit(w, p) <==> q[p] != [])
  }

  /** `w` summarises `q` at every priority but `p`. */
  ghost predicate SummarisesBut(w: nat, q: Queues, p: nat) {
    w < Pow2(32) && forall i :: 0 <= i < 32 && i != p ==> (Bit(w, i) <==> q[i] != [])
  }

  function ClearSummaryBitIfNecessary(q: Queues, w: nat, p: nat): (w': nat)
    requires p < 32
    requires SummarisesBut(w, q, p) && (q[p] != [] ==> Bit(w, p))
    ensures Summarises(w', q)
  {
    var w' := if q[p] == [] then ClearBit(w, p) else w;
    assert forall i :: 0 <= i < 32 ==> (Bit(ClearBit(w, p), i) <==> i != p && Bit(w, i)) by {
      forall i: nat | i < 32
        ensures Bit(ClearBit(w, p), i) <==> i != p && Bit(w, i)
      {
        BitEffect(w, p, i);
      }
    }
    WordSize(w, p, 32);
    w'
  }

  function SetSummaryBitIfNecessary(q: Queues, w: nat, p: nat): (w': nat)
    requires p < 32
    requires SummarisesBut(w, q, p) && (q[p] == [] ==> !Bit(w, p))
    ensures Summarises(w', q)
  {
    var w' := if q[p] != [] then SetBit(w, p) else w;
    assert forall i :: 0 <= i < 32 ==> (Bit(SetBit(w, p), i) <==> i == p || Bit(w, i)) by {
      forall i: nat | i < 32
        ensures Bit(SetBit(w, p), i) <==> i == p || Bit(w, i)
      {
        BitEffect(w, p, i);
      }
    }
    WordSize(w, p, 32);
    w'
  }

  /** The shared word is zero exactly when nothing is shared. */
  lemma SummaryZero(w: nat, q: Queues)
    requires Summarises(w, q)
    ensures w == 0 <==> Top(q) == -1
  {
    if w == 0 {
      forall p: nat | p < 32
        ensures q[p] == []
      {
        NoBits(p);
      }
    } else if Top(q) == -1 {
      ZeroWord(w, 32);
    }
  }

  /** The comparison on the summary words asks whether the core has a thread of the highest shared priority. */
  lemma SummaryComparison(sharedWord: nat, shared: Queues, coreWord: nat, own: Queues)
    requires Summarises(sharedWord, shared) && Summarises(coreWord, own) && Top(shared) >= 0
    ensures coreWord > Xor(sharedWord, coreWord) <==> own[Top(shared)] != []
  {
    HighestBitTest(sharedWord, coreWord, Top(shared), 32);
  }

  lemma HeadTaken(s: Sched, c: nat, p: nat)
    requires s.WellFormed() && c < |s.cores| && p < 32 && s.cores[c].queues[p] != []
    ensures forall t :: t in Queued(Remove(s.cores[c].queues, p, 0)) ==> t in s.threads
  {
    RemoveTakesOne(s.cores[c].queues, p, 0);
    forall t | t in Queued(Remove(s.cores[c].queues, p, 0))
      ensures t in s.threads
    {
      assert t in Queued(s.cores[c].queues);
    }
  }

  lemma SummaryOfTop(sharedWord: nat, shared: Queues, coreWord: nat, own: Queues)
    requires Summarises(sharedWord, shared) && Summarises(coreWord, own)
    ensures Top(shared) >= 0 ==> (coreWord > Xor(sharedWord, coreWord) <==> own[Top(shared)] != [])
  {
    hide Summarises, Xor, Top;
    if Top(shared) >= 0 {
      SummaryComparison(sharedWord, shared, coreWord, own);
    }
  }

  lemma RemoveChanges(q: Queues, p: nat, i: nat)
    requires p < 32 && i < |q[p]|
    ensures Remove(q, p, i) != q
  {
    assert |Remove(q, p, i)[p]| == |q[p]| - 1;
  }

  /** When nothing is shared, or the core has a thread of the highest priority shared, nothing moves. */
  lemma NothingToMove(s: Sched, c: nat)
    requires c < |s.cores|
    requires Top(s.shared) == -1 || s.cores[c].queues[Top(s.shared)] != []
    ensures Migrate(s, c) == s
  {
  }

  /** Otherwise the first thread that the core may run of the highest priority that has one moves, if there is one. */
  lemma FirstMoves(s: Sched, c: nat, p: nat)
    requires c < |s.cores| && p < 32 && FirstAllowed(s.shared[p], s.Allowed(c)) >= 0
    requires Top(s.shared) >= 0 && s.cores[c].queues[Top(s.shared)] == []
    requires forall q :: p < q < 32 ==> FirstAllowed(s.shared[q], s.Allowed(c)) == -1
    ensures var i := FirstAllowed(s.shared[p], s.Allowed(c));
            && i < |s.shared[p]|
            && Migrate(s, c) == s.(shared := Remove(s.shared, p, i))
                 .WithCore(c, s.cores[c].(queues := Append(s.cores[c].queues, p, s.shared[p][i])))
  {
    hide Sched.Allowed, FirstAllowed, Top;
    assert TopAllowed(s.shared, s.Allowed(c)) == p;
  }

  lemma NobodyMoves(s: Sched, c: nat)
    requires c < |s.cores|
    requires forall q :: 0 <= q < 32 ==> FirstAllowed(s.shared[q], s.Allowed(c)) == -1
    ensures Migrate(s, c) == s
  {
    hide Sched.Allowed, FirstAllowed, Top;
    assert TopAllowed(s.shared, s.Allowed(c)) == -1;
  }

  /** A clear summary bit means that there is nobody in the queue. */
  lemma ClearBitEmpty(w: nat, q: Queues, p: nat, allowed: set<ThreadId>)
    requires Summarises(w, q) && p < 32 && !Bit(w, p)
    ensures FirstAllowed(q[p], allowed) == -1
  {
  }

  /** A move changes the queues of one priority. */
  lemma MoveFrame(s: Sched, c: nat, p: nat, i: nat)
    requires c < |s.cores| && p < 32 && i < |s.shared[p]|
    ensures forall q :: 0 <= q < 32 && q != p ==> Remove(s.shared, p, i)[q] == s.shared[q]
    ensures forall q :: 0 <= q < 32 && q != p ==> Append(s.cores[c].queues, p, s.shared[p][i])[q] == s.cores[c].queues[q]
    ensures Append(s.cores[c].queues, p, s.shared[p][i])[p] != []
  {
    hide Queued;
  }

  /** A move between queues names no new thread. */
  lemma MoveMembers(s: Sched, c: nat, p: nat, i: nat)
    requires s.WellFormed() && c < |s.cores| && p < 32 && i < |s.shared[p]|
    ensures forall t :: t in Queued(Remove(s.shared, p, i)) ==> t in s.threads
    ensures forall t :: t in Queued(Append(s.cores[c].queues, p, s.shared[p][i])) ==> t in s.threads
  {
    QueuedMember(s.shared, p, s.shared[p][i]);
    RemoveTakesOne(s.shared, p, i);
    AppendAddsOne(s.cores[c].queues, p, s.shared[p][i]);
    forall t | t in Queued(Remove(s.shared, p, i))
      ensures t in s.threads
    {
      assert t in Queued(s.shared);
    }
  }

  class Processors {
    const quantum: nat
    var threads: map<ThreadId, Thread>
    var shared: Queues
    var sharedSummary: nat
    var cores: seq<Core>
    var coreSummaries: seq<nat>

    ghost function View(): Sched
      reads this
    {
      Sched(threads, shared, cores, quantum)
    }

    ghost predicate Valid()
      reads this
    {
      && View().WellFormed()
      && |coreSummaries| == |cores|
      && Summarises(sharedSummary, shared)
      && (forall c :: 0 <= c < |cores| ==> Summarises(coreSummaries[c], cores[c].queues))
    }

    constructor (quantum: nat)
      ensures Valid() && this.quantum == quantum
      ensures threads == map[] && cores == [] && AllEmpty(shared)
    {
      this.quantum := quantum;
      threads, shared, sharedSummary, cores, coreSummaries := map[], NoQueues(), 0, [], [];
      new;
      NothingQueued(shared);
      forall p: nat | p < 32
        ensures !Bit(0, p)
      {
        NoBits(p);
      }
    }

    method InsertIntoSharedQueue(t: ThreadId)
      requires Valid() && t in threads
      modifies this
      ensures Valid() && View() == old(View()).Enqueue(t) && unchanged(this`coreSummaries)
    {
      hide Queued, Bit, Pow2;
      var p := threads[t].priority;
      AppendAddsOne(shared, p, t);
      shared := Append(shared, p, t);
      sharedSummary := SetSummaryBitIfNecessary(shared, sharedSummary, p);
    }

    /** Moves at most one shared thread into the queues of core `c`. */
    method ManageSharedReadyQueue(c: nat) returns (moved: bool)
      requires Valid() && c < |cores|
      modifies this
      ensures Valid() && View() == Migrate(old(View()), c)
      ensures moved <==> shared != old(shared)
    {
      hide Migrate, Top, TopAllowed, FirstAllowed, Xor, Bit, Queued, Sched.Allowed, Sched.WellFormed, Remove, Append;
      moved := false;
      SummaryZero(sharedSummary, shared);
      SummaryOfTop(sharedSummary, shared, coreSummaries[c], cores[c].queues);
      if sharedSummary == 0 {
        NothingToMove(View(), c);
        return;
      }
      if coreSummaries[c] > Xor(sharedSummary, coreSummaries[c]) {
        NothingToMove(View(), c);
        return;
      }
      ghost var s := View();
      var priority := 31;
      while priority >= 0 && !moved
        invariant -1 <= priority <= 31
        invariant !moved ==> View() == s && Valid() && shared == old(shared)
        invariant !moved ==> forall p :: priority < p < 32 ==> FirstAllowed(s.shared[p], s.Allowed(c)) == -1
        invariant moved ==> Valid() && View() == Migrate(s, c) && shared != old(shared)
        decreases priority
      {
        if Bit(sharedSummary, priority) {
          var i := FindEligible(c, priority);
          if i < |shared[priority]| {
            FirstMoves(s, c, priority);
            RemoveChanges(shared, priority, i);
            MoveToCore(c, priority, i);
            moved := true;
          }
        } else {
          ClearBitEmpty(sharedSummary, shared, priority, s.Allowed(c));
        }
        priority := priority - 1;
      }
      if !moved {
        NobodyMoves(s, c);
      }
    }

    /** Walks one shared queue; the result is its length when no thread may run on the core. */
    method FindEligible(c: nat, p: nat) returns (i: nat)
      requires Valid() && c < |cores| && p < 32
      ensures i <= |shared[p]|
      ensures var first := FirstAllowed(shared[p], View().Allowed(c));
              if first == -1 then i == |shared[p]| else i == first
    {
      i := 0;
      while i < |shared[p]|
        invariant 0 <= i <= |shared[p]|
        invariant forall j :: 0 <= j < i ==> shared[p][j] !in View().Allowed(c)
      {
        QueuedMember(shared, p, shared[p][i]);
        if Bit(threads[shared[p][i]].affinity, c) {
          return;
        }
        i := i + 1;
      }
    }

    method MoveToCore(c: nat, p: nat, i: nat)
      requires Valid() && c < |cores| && p < 32 && i < |shared[p]|
      modifies this
      ensures Valid() && shared == Remove(old(shared), p, i) && threads == old(threads)
      ensures cores == old(cores)[c := old(cores)[c].(queues := Append(old(cores)[c].queues, p, old(shared)[p][i]))]
    {
      hide Queued, Bit, Pow2, Remove, Append;
      var t := shared[p][i];
      MoveFrame(View(), c, p, i);
      MoveMembers(View(), c, p, i);
      shared := Remove(shared, p, i);
      cores := cores[c := cores[c].(queues := Append(cores[c].queues, p, t))];
      coreSummaries := coreSummaries[c := SetSummaryBitIfNecessary(cores[c].queues, coreSummaries[c], p)];
      sharedSummary := ClearSummaryBitIfNecessary(shared, sharedSummary, p);
    }

    /** The head of the core's highest queue after the migration, or the core's idle thread. */
    method SelectNextReadyThread(c: nat) returns (t: ThreadId)
      requires Valid() && c < |cores|
      modifies this
      ensures Valid() && View() == Select(old(View()), c).after && t == Select(old(View()), c).thread
    {
      hide Queued, Pow2, Remove;
      var _ := ManageSharedReadyQueue(c);
      t := cores[c].idle;
      var priority := 31;
      while priority >= 0
        invariant -1 <= priority <= 31
        invariant Valid() && View() == Migrate(old(View()), c) && t == cores[c].idle
        invariant forall p :: priority < p < 32 ==> cores[c].queues[p] == []
        decreases priority
      {
        if Bit(coreSummaries[c], priority) {
          t := TakeHead(c, priority);
          return;
        }
        priority := priority - 1;
      }
    }

    method TakeHead(c: nat, p: nat) returns (t: ThreadId)
      requires Valid() && c < |cores| && p < 32 && cores[c].queues[p] != []
      modifies this
      ensures Valid() && t == old(cores)[c].queues[p][0]
      ensures shared == old(shared) && threads == old(threads)
      ensures cores == old(cores)[c := old(cores)[c].(queues := Remove(old(cores)[c].queues, p, 0))]
    {
      hide Queued, Bit, Pow2;
      t := cores[c].queues[p][0];
      HeadTaken(View(), c, p);
      cores := cores[c := cores[c].(queues := Remove(cores[c].queues, p, 0))];
      coreSummaries := coreSummaries[c := ClearSummaryBitIfNecessary(cores[c].queues, coreSummaries[c], p)];
    }

    method SetNext(c: nat, t: ThreadId)
      requires Valid() && c < |cores| && t in threads
      modifies this`cores
      ensures Valid() && View() == old(View()).WithCore(c, old(cores)[c].(next := t))
    {
      cores := cores[c := cores[c].(next := t)];
    }

    method RefillNext(c: nat)
      requires Valid() && c < |cores|
      modifies this
      ensures Valid() && View() == FillNext(old(View()), c)
    {
      FillNextWellFormed(View(), c);
      FallbackIsIdle(View(), c);
      ghost var filled := FillNext(View(), c);
      assert filled.cores[c].next in filled.threads;
      var t := SelectNextReadyThread(c);
      SetNext(c, t);
    }

    method SetCyclesLeft(c: nat, left: int)
      requires Valid() && c < |cores|
      modifies this`cores
      ensures Valid() && View() == old(View()).WithCore(c, old(cores)[c].(cyclesLeft := left))
    {
      cores := cores[c := cores[c].(cyclesLeft := left)];
    }

    method SetThreadState(t: ThreadId, state: ThreadState)
      requires Valid() && t in threads
      modifies this`threads
      ensures Valid() && View() == old(View()).WithState(t, state)
    {
      threads := threads[t := threads[t].(state := state)];
    }

    /** Gives the core to the thread in its slot; the previous thread is queued if it could still run. */
    method SwitchThread(c: nat)
      requires Valid() && c < |cores|
      modifies this
      ensures Valid() && View() == SwitchToNext(old(View()), c)
    {
      hide Select, FillNext, Summarises;
      var original := cores[c].current;
      var nextThread := cores[c].next;
      SetCyclesLeft(c, threads[nextThread].quantumReset * quantum);
      SetThreadState(nextThread, Running);
      assert View() == Granted(old(View()), c);
      FillNextFrame(View(), c);
      RefillNext(c);
      cores := cores[c := cores[c].(current := nextThread)];
      assert View() == Switched(old(View()), c);
      if threads[original].state == Running {
        InsertIntoSharedQueue(original);
        SetThreadState(original, Ready);
      }
    }

    /** The first part of a tick. */
    method PrepareCore(c: nat)
      requires Valid() && c < |cores|
      modifies this
      ensures Valid() && View() == Prepare(old(View()), c) && |cores| == |old(cores)|
    {
      ghost var before := View();
      PrepareWellFormed(before, c);
      if threads[cores[c].current].state != Running {
        SetCyclesLeft(c, 0);
      }
      assert View() == Zeroed(before, c);
      if cores[c].next == cores[c].idle || threads[cores[c].next].state != Ready {
        FillNextFrame(View(), c);
        RefillNext(c);
      }
    }

    /** The second part: reset the quantum, switch, or count down. */
    method DecideCore(c: nat)
      requires Valid() && c < |cores|
      modifies this
      ensures Valid() && View() == Decide(old(View()), c)
    {
      hide Select, FillNext, SwitchToNext, Summarises;
      var original := cores[c].current;
      if cores[c].cyclesLeft < quantum || threads[cores[c].current].state == Terminated {
        if ((cores[c].next == cores[c].idle && cores[c].current != cores[c].idle)
            || threads[original].priority > threads[cores[c].next].priority)
           && threads[cores[c].current].state == Running {
          SetCyclesLeft(c, threads[original].quantumReset * quantum);
        } else {
          SwitchThread(c);
        }
      } else {
        var left := cores[c].cyclesLeft - quantum;
        SetCyclesLeft(c, if left < 0 then 0 else left);
      }
    }

    /**
      The clock tick of core `c`.  A tick that finds the running thread at a high IRQL, or inside
      a nested interrupt, leaves the scheduler alone.
    */
    method ScheduleThread(c: nat, cutShort: bool)
      requires Valid() && c < |cores|
      modifies this
      ensures Valid() && View() == After(old(View()), if cutShort then ShortTick(c) else Clock(c))
      ensures SchedulerInvariant.Inv(old(View())) ==> SchedulerInvariant.Inv(View())
    {
      if cutShort {
        return;
      }
      ghost var before := View();
      InvariantKept(before, Clock(c));
      hide SchedulerInvariant.Inv, Prepare, Decide, Summarises;
      PrepareCore(c);
      DecideCore(c);
    }

    /** The current thread waits or ends: its state is set and a tick is forced. */
    method GiveUp(c: nat, ending: bool)
      requires Valid() && c < |cores| && cores[c].current != cores[c].idle
      modifies this
      ensures Valid() && View() == After(old(View()), if ending then Exit(c) else Block(c))
      ensures SchedulerInvariant.Inv(old(View())) ==> SchedulerInvariant.Inv(View())
    {
      ghost var before := View();
      InvariantKept(before, if ending then Exit(c) else Block(c));
      hide SchedulerInvariant.Inv, Tick, Summarises;
      SetThreadState(cores[c].current, if ending then Terminated else Waiting);
      ScheduleThread(c, false);
    }

    /** A wait is over: the thread is ready and in the shared queues. */
    method ReadyThread(t: ThreadId)
      requires Valid() && t in threads && threads[t].state == Waiting
      modifies this
      ensures Valid() && View() == After(old(View()), Wake(t))
      ensures SchedulerInvariant.Inv(old(View())) ==> SchedulerInvariant.Inv(View())
    {
      InvariantKept(View(), Wake(t));
      hide SchedulerInvariant.Inv, Summarises;
      SetThreadState(t, Ready);
      InsertIntoSharedQueue(t);
    }

    /** A thread is created ready and queued. */
    method CreateThread(t: ThreadId, priority: nat, affinity: nat, quantumReset: nat)
      requires Valid() && t !in threads && priority < 32
      modifies this
      ensures Valid()
      ensures View() == After(old(View()), Create(t, Thread(Ready, priority, affinity, quantumReset)))
      ensures SchedulerInvariant.Inv(old(View())) ==> SchedulerInvariant.Inv(View())
    {
      var info := Thread(Ready, priority, affinity, quantumReset);
      InvariantKept(View(), Create(t, info));
      hide SchedulerInvariant.Inv, Summarises;
      threads := threads[t := info];
      InsertIntoSharedQueue(t);
    }

    /** A core comes up with empty queues and its idle thread running. */
    method InitializeCore(idle: ThreadId, quantumReset: nat)
      requires Valid() && idle !in threads && |cores| < 64
      modifies this
      ensures Valid() && View() == After(old(View()), StartCore(idle, quantumReset))
      ensures SchedulerInvariant.Inv(old(View())) ==> SchedulerInvariant.Inv(View())
    {
      hide SchedulerInvariant.Inv, Summarises, Pow2, AllEmpty, Queued, NoQueues, Sched.WellFormed, After;
      InvariantKept(View(), StartCore(idle, quantumReset));
      NoneSummarised();
      StartedWellFormed(View(), idle, quantumReset);
      StartedAfter(View(), idle, quantumReset);
      threads := threads[idle := Thread(Running, 0, Pow2(|cores|), quantumReset)];
      cores := cores + [Core(NoQueues(), idle, idle, idle, 3 * quantum)];
      coreSummaries := coreSummaries + [0];
      assert View() == Started(old(View()), idle, quantumReset);
      assert forall c :: 0 <= c < |old(cores)| ==> cores[c] == old(cores)[c] && coreSummaries[c] == old(coreSummaries)[c];
    }

    /** The current thread of a core changes its mask, and a tick is forced. */
    method ChangeAffinity(c: nat, mask: nat)
      requires Valid() && c < |cores| && cores[c].current != cores[c].idle
      modifies this
      ensures Valid()
      ensures After(old(View()), SetAffinity(c, mask)).WellFormed()
      ensures View() == After(After(old(View()), SetAffinity(c, mask)), Clock(c))
      ensures SchedulerInvariant.Inv(old(View())) ==> SchedulerInvariant.Inv(View())
    {
      InvariantKept(View(), SetAffinity(c, mask));
      hide SchedulerInvariant.Inv, Tick, Summarises;
      var t := cores[c].current;
      threads := threads[t := threads[t].(affinity := mask)];
      ScheduleThread(c, false);
    }
  }

  lemma InvariantKept(before: Sched, step: Step)
    requires before.WellFormed() && Enabled(before, step)
    ensures SchedulerInvariant.Inv(before) ==> SchedulerInvariant.Inv(After(before, step))
  {
    hide SchedulerInvariant.Inv, After;
    if SchedulerInvariant.Inv(before) {
      SchedulerSteps.StepKeeps(before, step);
    }
  }

  lemma StartedAfter(s: Sched, t: ThreadId, quantumReset: nat)
    requires s.WellFormed() && t !in s.threads && |s.cores| < 64
    ensures After(s, StartCore(t, quantumReset)) == Started(s, t, quantumReset)
  {
    hide Sched.WellFormed, Pow2, NoQueues;
  }

  lemma StartedWellFormed(s: Sched, t: ThreadId, quantumReset: nat)
    requires s.WellFormed() && t !in s.threads
    ensures Started(s, t, quantumReset).WellFormed()
  {
    hide Queued, NoQueues, Pow2;
    NoneSummarised();
    var r := Started(s, t, quantumReset);
    assert forall c :: 0 <= c < |s.cores| ==> r.cores[c] == s.cores[c];
  }

  lemma NoneSummarised()
    ensures Summarises(0, NoQueues()) && Queued(NoQueues()) == multiset{}
  {
    NothingQueued(NoQueues());
    forall p: nat | p < 32
      ensures !Bit(0, p)
    {
      NoBits(p);
    }
  }
}
