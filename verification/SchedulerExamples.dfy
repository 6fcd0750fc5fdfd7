/**
  Two short runs from power-on: one to a state in which the idle thread is taken although another
  thread is ready, and one in which a thread goes on running on a core that it has excluded.
*/
module SchedulerExamples {
  import opened BitWords
  import opened Common
  import opened ReadyQueues
  import opened SchedulerModel
  import opened SchedulerInvariant
  import opened SchedulerSteps
  import opened SchedulerResults
  import opened SchedulerAffinity

  /** One core with idle thread 0, and thread 2 at the same priority. */
  function OneCore(shared: Queues, next: ThreadId, left: int): Sched {
    Sched(map[0 := Thread(Running, 0, 1, 6), 2 := Thread(Ready, 0, 1, 6)], shared, [Core(NoQueues(), 0, next, 0, left)], 1)
  }

  /** Thread 2 runs and the idle thread is queued. */
  function IdleQueued(): Sched {
    Sched(map[0 := Thread(Ready, 0, 1, 6), 2 := Thread(Running, 0, 1, 6)],
          NoQueues()[0 := [0]], [Core(NoQueues(), 2, 0, 0, 6)], 1)
  }

  /** The idle thread is queued ahead of the ready thread 1 while thread 2 runs. */
  function IdleAhead(): Sched {
    Sched(map[0 := Thread(Ready, 0, 1, 6), 1 := Thread(Ready, 0, 1, 6), 2 := Thread(Running, 0, 1, 6)],
          NoQueues()[0 := [0, 1]], [Core(NoQueues(), 2, 0, 0, 6)], 1)
  }

  lemma OneQueued(t: ThreadId)
    ensures Top(NoQueues()[0 := [t]]) == 0 && Top(NoQueues()) == -1
  {
    var q := NoQueues()[0 := [t]];
    assert q[0] == [t];
  }

  lemma OneAllowed(t: ThreadId, allowed: set<ThreadId>)
    requires t in allowed
    ensures TopAllowed(NoQueues()[0 := [t]], allowed) == 0 && FirstAllowed([t], allowed) == 0
  {
    var q := NoQueues()[0 := [t]];
    assert q[0] == [t] && forall p :: 0 < p < 32 ==> q[p] == [];
    assert FirstAllowed(q[0], allowed) == 0;
  }

  lemma QueueAndTake(t: ThreadId)
    ensures Append(NoQueues(), 0, t) == NoQueues()[0 := [t]]
    ensures Remove(NoQueues()[0 := [t]], 0, 0) == NoQueues()
  {
    assert [] + [t] == [t];
    assert [t][..0] + [t][1..] == [];
  }

  /** The first tick takes thread 2 from the shared queues into the slot. */
  lemma FirstSelect()
    ensures var s := OneCore(NoQueues()[0 := [2]], 0, 3);
            Select(s, 0).thread == 2 && Select(s, 0).after == OneCore(NoQueues(), 0, 3)
  {
    hide Top, TopAllowed, FirstAllowed, NoQueues, Append, Remove;
    var s := OneCore(NoQueues()[0 := [2]], 0, 3);
    OneQueued(2);
    QueueAndTake(2);
    assert Bit(1, 0);
    assert 2 in s.Allowed(0);
    OneAllowed(2, s.Allowed(0));
    assert NoQueues()[0] == [] by {
      EmptyQueues();
    }
  }

  lemma EmptyQueues()
    ensures AllEmpty(NoQueues())
  {
  }

  lemma FirstTick()
    requires OneCore(NoQueues()[0 := [2]], 0, 3).WellFormed()
    ensures Tick(OneCore(NoQueues()[0 := [2]], 0, 3), 0) == OneCore(NoQueues(), 2, 2)
  {
    hide Select, Sched.WellFormed, NoQueues;
    FirstSelect();
    PrepareWellFormed(OneCore(NoQueues()[0 := [2]], 0, 3), 0);
  }

  lemma LaterTick(left: int)
    requires left == 1 || left == 2
    requires OneCore(NoQueues(), 2, left).WellFormed()
    ensures Tick(OneCore(NoQueues(), 2, left), 0) == OneCore(NoQueues(), 2, left - 1)
  {
    hide Select, Sched.WellFormed, NoQueues, SwitchToNext;
    PrepareWellFormed(OneCore(NoQueues(), 2, left), 0);
  }

  /** The switch queues the idle thread like any other. */
  lemma SwitchingTick()
    requires OneCore(NoQueues(), 2, 0).WellFormed()
    ensures Tick(OneCore(NoQueues(), 2, 0), 0) == IdleQueued()
  {
    hide Sched.WellFormed, NoQueues, Top, TopAllowed, FirstAllowed, Append, Remove;
    PrepareWellFormed(OneCore(NoQueues(), 2, 0), 0);
    OneQueued(2);
    QueueAndTake(0);
  }

  // --- the runs

  lemma Happens(s: Sched, step: Step)
    requires Inv(s) && Enabled(s, step)
    ensures s.WellFormed() && Attempt(s, step) == After(s, step) && Inv(Attempt(s, step))
  {
    hide Inv, InvDuring, After, Sched.WellFormed, Enabled;
    InvImplies(s);
    AttemptKeeps(s, step);
  }

  lemma {:induction false} RunBoth(s: Sched, a: seq<Step>, b: seq<Step>)
    ensures Run(s, a + b) == Run(Run(s, a), b)
    decreases |a|
  {
    hide Attempt;
    if a == [] {
      assert a + b == b;
    } else {
      RunBoth(Attempt(s, a[0]), a[1..], b);
      assert (a + b)[0] == a[0] && (a + b)[1..] == a[1..] + b;
    }
  }

  lemma RunOne(s: Sched, step: Step)
    ensures Run(s, [step]) == Attempt(s, step)
  {
    hide Attempt;
    assert [step][1..] == [];
  }

  /** The core comes up and a thread is created. */
  function Setup(): seq<Step> {
    [StartCore(0, 6), Create(2, Thread(Ready, 0, 1, 6))]
  }

  lemma SetupRun()
    ensures Run(PowerOn(1), Setup()) == OneCore(NoQueues()[0 := [2]], 0, 3) && Inv(Run(PowerOn(1), Setup()))
  {
    hide NoQueues, Inv, Attempt, Append, Sched.WellFormed;
    PowerOnInvariant(1, []);
    var s := PowerOn(1);
    assert Run(s, []) == s;
    Happens(s, StartCore(0, 6));
    assert Pow2(0) == 1;
    var up := Attempt(s, StartCore(0, 6));
    Happens(up, Create(2, Thread(Ready, 0, 1, 6)));
    QueueAndTake(2);
    assert Setup()[1..][1..] == [] && Setup()[1..][0] == Setup()[1];
    assert Run(s, Setup()) == Attempt(up, Create(2, Thread(Ready, 0, 1, 6)));
  }

  function Ticks(n: nat): seq<Step> {
    seq(n, _ => Clock(0))
  }

  lemma OneTickMore(s: Sched, n: nat)
    ensures Run(s, Ticks(n + 1)) == Run(Attempt(s, Clock(0)), Ticks(n))
  {
    hide Attempt;
    assert Ticks(n + 1)[1..] == Ticks(n);
  }

  lemma TickHappens(s: Sched)
    requires Inv(s) && |s.cores| > 0
    ensures s.WellFormed() && Attempt(s, Clock(0)) == Tick(s, 0) && Inv(Tick(s, 0))
  {
    hide Inv, Tick, Sched.WellFormed;
    Happens(s, Clock(0));
  }

  lemma ThreeTicks()
    ensures Run(PowerOn(1), Setup() + Ticks(3)) == OneCore(NoQueues(), 2, 0) && Inv(OneCore(NoQueues(), 2, 0))
  {
    hide Inv, Tick, Run, Attempt, NoQueues, PowerOn, Sched.WellFormed, Ticks;
    SetupRun();
    var s := OneCore(NoQueues()[0 := [2]], 0, 3);
    RunBoth(PowerOn(1), Setup(), Ticks(3));
    OneTickMore(s, 2);
    TickHappens(s);
    FirstTick();
    OneTickMore(OneCore(NoQueues(), 2, 2), 1);
    TickHappens(OneCore(NoQueues(), 2, 2));
    LaterTick(2);
    OneTickMore(OneCore(NoQueues(), 2, 1), 0);
    TickHappens(OneCore(NoQueues(), 2, 1));
    LaterTick(1);
    NoTicks(OneCore(NoQueues(), 2, 0));
  }

  lemma NoTicks(s: Sched)
    ensures Run(s, Ticks(0)) == s
  {
  }

  function ToIdleQueued(): seq<Step> {
    Setup() + Ticks(3) + [Clock(0)]
  }

  lemma IdleQueuedRun()
    ensures Run(PowerOn(1), ToIdleQueued()) == IdleQueued() && Inv(IdleQueued())
  {
    hide Inv, Tick, Run, Attempt, NoQueues, PowerOn, Sched.WellFormed, Ticks;
    ThreeTicks();
    RunBoth(PowerOn(1), Setup() + Ticks(3), [Clock(0)]);
    RunOne(OneCore(NoQueues(), 2, 0), Clock(0));
    TickHappens(OneCore(NoQueues(), 2, 0));
    SwitchingTick();
  }

  lemma IdleAheadRun()
    ensures Run(PowerOn(1), ToIdleQueued() + [Create(1, Thread(Ready, 0, 1, 6))]) == IdleAhead() && Inv(IdleAhead())
  {
    hide Inv, Run, Attempt, NoQueues, PowerOn, Sched.WellFormed, ToIdleQueued;
    IdleQueuedRun();
    var create := Create(1, Thread(Ready, 0, 1, 6));
    RunBoth(PowerOn(1), ToIdleQueued(), [create]);
    RunOne(IdleQueued(), create);
    Happens(IdleQueued(), create);
    assert NoQueues()[0 := [0]][0] + [1] == [0, 1];
  }

  // --- the idle thread before others

  lemma IdleAheadPick()
    ensures Select(IdleAhead(), 0).thread == 0 == IdleAhead().cores[0].idle
  {
  }

  lemma IdleAheadCandidate()
    ensures Candidate(IdleAhead(), 0, 1)
  {
    var s := IdleAhead();
    assert s.shared[0][1] == 1;
    QueuedMember(s.shared, 0, 1);
    assert Bit(1, 0);
    hide Queued;
  }

  /** A run from power-on after which the idle thread is selected although another thread is ready for the core. */
  lemma IdleBeforeOthers()
    ensures var s := Run(PowerOn(1), ToIdleQueued() + [Create(1, Thread(Ready, 0, 1, 6))]);
            && |s.cores| == 1 && Inv(s)
            && Candidate(s, 0, 1) && 1 != s.cores[0].idle && Select(s, 0).thread == s.cores[0].idle
  {
    hide Candidate, Select, Run, Inv, ToIdleQueued;
    IdleAheadRun();
    IdleAheadPick();
    IdleAheadCandidate();
  }

  // --- a core that a thread cannot leave

  /** Thread 2 may only run on core 1, and runs on core 0. */
  function Unmoved(shared: Queues, left: int): Sched {
    Sched(map[0 := Thread(Ready, 0, 1, 6), 2 := Thread(Running, 0, 2, 6), 9 := Thread(Running, 0, 2, 6)], shared,
          [Core(NoQueues(), 2, 0, 0, left), Core(NoQueues(), 9, 9, 9, 3)], 1)
  }

  lemma IdleAllowed(s: Sched)
    requires s == Unmoved(NoQueues()[0 := [0]], 6)
    ensures 0 in s.Allowed(0)
  {
    assert Bit(1, 0);
  }

  lemma UnmovedSelect(left: int)
    ensures Select(Unmoved(NoQueues()[0 := [0]], 6), 0).thread == 0
    ensures Select(Unmoved(NoQueues()[0 := [0]], 6), 0).after == Unmoved(NoQueues(), 6)
    ensures Select(Unmoved(NoQueues(), left), 0).thread == 0
    ensures Select(Unmoved(NoQueues(), left), 0).after == Unmoved(NoQueues(), left)
  {
    hide Top, TopAllowed, FirstAllowed, NoQueues, Append, Remove, Sched.Allowed;
    var s := Unmoved(NoQueues()[0 := [0]], 6);
    OneQueued(0);
    QueueAndTake(0);
    IdleAllowed(s);
    OneAllowed(0, s.Allowed(0));
    EmptyQueues();
  }

  lemma UnmovedTick(left: int)
    requires Unmoved(NoQueues(), left).WellFormed()
    ensures exists l: int :: Tick(Unmoved(NoQueues(), left), 0) == Unmoved(NoQueues(), l)
  {
    hide Select, Sched.WellFormed, NoQueues, SwitchToNext;
    UnmovedSelect(left);
    PrepareWellFormed(Unmoved(NoQueues(), left), 0);
    assert Tick(Unmoved(NoQueues(), left), 0) == Unmoved(NoQueues(), if left < 1 then 6 else left - 1);
  }

  lemma UnmovedFirst()
    requires Unmoved(NoQueues()[0 := [0]], 6).WellFormed()
    ensures Tick(Unmoved(NoQueues()[0 := [0]], 6), 0) == Unmoved(NoQueues(), 5)
  {
    hide Select, Sched.WellFormed, NoQueues, SwitchToNext;
    UnmovedSelect(5);
    PrepareWellFormed(Unmoved(NoQueues()[0 := [0]], 6), 0);
  }

  /** A second core comes up and thread 2 restricts itself to it. */
  function ToBound(): seq<Step> {
    ToIdleQueued() + [StartCore(9, 6), SetAffinity(0, 2)]
  }

  lemma BoundRun()
    ensures Run(PowerOn(1), ToBound()) == Unmoved(NoQueues()[0 := [0]], 6) && Inv(Unmoved(NoQueues()[0 := [0]], 6))
  {
    hide Inv, Run, Attempt, NoQueues, PowerOn, Sched.WellFormed, ToIdleQueued, Pow2;
    IdleQueuedRun();
    var start, bind := StartCore(9, 6), SetAffinity(0, 2);
    Happens(IdleQueued(), start);
    assert Pow2(1) == 2 by {
      SecondBit();
    }
    var two := Attempt(IdleQueued(), start);
    Happens(two, bind);
    assert [start, bind] == [start] + [bind];
    RunBoth(PowerOn(1), ToIdleQueued(), [start, bind]);
    RunBoth(IdleQueued(), [start], [bind]);
    RunOne(IdleQueued(), start);
    RunOne(two, bind);
  }

  lemma SecondBit()
    ensures Pow2(1) == 2 && !Bit(2, 0)
  {
  }

  lemma {:induction false} UnmovedRun(left: int, n: nat)
    requires Inv(Unmoved(NoQueues(), left))
    ensures exists l: int :: Run(Unmoved(NoQueues(), left), Ticks(n)) == Unmoved(NoQueues(), l)
    decreases n
  {
    hide Inv, Tick, Run, Attempt, Sched.WellFormed, Ticks;
    var s := Unmoved(NoQueues(), left);
    if n == 0 {
      NoTicks(s);
    } else {
      TickHappens(s);
      UnmovedTick(left);
      var l: int :| Tick(s, 0) == Unmoved(NoQueues(), l);
      OneTickMore(s, n - 1);
      UnmovedRun(l, n - 1);
    }
  }

  /**
    A thread that asks for another core never leaves the one it runs on while nobody else wants
    that core: however many ticks follow, it goes on there, outside its mask.
  */
  lemma MaskIgnored(n: nat)
    ensures var r := Run(PowerOn(1), ToBound() + Ticks(n));
            |r.cores| == 2 && r.cores[0].current == 2 && !Admitted(r, 0)
  {
    hide Inv, Tick, Run, Attempt, Sched.WellFormed, Ticks, PowerOn, ToBound;
    BoundRun();
    RunBoth(PowerOn(1), ToBound(), Ticks(n));
    var s := Unmoved(NoQueues()[0 := [0]], 6);
    TickHappens(s);
    UnmovedFirst();
    SecondBit();
    if n == 0 {
      NoTicks(s);
    } else {
      OneTickMore(s, n - 1);
      UnmovedRun(5, n - 1);
    }
  }
}
