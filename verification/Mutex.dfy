/**
  Mutexes: a mutex has an owner exactly when it is not signalled, and a release hands it to the
  thread that has waited longest.  The owner changes hands wrongly in one situation, the end of
  somebody's wait for the mutex without a grant.
*/
module Mutexes {
  import opened Common
  import opened DispatcherModel
  import opened DispatcherLinks
  import opened DispatcherSignals
  import opened DispatcherWaits
  import opened DispatcherResults
  import opened DispatcherRuns
  import opened DispatcherFrames

  /** A release by the owner, or any step that does not signal the mutex. */
  datatype MutexStep = Release(me: ThreadId) | Other(step: Step)

  predicate MutexOk(s: Dispatcher, m: ObjectId) {
    && m in s.objects && s.objects[m].kind == MutexKind && s.objects[m].signal <= 1
    && (s.objects[m].owner == None <==> s.objects[m].signal == 1)
  }

  predicate MayRelease(s: Dispatcher, me: ThreadId, m: ObjectId) {
    MaySignal(s, me, m) && s.objects[m].owner == Some(me)
  }

  /** Gives up the mutex: it has no owner until the signal finds the next one. */
  function Disowned(s: Dispatcher, m: ObjectId): Dispatcher
    requires m in s.objects
  {
    s.WithObject(m, s.objects[m].(owner := None))
  }

  function ReleaseMutex(s: Dispatcher, me: ThreadId, m: ObjectId): Dispatcher
    requires m in s.objects
  {
    Signal(Disowned(s, m), me, m, 1)
  }

  function AfterStep(s: Dispatcher, m: ObjectId, step: MutexStep): Dispatcher {
    match step
    case Release(me) => if MayRelease(s, me, m) then ReleaseMutex(s, me, m) else s
    case Other(other) => if Signals(other, m) then s else Attempt(s, other)
  }

  function AfterSteps(s: Dispatcher, m: ObjectId, steps: seq<MutexStep>): Dispatcher
    decreases |steps|
  {
    if steps == [] then s else AfterSteps(AfterStep(s, m, steps[0]), m, steps[1..])
  }

  lemma DisownedKeeps(s: Dispatcher, m: ObjectId)
    requires Inv(s) && m in s.objects
    ensures Inv(Disowned(s, m))
  {
  }

  /** Nobody waits: the release frees the mutex. */
  lemma ReleaseFrees(s: Dispatcher, me: ThreadId, m: ObjectId)
    requires Inv(s) && MutexOk(s, m) && MayRelease(s, me, m) && s.objects[m].waiters == []
    ensures var r := ReleaseMutex(s, me, m);
      && Inv(r) && MutexOk(r, m) && r.objects[m].owner == None && r.objects[m].waiters == []
  {
  }

  /** With waiters the thread that has waited longest becomes the owner. */
  lemma ReleaseOwner(s: Dispatcher, me: ThreadId, m: ObjectId)
    requires Inv(s) && MutexOk(s, m) && MayRelease(s, me, m) && s.objects[m].waiters != []
    ensures var r := ReleaseMutex(s, me, m);
      && Inv(r) && MutexOk(r, m)
      && r.objects[m].owner == Some(s.objects[m].waiters[0].thread) && r.objects[m].waiters == s.objects[m].waiters[1..]
  {
    hide Inv, Signal;
    DisownedKeeps(s, m);
    var d := Disowned(s, m);
    SignalKeeps(d, me, m, 1);
    SignalConserves(d, me, m, 1);
    assert ReleasedBy(d, m, 1) == 1;
  }

  /** It is readied when it waits for nothing more or for any object. */
  lemma ReleaseReadies(s: Dispatcher, me: ThreadId, m: ObjectId)
    requires Inv(s) && MutexOk(s, m) && MayRelease(s, me, m) && s.objects[m].waiters != []
    ensures var first := s.objects[m].waiters[0];
      var r := ReleaseMutex(s, me, m);
      && first.thread in s.threads && first.thread in r.threads
      && (if s.threads[first.thread].waitType == WaitAny || s.threads[first.thread].active == 1
          then r.threads[first.thread].state == Ready && r.readied == s.readied + [first.thread]
          else r.threads[first.thread].state == Waiting && r.readied == s.readied)
  {
    hide Inv, Signal;
    DisownedKeeps(s, m);
    var d := Disowned(s, m);
    SignalReadies(d, me, m, 1);
    var waiters := s.objects[m].waiters;
    assert ReleasedBy(d, m, 1) == 1;
    assert waiters[..1] == [waiters[0]];
    assert waiters[0] in waiters[..1];
    assert Completed(d, waiters[..1][1..]) == [];
  }

  /** So a release with waiters hands the mutex to the thread that has waited longest. */
  lemma ReleaseHandsOver(s: Dispatcher, me: ThreadId, m: ObjectId)
    requires Inv(s) && MutexOk(s, m) && MayRelease(s, me, m) && s.objects[m].waiters != []
    ensures var first := s.objects[m].waiters[0];
      var r := ReleaseMutex(s, me, m);
      && Inv(r) && MutexOk(r, m)
      && r.objects[m].owner == Some(first.thread) && r.objects[m].waiters == s.objects[m].waiters[1..]
      && first.thread in s.threads && first.thread in r.threads
      && (if s.threads[first.thread].waitType == WaitAny || s.threads[first.thread].active == 1
          then r.threads[first.thread].state == Ready && r.readied == s.readied + [first.thread]
          else r.threads[first.thread].state == Waiting && r.readied == s.readied)
  {
    hide Inv, ReleaseMutex;
    ReleaseOwner(s, me, m);
    ReleaseReadies(s, me, m);
  }

  lemma StepKeeps(s: Dispatcher, m: ObjectId, step: MutexStep)
    requires Inv(s) && MutexOk(s, m)
    ensures Inv(AfterStep(s, m, step)) && MutexOk(AfterStep(s, m, step), m)
  {
    hide Linked, Attempt, ReleaseMutex, Exclusive;
    match step
    case Release(me) =>
      if MayRelease(s, me, m) {
        if s.objects[m].waiters == [] {
          ReleaseFrees(s, me, m);
        } else {
          ReleaseHandsOver(s, me, m);
        }
      }
    case Other(other) =>
      if !Signals(other, m) {
        AttemptKeeps(s, other);
        StepConserves(s, other, m);
        OwnerFollowsSignal(s, other, m);
      }
  }

  /** A step that does not signal the mutex gives it an owner when it takes the signal, and never removes one. */
  lemma OwnerFollowsSignal(s: Dispatcher, step: Step, m: ObjectId)
    requires Inv(s) && MutexOk(s, m) && !Signals(step, m)
    ensures m in Attempt(s, step).objects
    ensures Attempt(s, step).objects[m].owner == None <==> Attempt(s, step).objects[m].signal == 1
  {
    hide Linked, Wait, Signal, UnwaitThread, Exclusive, Hangs, ClearedBy;
    QuietAt(s, m);
    if Enabled(s, step) {
      match step
      case WaitStep(me, ids, waitType, ownArray, poll) =>
        if |ids| > THREAD_WAIT_OBJECTS && !ownArray {
          WaitRejected(s, me, ids, waitType, ownArray, poll);
        } else {
          WaitEnds(s, me, ids, waitType, ownArray, poll);
          if m in ids {
            var j :| 0 <= j < |ids| && ids[j] == m;
          }
        }
      case SignalStep(me, p, increment) =>
        SignalElsewhere(s, me, p, increment, m);
        ClearedByCounts(s.objects[m], Completed(s, s.objects[p].waiters[..ReleasedBy(s, p, increment)]));
      case UnwaitStep(me, t, status) => UnwaitKeeps(s, me, t, status);
      case ExitStep(me, p) =>
        StateKeeps(s, me, Terminated);
        var d := WithState(s, me, Terminated);
        SignalElsewhere(d, me, p, WORD - 1, m);
        ClearedByCounts(s.objects[m], Completed(d, d.objects[p].waiters[..ReleasedBy(d, p, WORD - 1)]));
      case SwitchInStep(t) =>
      case SwitchOutStep(t) =>
      case NewThreadStep(t) =>
      case NewObjectStep(p, _, _) =>
    }
  }

  lemma QuietAt(s: Dispatcher, o: ObjectId)
    requires Inv(s) && o in s.objects
    ensures QuietObject(s.objects[o])
  {
    hide Linked;
  }

  /** Over every run, whatever the other threads wait for, the mutex has an owner exactly when it is not signalled. */
  lemma {:induction false} OwnedWhenTaken(s: Dispatcher, m: ObjectId, steps: seq<MutexStep>)
    requires Inv(s) && MutexOk(s, m)
    ensures Inv(AfterSteps(s, m, steps)) && MutexOk(AfterSteps(s, m, steps), m)
    decreases |steps|
  {
    hide Inv, MutexOk, AfterStep;
    if steps != [] {
      StepKeeps(s, m, steps[0]);
      OwnedWhenTaken(AfterStep(s, m, steps[0]), m, steps[1..]);
    }
  }

  /** An untimed wait for a mutex alone makes the caller its owner, or queues it behind the others. */
  lemma AcquireMutex(s: Dispatcher, me: ThreadId, m: ObjectId)
    requires Inv(s) && MutexOk(s, m) && MayWait(s, me, [m])
    ensures var (r, result) := Wait(s, me, [m], WaitAll, false, false);
      && MutexOk(r, m)
      && (result == Satisfied <==> s.objects[m].owner == None)
      && (result == Satisfied ==> r.objects[m].owner == Some(me))
      && (result != Satisfied ==>
           result == Blocked && r.objects[m] == s.objects[m].(waiters := s.objects[m].waiters + [Entry(me, 0)]))
  {
    hide Linked, Wait, Exclusive;
    WaitEnds(s, me, [m], WaitAll, false, false);
    assert [m][0] == m && m in [m];
    assert AllSignalled(s, [m]) <==> Signalled(s, m);
  }

  /** Steps of other threads with other objects never touch the owner or the queue behind it. */
  lemma OwnerStable(s: Dispatcher, m: ObjectId, step: Step)
    requires Inv(s) && MutexOk(s, m) && SoleWaiters(s, m) && Avoids(s, step, m)
    ensures m in Attempt(s, step).objects && Attempt(s, step).objects[m] == s.objects[m] && SoleWaiters(Attempt(s, step), m)
  {
    hide Attempt, Inv;
    StepAvoids(s, step, m);
  }

  /**
    Ending a wait from outside, as a timeout does, leaves the owner of a mutex alone exactly when
    the thread was not queued for the mutex, or owned it already.
  */
  lemma TimeoutKeepsOwner(s: Dispatcher, me: ThreadId, m: ObjectId, t: ThreadId, status: int)
    requires Inv(s) && MutexOk(s, m) && t in s.threads && s.threads[t].state == Waiting
    ensures m in UnwaitThread(s, me, t, status).objects
    ensures UnwaitThread(s, me, t, status).objects[m].owner == s.objects[m].owner
       <==> !Involves(s.objects[m].waiters, t) || s.objects[m].owner == Some(t)
  {
    hide Inv, UnwaitThread;
    UnwaitKeeps(s, me, t, status);
  }

  // --- a mutex that is lost

  /** Before anything has come up. */
  function Nothing(): Dispatcher {
    Dispatcher(map[], map[], [])
  }

  /** Threads 1 and 2 run and mutex 7 is free. */
  function Uncontended(): Dispatcher {
    Dispatcher(map[1 := Thread(Running, WaitAll, [], 0, 0), 2 := Thread(Running, WaitAll, [], 0, 0)],
               map[7 := Object(MutexKind, 1, [], None, 0)], [])
  }

  function Setup(): seq<Step> {
    [NewObjectStep(7, MutexKind, 1), NewThreadStep(1), NewThreadStep(2), SwitchInStep(1), SwitchInStep(2)]
  }

  /** A wait for the mutex alone, without a timeout. */
  function Acquire(me: ThreadId): Step {
    WaitStep(me, [7], WaitAll, false, false)
  }

  lemma SetUp()
    ensures Run(Nothing(), Setup()) == Uncontended() && Inv(Nothing()) && Inv(Uncontended())
  {
    var a := Nothing().WithObject(7, Object(MutexKind, 1, [], None, 0));
    var b := a.WithThread(1, Thread(Ready, WaitAll, [], 0, 0));
    var c := b.WithThread(2, Thread(Ready, WaitAll, [], 0, 0));
    var d := WithState(c, 1, Running);
    var e := WithState(d, 2, Running);
    assert Attempt(Nothing(), Setup()[0]) == a && Attempt(a, Setup()[1]) == b;
    assert Attempt(b, Setup()[2]) == c && Attempt(c, Setup()[3]) == d && Attempt(d, Setup()[4]) == e;
    assert e == Uncontended();
    RunKeeps(Nothing(), Setup());
  }

  lemma {:induction false} RunOn(s: Dispatcher, steps: seq<Step>, last: Step)
    ensures Run(s, steps + [last]) == Attempt(Run(s, steps), last)
    decreases |steps|
  {
    hide Attempt;
    if steps == [] {
      assert steps + [last] == [last] && [last][1..] == [];
    } else {
      RunOn(Attempt(s, steps[0]), steps[1..], last);
      assert (steps + [last])[1..] == steps[1..] + [last];
    }
  }

  /** Thread 1 becomes the owner, and thread 2 may still call. */
  lemma FirstTakes()
    ensures var r := Attempt(Uncontended(), Acquire(1));
      && Inv(r) && MutexOk(r, 7) && r.objects[7].owner == Some(1) && r.objects[7].waiters == [] && MayCall(r, 2, [7])
  {
    hide Inv, Linked, Wait, Exclusive;
    var s := Uncontended();
    SetUp();
    AcquireMutex(s, 1, 7);
    WaitEnds(s, 1, [7], WaitAll, false, false);
    AttemptKeeps(s, Acquire(1));
    assert [7][0] == 7;
  }

  /** Thread 2 queues up. */
  lemma SecondQueues(s: Dispatcher)
    requires Inv(s) && MutexOk(s, 7) && s.objects[7].owner == Some(1) && s.objects[7].waiters == [] && MayCall(s, 2, [7])
    ensures var r := Attempt(s, Acquire(2));
      && Inv(r) && MutexOk(r, 7) && r.objects[7].owner == Some(1) && r.objects[7].waiters == [Entry(2, 0)]
      && 2 in r.threads && r.threads[2].state == Waiting
  {
    hide Inv, Linked, Wait, Exclusive;
    AcquireMutex(s, 2, 7);
    WaitEnds(s, 2, [7], WaitAll, false, false);
    AttemptKeeps(s, Acquire(2));
  }

  /**
    A run from nothing after which thread 1 owns the mutex and thread 2 waits for it, so that a
    timeout of thread 2 takes it from thread 1, which has not released it, and gives it to thread 2.
  */
  lemma TimeoutStealsMutex()
    ensures var s := Run(Nothing(), Setup() + [Acquire(1)] + [Acquire(2)]);
      && Inv(s) && MutexOk(s, 7) && s.objects[7].owner == Some(1)
      && 2 in s.threads && s.threads[2].state == Waiting
      && var r := UnwaitThread(s, 1, 2, STATUS_TIMEOUT);
      && 7 in r.objects && r.objects[7].owner == Some(2)
  {
    hide Inv, UnwaitThread, Run, Attempt, MayCall, Setup, Uncontended;
    SetUp();
    RunOn(Nothing(), Setup(), Acquire(1));
    RunOn(Nothing(), Setup() + [Acquire(1)], Acquire(2));
    FirstTakes();
    SecondQueues(Attempt(Uncontended(), Acquire(1)));
    var s := Run(Nothing(), Setup() + [Acquire(1)] + [Acquire(2)]);
    assert s.objects[7].waiters[0] == Entry(2, 0);
    UnwaitKeeps(s, 1, 2, STATUS_TIMEOUT);
  }
}
