/**
  What a step does to one object: who can change its signal state, its wait list and its owner.
*/
module DispatcherFrames {
  import opened Common
  import opened DispatcherModel
  import opened DispatcherLinks
  import opened DispatcherSignals
  import opened DispatcherWaits
  import opened DispatcherResults
  import opened DispatcherRuns

  /** The object a step signals, if any. */
  predicate Signals(step: Step, o: ObjectId) {
    (step.SignalStep? || step.ExitStep?) && step.o == o
  }

  /** Only the owner, which the end of a wait can change, and the wait list differ. */
  predicate SameCounts(a: Object, b: Object) {
    a.kind == b.kind && a.signal == b.signal && a.granted == b.granted
  }

  lemma {:induction false} ClearedByCounts(obj: Object, threads: seq<ThreadId>)
    ensures SameCounts(ClearedBy(obj, threads), obj)
    ensures obj.waiters == [] ==> ClearedBy(obj, threads) == obj
    ensures ClearedBy(obj, threads).owner != obj.owner ==> obj.kind == MutexKind && obj.waiters != [] && ClearedBy(obj, threads).owner.Some?
    decreases |threads|
  {
    if threads != [] {
      ClearedByCounts(Cleared(obj, threads[0]), threads[1..]);
    }
  }

  lemma SignalElsewhere(s: Dispatcher, me: ThreadId, p: ObjectId, increment: nat, o: ObjectId)
    requires Inv(s) && MaySignal(s, me, p) && o in s.objects && o != p
    ensures o in Signal(s, me, p, increment).objects
    ensures Signal(s, me, p, increment).objects[o]
         == ClearedBy(s.objects[o], Completed(s, s.objects[p].waiters[..ReleasedBy(s, p, increment)]))
  {
    hide Linked, Signal, ClearedBy;
    SignalReleases(s, me, p, increment);
    var entries := s.objects[p].waiters[..ReleasedBy(s, p, increment)];
    var bumped := s.WithObject(p, s.objects[p].(signal := Add32(s.objects[p].signal, increment)));
    forall e | e in entries
      ensures e.thread in s.threads
    {
      LinkedObject(s, p);
      assert PointsBack(s, e, p);
    }
    CompletedSame(s, bumped, entries);
  }

  /**
    Every signal is accounted for: a step other than a signal to the object leaves the sum of what
    is left and what was granted alone.
  */
  lemma StepConserves(s: Dispatcher, step: Step, o: ObjectId)
    requires Inv(s) && o in s.objects && !Signals(step, o)
    ensures var r := Attempt(s, step);
      o in r.objects && r.objects[o].kind == s.objects[o].kind
      && r.objects[o].signal + r.objects[o].granted == s.objects[o].signal + s.objects[o].granted
      && r.objects[o].signal <= s.objects[o].signal
  {
    hide Linked, Wait, Signal, UnwaitThread, Exclusive, Hangs, ClearedBy;
    if Enabled(s, step) {
      match step
      case WaitStep(me, ids, waitType, ownArray, poll) => WaitConserves(s, me, ids, waitType, ownArray, poll, o);
      case SignalStep(me, p, increment) =>
        SignalElsewhere(s, me, p, increment, o);
        ClearedByCounts(s.objects[o], Completed(s, s.objects[p].waiters[..ReleasedBy(s, p, increment)]));
      case UnwaitStep(me, t, status) => UnwaitKeeps(s, me, t, status);
      case ExitStep(me, p) =>
        StateKeeps(s, me, Terminated);
        var d := WithState(s, me, Terminated);
        SignalElsewhere(d, me, p, WORD - 1, o);
        ClearedByCounts(s.objects[o], Completed(d, d.objects[p].waiters[..ReleasedBy(d, p, WORD - 1)]));
      case SwitchInStep(t) =>
      case SwitchOutStep(t) =>
      case NewThreadStep(t) =>
      case NewObjectStep(p, _, _) =>
    }
  }

  lemma WaitConserves(s: Dispatcher, me: ThreadId, ids: seq<ObjectId>, waitType: WaitType, ownArray: bool, poll: bool,
                      o: ObjectId)
    requires Inv(s) && MayCall(s, me, ids) && ids != [] && !Hangs(s, ids, waitType) && o in s.objects
    ensures var r := Wait(s, me, ids, waitType, ownArray, poll).0;
      o in r.objects && r.objects[o].kind == s.objects[o].kind
      && r.objects[o].signal + r.objects[o].granted == s.objects[o].signal + s.objects[o].granted
      && r.objects[o].signal <= s.objects[o].signal
  {
    hide Linked, Wait, Exclusive, Hangs;
    if |ids| > THREAD_WAIT_OBJECTS && !ownArray {
      WaitRejected(s, me, ids, waitType, ownArray, poll);
    } else {
      WaitEnds(s, me, ids, waitType, ownArray, poll);
      if o in ids {
        var j :| 0 <= j < |ids| && ids[j] == o;
      }
    }
  }

  // --- objects that are only waited for alone

  /** Whoever waits for the object waits for nothing else. */
  predicate SoleWaiters(s: Dispatcher, o: ObjectId)
    requires o in s.objects
  {
    forall e <- s.objects[o].waiters :: e.thread in s.threads && s.threads[e.thread].blocks == [Some(o)]
  }

  /** A step that neither signals the object nor waits for it nor ends a wait for it. */
  predicate Avoids(s: Dispatcher, step: Step, o: ObjectId)
    requires o in s.objects
  {
    && !Signals(step, o)
    && (step.WaitStep? ==> o !in step.ids)
    && (step.UnwaitStep? ==> !Involves(s.objects[o].waiters, step.t))
  }

  lemma {:induction false} ClearedByNobody(obj: Object, threads: seq<ThreadId>)
    requires forall t <- threads :: !Involves(obj.waiters, t)
    ensures ClearedBy(obj, threads) == obj
    decreases |threads|
  {
    hide Involves;
    if threads != [] {
      assert threads[0] in threads;
      ClearedByNobody(obj, threads[1..]);
    }
  }

  lemma {:induction false} CompletedMembers(s: Dispatcher, entries: seq<Entry>)
    ensures forall t <- Completed(s, entries) :: Involves(entries, t)
  {
    if entries != [] {
      CompletedMembers(s, entries[1..]);
      forall t | t in Completed(s, entries)
        ensures Involves(entries, t)
      {
        if t == entries[0].thread {
          assert entries[0] in entries;
        } else {
          assert Involves(entries[1..], t);
          var e :| e in entries[1..] && e.thread == t;
          assert e in entries;
        }
      }
    }
  }

  /** A thread that waits for this object alone is on no other list. */
  lemma SoleElsewhere(s: Dispatcher, o: ObjectId, p: ObjectId, t: ThreadId)
    requires Linked(s) && o in s.objects && p in s.objects && o != p && SoleWaiters(s, o)
    requires Involves(s.objects[o].waiters, t)
    ensures !Involves(s.objects[p].waiters, t)
  {
  }

  lemma SignalAvoids(s: Dispatcher, me: ThreadId, p: ObjectId, increment: nat, o: ObjectId)
    requires Inv(s) && MaySignal(s, me, p) && o in s.objects && o != p && SoleWaiters(s, o)
    ensures var r := Signal(s, me, p, increment);
      o in r.objects && r.objects[o] == s.objects[o] && SoleWaiters(r, o)
  {
    hide Linked, Signal, ClearedBy, Completed, Exclusive;
    var entries := s.objects[p].waiters[..ReleasedBy(s, p, increment)];
    SignalElsewhere(s, me, p, increment, o);
    CompletedMembers(s, entries);
    forall t | Involves(s.objects[o].waiters, t)
      ensures !Involves(entries, t)
    {
      SoleElsewhere(s, o, p, t);
      assert forall e <- entries :: e in s.objects[p].waiters;
    }
    ClearedByNobody(s.objects[o], Completed(s, entries));
    SignalReadies(s, me, p, increment);
    forall e | e in s.objects[o].waiters
      ensures var r := Signal(s, me, p, increment); e.thread in r.threads && r.threads[e.thread] == s.threads[e.thread]
    {
      assert Involves(s.objects[o].waiters, e.thread);
    }
  }

  /** Steps that avoid the object leave it, and the threads that wait for it, exactly as they are. */
  lemma StepAvoids(s: Dispatcher, step: Step, o: ObjectId)
    requires Inv(s) && o in s.objects && SoleWaiters(s, o) && Avoids(s, step, o)
    ensures var r := Attempt(s, step);
      o in r.objects && r.objects[o] == s.objects[o] && SoleWaiters(r, o)
  {
    hide Linked, Wait, Signal, UnwaitThread, Exclusive, Hangs;
    if Enabled(s, step) {
      match step
      case WaitStep(me, ids, waitType, ownArray, poll) =>
        if |ids| > THREAD_WAIT_OBJECTS && !ownArray {
          WaitRejected(s, me, ids, waitType, ownArray, poll);
        } else {
          WaitEnds(s, me, ids, waitType, ownArray, poll);
          NoBlocksNoEntries(s, me, o);
        }
      case SignalStep(me, p, increment) => SignalAvoids(s, me, p, increment, o);
      case UnwaitStep(me, t, status) => UnwaitKeeps(s, me, t, status);
      case ExitStep(me, p) =>
        StateKeeps(s, me, Terminated);
        SignalAvoids(WithState(s, me, Terminated), me, p, WORD - 1, o);
      case SwitchInStep(t) =>
      case SwitchOutStep(t) =>
      case NewThreadStep(t) =>
      case NewObjectStep(p, _, _) =>
    }
  }

  // --- threads that are left alone

  /** A step of the thread itself that starts a wait or ends it for good. */
  predicate ActsOn(step: Step, t: ThreadId) {
    (step.WaitStep? || step.ExitStep?) && step.me == t
  }

  /** What a wait has returned to a thread stays until the thread waits again. */
  lemma StepSpares(s: Dispatcher, step: Step, t: ThreadId)
    requires Inv(s) && t in s.threads && s.threads[t].state != Waiting && !ActsOn(step, t)
    ensures var r := Attempt(s, step);
      t in r.threads && r.threads[t].state != Waiting && r.threads[t].status == s.threads[t].status
  {
    hide Linked, Wait, Signal, UnwaitThread, Exclusive, Hangs, Completed;
    if Enabled(s, step) {
      match step
      case WaitStep(me, ids, waitType, ownArray, poll) =>
        if |ids| > THREAD_WAIT_OBJECTS && !ownArray {
          WaitRejected(s, me, ids, waitType, ownArray, poll);
        } else {
          WaitEnds(s, me, ids, waitType, ownArray, poll);
        }
      case SignalStep(me, p, increment) => SignalSpares(s, me, p, increment, t);
      case UnwaitStep(me, u, status) => UnwaitKeeps(s, me, u, status);
      case ExitStep(me, p) =>
        StateKeeps(s, me, Terminated);
        SignalSpares(WithState(s, me, Terminated), me, p, WORD - 1, t);
      case SwitchInStep(u) =>
      case SwitchOutStep(u) =>
      case NewThreadStep(u) =>
      case NewObjectStep(p, _, _) =>
    }
  }

  lemma SignalSpares(s: Dispatcher, me: ThreadId, p: ObjectId, increment: nat, t: ThreadId)
    requires Inv(s) && MaySignal(s, me, p) && t in s.threads && s.threads[t].state != Waiting
    ensures var r := Signal(s, me, p, increment); t in r.threads && r.threads[t] == s.threads[t]
  {
    hide Linked, Signal, Exclusive, Completed;
    SignalReadies(s, me, p, increment);
  }
}
