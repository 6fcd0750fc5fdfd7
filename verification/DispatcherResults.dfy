/**
  The main properties of waits and signals: the result of every wait, the effect of every signal,
  and the invariant of every run.
*/
module DispatcherResults {
  import opened Common
  import opened DispatcherModel
  import opened DispatcherLinks
  import opened DispatcherSignals
  import opened DispatcherWaits

  /** A thread that does not wait has no blocks, and one that waits for any object has all of them. */
  predicate Quiet(thread: Thread) {
    && (thread.state != Waiting ==> thread.blocks == [])
    && (thread.state == Waiting && thread.waitType == WaitAny ==> thread.active == |thread.blocks|)
  }

  predicate Inv(s: Dispatcher) {
    Linked(s) && Exclusive(s) && forall t <- s.threads :: Quiet(s.threads[t])
  }

  // --- waits

  /** How a wait ends. */
  predicate WaitOutcome(s: Dispatcher, r: Dispatcher, me: ThreadId, ids: seq<ObjectId>, waitType: WaitType,
                        result: WaitResult) {
    && OthersUntouched(s, r, me)
    && ObjectsAfterWait(s, r, me, ids, result.Blocked?)
    && match result
       case Satisfied => CarriesOn(r, me, 0)
       case TimedOut => CarriesOn(r, me, 0x102)
       case Blocked => WaitsOn(s, r, me, ids) && r.threads[me].waitType == waitType
       case _ => false
  }

  /** An object is named twice, or one of several objects, any of which is enough, is signalled already. */
  predicate Hangs(s: Dispatcher, ids: seq<ObjectId>, waitType: WaitType) {
    || !Distinct(ids)
    || (waitType == WaitAny && |ids| >= 2 && exists j :: 0 <= j < |ids| && Signalled(s, ids[j]))
  }

  /** Everything the wait needs is signalled; of several objects for a wait for any none is, or the wait hangs. */
  predicate Satisfies(s: Dispatcher, ids: seq<ObjectId>, waitType: WaitType)
    requires ids != []
  {
    if waitType == WaitAll then AllSignalled(s, ids) else |ids| == 1 && Signalled(s, ids[0])
  }

  /** The state after the scan, when the thread still waits. */
  predicate StillWaiting(s: Dispatcher, m: Dispatcher, me: ThreadId, ids: seq<ObjectId>, waitType: WaitType) {
    && Linked(m) && OthersUntouched(s, m, me) && ObjectsAfterWait(s, m, me, ids, true)
    && WaitsOn(s, m, me, ids) && m.threads[me].waitType == waitType && m.threads[me].active > 0
  }

  lemma QueuedObject(s: Dispatcher, me: ThreadId, ids: seq<ObjectId>, waitType: WaitType, j: nat)
    requires Linked(s) && Exclusive(s) && MayWait(s, me, ids) && j < |ids|
    ensures ids[j] in s.objects && Taken(StartWait(s, me, ids, waitType).objects[ids[j]], Entry(me, j)) == AfterWait(s.objects[ids[j]], me, j, true)
    ensures Cleared(Taken(StartWait(s, me, ids, waitType).objects[ids[j]], Entry(me, j)), me) == AfterWait(s.objects[ids[j]], me, j, false)
  {
    hide Linked, Cleared, Taken, AfterWait;
    NewBlock(ids, j);
    StartWaitKeeps(s, me, ids, waitType);
    QueuedAndGone(s, me, j, ids[j]);
  }

  lemma StartedThread(s: Dispatcher, me: ThreadId, ids: seq<ObjectId>, waitType: WaitType)
    requires MayWait(s, me, ids)
    ensures var m := StartWait(s, me, ids, waitType);
      && OthersUntouched(s, m, me) && m.threads[me].state == Waiting && m.threads[me].waitType == waitType
      && m.threads[me].active == |ids| && |m.threads[me].blocks| == |ids|
      && forall j :: 0 <= j < |ids| ==> m.threads[me].blocks[j] == Some(ids[j])
  {
  }

  /** The objects after a scan that has consumed what was signalled. */
  lemma ScannedObjects(s: Dispatcher, m: Dispatcher, me: ThreadId, ids: seq<ObjectId>)
    requires Linked(s) && Exclusive(s) && MayWait(s, me, ids) && ids != []
    requires me in StartWait(s, me, ids, WaitAll).threads && forall o <- ids :: o in StartWait(s, me, ids, WaitAll).objects
    requires Scanned(StartWait(s, me, ids, WaitAll), m, me, ids, 0)
    ensures ObjectsAfterWait(s, m, me, ids, true)
  {
    hide Linked, Taken, Cleared, AfterWait, StartWait, ScannedThread;
    StartWaitKeeps(s, me, ids, WaitAll);
    assert ids[0..] == ids;
    forall j | 0 <= j < |ids|
      ensures m.objects[ids[j]] == AfterWait(s.objects[ids[j]], me, j, true)
    {
      QueuedObject(s, me, ids, WaitAll, j);
    }
  }

  lemma ScannedAll(s: Dispatcher, me: ThreadId, ids: seq<ObjectId>)
    requires Linked(s) && Exclusive(s) && MayWait(s, me, ids) && ids != []
    ensures Scan(StartWait(s, me, ids, WaitAll), me, ids, WaitAll, 0).Through?
    ensures var m := Scan(StartWait(s, me, ids, WaitAll), me, ids, WaitAll, 0).state;
      && OthersUntouched(s, m, me) && Linked(m) && ObjectsAfterWait(s, m, me, ids, true)
      && if AllSignalled(s, ids) then CarriesOn(m, me, 0) else StillWaiting(s, m, me, ids, WaitAll)
  {
    hide Linked, StartWait, Taken, Signalled, ObjectsAfterWait;
    var w := StartWait(s, me, ids, WaitAll);
    Started(s, me, ids, WaitAll);
    StartedThread(s, me, ids, WaitAll);
    ScanAllEffect(w, me, ids, 0);
    ScannedObjects(s, Scan(w, me, ids, WaitAll, 0).state, me, ids);
    CompleteIsAll(s, w, me, ids);
  }

  lemma CompleteIsAll(s: Dispatcher, w: Dispatcher, me: ThreadId, ids: seq<ObjectId>)
    requires Scanning(w, me, ids, 0)
    requires forall j :: 0 <= j < |ids| ==> (Signalled(w, ids[j]) <==> Signalled(s, ids[j]))
    ensures Complete(w, me, ids, 0) <==> AllSignalled(s, ids)
  {
  }

  /** Giving up a wait leaves no trace but what was consumed and the owner of a mutex. */
  lemma GivenUp(s: Dispatcher, m: Dispatcher, me: ThreadId, ids: seq<ObjectId>, waitType: WaitType)
    requires Linked(s) && Exclusive(s) && MayWait(s, me, ids) && StillWaiting(s, m, me, ids, waitType)
    ensures var u := UnwaitThread(m, me, me, STATUS_TIMEOUT);
      Linked(u) && OthersUntouched(s, u, me) && ObjectsAfterWait(s, u, me, ids, false) && CarriesOn(u, me, STATUS_TIMEOUT)
  {
    hide Linked, Cleared, AfterWait, UnwaitThread;
    UnwaitThreadEffect(m, me, me, STATUS_TIMEOUT);
    var u := UnwaitThread(m, me, me, STATUS_TIMEOUT);
    forall j | 0 <= j < |ids|
      ensures u.objects[ids[j]] == AfterWait(s.objects[ids[j]], me, j, false)
    {
      NewBlock(ids, j);
      QueuedAndGone(s, me, j, ids[j]);
    }
    forall p | p in s.objects && p !in ids
      ensures u.objects[p] == s.objects[p]
    {
      UninvolvedCleared(s, me, p);
    }
  }

  lemma UninvolvedCleared(s: Dispatcher, t: ThreadId, p: ObjectId)
    requires Linked(s) && t in s.threads && s.threads[t].blocks == [] && p in s.objects
    ensures Cleared(s.objects[p], t) == s.objects[p]
  {
  }

  lemma ScannedAnyNone(s: Dispatcher, me: ThreadId, ids: seq<ObjectId>)
    requires Linked(s) && Exclusive(s) && MayWait(s, me, ids) && ids != []
    requires forall j :: 0 <= j < |ids| ==> !Signalled(s, ids[j])
    ensures var m := StartWait(s, me, ids, WaitAny);
      Scan(m, me, ids, WaitAny, 0) == Through(m) && StillWaiting(s, m, me, ids, WaitAny) && m.threads[me].active == |ids|
  {
    hide Linked, StartWait;
    var m := StartWait(s, me, ids, WaitAny);
    Started(s, me, ids, WaitAny);
    StartedThread(s, me, ids, WaitAny);
    StartWaitKeeps(s, me, ids, WaitAny);
    ScanAnyNothing(m, me, ids, 0);
    assert ids[0..] == ids;
  }

  /** A single object that is signalled. */
  lemma ScannedAnySingle(s: Dispatcher, me: ThreadId, o: ObjectId)
    requires Linked(s) && Exclusive(s) && MayWait(s, me, [o]) && Signalled(s, o)
    ensures var r := Scan(StartWait(s, me, [o], WaitAny), me, [o], WaitAny, 0);
      && r.Through? && Linked(r.state) && OthersUntouched(s, r.state, me)
      && ObjectsAfterWait(s, r.state, me, [o], false) && CarriesOn(r.state, me, 0)
  {
    hide Linked, Detach, Cleared, AfterWait, UnwaitBlock, Purge;
    var ids := [o];
    assert ids[0] == o && o in ids && ids[0..] == ids;
    var m := StartWait(s, me, ids, WaitAny);
    Started(s, me, ids, WaitAny);
    StartWaitKeeps(s, me, ids, WaitAny);
    ScanAnyFirst(m, me, ids, 0, 0);
    UnwaitBlockEffect(m, me, me, 0, true, 0);
    QueuedObject(s, me, ids, WaitAny, 0);
    DetachedNotInvolved(m, me, 0, true);
    forall p | p in s.objects && p !in ids
      ensures UnwaitBlock(m, me, me, 0, true, 0).objects[p] == s.objects[p]
    {
      UninvolvedCleared(s, me, p);
    }
  }

  lemma FirstSignalled(s: Dispatcher, ids: seq<ObjectId>) returns (f: nat)
    requires exists j :: 0 <= j < |ids| && Signalled(s, ids[j])
    ensures f < |ids| && Signalled(s, ids[f]) && forall j :: 0 <= j < f ==> !Signalled(s, ids[j])
  {
    f := 0;
    while !Signalled(s, ids[f])
      invariant f < |ids| && forall j :: 0 <= j < f ==> !Signalled(s, ids[j])
      decreases |ids| - f
    {
      f := f + 1;
    }
  }

  /**
    The core hangs exactly when an object is named twice, or the wait is for any of several objects
    and one of them is signalled already: what ends the wait at once takes, with the locks of all
    objects held, the lock of another.  The null reference behind it is never reached.
  */
  lemma WaitHangs(s: Dispatcher, me: ThreadId, ids: seq<ObjectId>, waitType: WaitType, ownArray: bool, poll: bool)
    requires Inv(s) && MayCall(s, me, ids) && ids != [] && (|ids| <= THREAD_WAIT_OBJECTS || ownArray)
    ensures Wait(s, me, ids, waitType, ownArray, poll).1 == Hang <==> Hangs(s, ids, waitType)
    ensures Wait(s, me, ids, waitType, ownArray, poll).1 != Fault
  {
    hide Linked, Scan, StartWait, UnwaitThread, UnwaitBlock, ObjectsAfterWait, OthersUntouched, Signalled, Exclusive,
         MayCall;
    if !Distinct(ids) {
    } else if waitType == WaitAll {
      ScannedAll(s, me, ids);
    } else if exists j :: 0 <= j < |ids| && Signalled(s, ids[j]) {
      var f := FirstSignalled(s, ids);
      Started(s, me, ids, WaitAny);
      StartedThread(s, me, ids, WaitAny);
      ScanAnyFirst(StartWait(s, me, ids, WaitAny), me, ids, 0, f);
      if |ids| == 1 {
        assert ids == [ids[0]];
        ScannedAnySingle(s, me, ids[0]);
      }
    } else {
      ScannedAnyNone(s, me, ids);
    }
  }

  /**
    A wait that does not hang succeeds at once exactly when everything it needs is signalled; each
    signalled object it meets is consumed whether the wait succeeds or not.
  */
  lemma WaitEnds(s: Dispatcher, me: ThreadId, ids: seq<ObjectId>, waitType: WaitType, ownArray: bool, poll: bool)
    requires Inv(s) && MayCall(s, me, ids) && ids != [] && (|ids| <= THREAD_WAIT_OBJECTS || ownArray)
    requires !Hangs(s, ids, waitType)
    ensures var (r, result) := Wait(s, me, ids, waitType, ownArray, poll);
      && Linked(r) && WaitOutcome(s, r, me, ids, waitType, result)
      && result == if Satisfies(s, ids, waitType) then Satisfied else if poll then TimedOut else Blocked
  {
    hide Linked, Scan, StartWait, UnwaitThread, UnwaitBlock, ObjectsAfterWait, Signalled, Exclusive, MayCall;
    if waitType == WaitAll {
      ScannedAll(s, me, ids);
      var m := Scan(StartWait(s, me, ids, WaitAll), me, ids, WaitAll, 0).state;
      if AllSignalled(s, ids) {
        ConsumedAll(s, m, me, ids);
      } else {
        GivenUp(s, m, me, ids, WaitAll);
        RunningAlready(UnwaitThread(m, me, me, STATUS_TIMEOUT), me);
      }
    } else if Satisfies(s, ids, waitType) {
      assert ids == [ids[0]];
      ScannedAnySingle(s, me, ids[0]);
    } else {
      ScannedAnyNone(s, me, ids);
      var m := StartWait(s, me, ids, WaitAny);
      GivenUp(s, m, me, ids, WaitAny);
      RunningAlready(UnwaitThread(m, me, me, STATUS_TIMEOUT), me);
    }
  }

  /** The status of a thread whose wait has returned tells how: 0 that it was satisfied, 0x102 that it timed out. */
  lemma StatusTells(s: Dispatcher, me: ThreadId, ids: seq<ObjectId>, waitType: WaitType, ownArray: bool, poll: bool)
    requires Inv(s) && MayCall(s, me, ids) && ids != [] && (|ids| <= 3 || ownArray)
    requires !Hangs(s, ids, waitType)
    ensures var (r, result) := Wait(s, me, ids, waitType, ownArray, poll);
      && me in r.threads
      && (r.threads[me].state == Running && r.threads[me].status == 0 <==> result == Satisfied)
      && (r.threads[me].state == Running && r.threads[me].status == 0x102 <==> result == TimedOut)
      && (r.threads[me].state == Waiting <==> result == Blocked)
  {
    hide Linked, Wait, Exclusive, Hangs, Satisfies, ObjectsAfterWait;
    WaitEnds(s, me, ids, waitType, ownArray, poll);
  }

  /** Nobody waits, object 7 is a semaphore with nothing left and object 8 one with a unit. */
  function OneOfTwo(): Dispatcher {
    Dispatcher(map[1 := Thread(Running, WaitAll, [], 0, 0)],
               map[7 := Object(SemaphoreKind, 0, [], None, 0), 8 := Object(SemaphoreKind, 1, [], None, 0)], [])
  }

  /** A wait for either of them, the shape of the call at the end of the session manager, hangs; so does a wait for one twice. */
  lemma WaitForEitherHangs()
    ensures Inv(OneOfTwo()) && MayCall(OneOfTwo(), 1, [7, 8]) && Signalled(OneOfTwo(), 8) && !Signalled(OneOfTwo(), 7)
    ensures Wait(OneOfTwo(), 1, [7, 8], WaitAny, false, false).1 == Hang
    ensures Wait(OneOfTwo(), 1, [8, 8], WaitAll, false, false).1 == Hang
  {
    hide Wait;
    var s := OneOfTwo();
    assert [7, 8][1] == 8 && [8, 8][0] == [8, 8][1];
    WaitHangs(s, 1, [7, 8], WaitAny, false, false);
    WaitHangs(s, 1, [8, 8], WaitAll, false, false);
  }

  lemma RunningAlready(u: Dispatcher, me: ThreadId)
    requires me in u.threads && u.threads[me].state == Running
    ensures u.WithThread(me, u.threads[me].(state := Running)) == u
  {
    assert u.threads[me := u.threads[me]] == u.threads;
  }

  lemma ConsumedAll(s: Dispatcher, m: Dispatcher, me: ThreadId, ids: seq<ObjectId>)
    requires AllSignalled(s, ids) && ObjectsAfterWait(s, m, me, ids, true)
    ensures ObjectsAfterWait(s, m, me, ids, false)
  {
  }

  /** Waiting for no object at all reports success and leaves the thread waiting. */
  lemma WaitForNothing(s: Dispatcher, me: ThreadId, waitType: WaitType, ownArray: bool, poll: bool)
    requires me in s.threads
    ensures var (r, result) := Wait(s, me, [], waitType, ownArray, poll);
      result == Satisfied && r.threads[me].state == Waiting && r.threads[me].active == 0 && r.objects == s.objects
  {
  }

  // --- the invariant of waits

  lemma AfterWaitQuiet(obj: Object, me: ThreadId, j: nat, blocked: bool)
    requires QuietObject(obj)
    ensures QuietObject(AfterWait(obj, me, j, blocked))
  {
  }

  lemma WaitKeeps(s: Dispatcher, me: ThreadId, ids: seq<ObjectId>, waitType: WaitType, ownArray: bool, poll: bool)
    requires Inv(s) && MayCall(s, me, ids) && ids != [] && !Hangs(s, ids, waitType)
    ensures Inv(Wait(s, me, ids, waitType, ownArray, poll).0)
  {
    hide Linked, Wait, AfterWait;
    if |ids| > THREAD_WAIT_OBJECTS && !ownArray {
      WaitRejected(s, me, ids, waitType, ownArray, poll);
    } else {
      WaitEnds(s, me, ids, waitType, ownArray, poll);
      var r := Wait(s, me, ids, waitType, ownArray, poll).0;
      var result := Wait(s, me, ids, waitType, ownArray, poll).1;
      forall o | o in r.objects
        ensures QuietObject(r.objects[o])
      {
        if o in ids {
          var j :| 0 <= j < |ids| && ids[j] == o;
          AfterWaitQuiet(s.objects[o], me, j, result.Blocked?);
        }
      }
      if result == Blocked && waitType == WaitAny {
        BlockedAny(s, r, me, ids);
      }
    }
  }

  lemma WaitRejected(s: Dispatcher, me: ThreadId, ids: seq<ObjectId>, waitType: WaitType, ownArray: bool, poll: bool)
    requires me in s.threads && |ids| > THREAD_WAIT_OBJECTS && !ownArray
    ensures Wait(s, me, ids, waitType, ownArray, poll) == (s, InvalidParameter)
  {
  }

  lemma BlockedAny(s: Dispatcher, r: Dispatcher, me: ThreadId, ids: seq<ObjectId>)
    requires Linked(r) && WaitsOn(s, r, me, ids)
    requires forall j :: 0 <= j < |ids| ==> !Signalled(s, ids[j])
    ensures r.threads[me].active == |r.threads[me].blocks|
  {
    LinkedParts(r, me);
    CountAll(r.threads[me].blocks);
  }

  // --- signals

  /** How many blocks a signal releases. */
  function ReleasedBy(s: Dispatcher, o: ObjectId, increment: nat): (k: nat)
    requires o in s.objects
    ensures k <= |s.objects[o].waiters|
  {
    Min(Add32(s.objects[o].signal, increment), |s.objects[o].waiters|)
  }

  /** The caller of a signal is not waiting itself. */
  predicate MaySignal(s: Dispatcher, me: ThreadId, o: ObjectId) {
    me in s.threads && s.threads[me].state != Waiting && o in s.objects
  }

  lemma SignalReleases(s: Dispatcher, me: ThreadId, o: ObjectId, increment: nat)
    requires Inv(s) && MaySignal(s, me, o)
    ensures var bumped := s.WithObject(o, s.objects[o].(signal := Add32(s.objects[o].signal, increment)));
      var r := Signal(s, me, o, increment);
      Linked(r) && FirstReleased(bumped, r, o, ReleasedBy(s, o, increment))
  {
    hide Linked, FirstReleased, ReleaseFirst, Exclusive;
    var bumped := s.WithObject(o, s.objects[o].(signal := Add32(s.objects[o].signal, increment)));
    SignalStateLinks(s, o, Add32(s.objects[o].signal, increment));
    ReleaseFirstEffect(bumped, me, o, ReleasedBy(s, o, increment));
  }

  lemma SignalStateLinks(s: Dispatcher, o: ObjectId, signal: nat)
    requires Linked(s) && o in s.objects
    ensures Linked(s.WithObject(o, s.objects[o].(signal := signal)))
  {
  }

  /**
    Signals are conserved and blocks go first come, first served: what was there and what was
    added is what is left and one for each released block, and waiters remain only when no signal
    does.
  */
  lemma SignalConserves(s: Dispatcher, me: ThreadId, o: ObjectId, increment: nat)
    requires Inv(s) && MaySignal(s, me, o)
    ensures var before := s.objects[o];
      var k := ReleasedBy(s, o, increment);
      var r := Signal(s, me, o, increment);
      && o in r.objects && r.objects[o].signal + k == (before.signal + increment) % 0x1_0000_0000
      && r.objects[o].granted == before.granted + k && r.objects[o].kind == before.kind
      && before.waiters == before.waiters[..k] + r.objects[o].waiters
      && (r.objects[o].signal == 0 || r.objects[o].waiters == [])
      && (before.kind == MutexKind && k > 0 ==> r.objects[o].owner == Some(before.waiters[k - 1].thread))
      && (before.kind != MutexKind || k == 0 ==> r.objects[o].owner == before.owner)
  {
    hide Linked, Signal, ClearedBy, ThreadReleased;
    SignalReleases(s, me, o, increment);
  }

  /**
    The threads readied by a signal are, in the order of their blocks, those for whom the released
    block was the last one or any one was enough; the other threads whose block is released keep
    waiting, and all other threads are as before.
  */
  lemma SignalReadies(s: Dispatcher, me: ThreadId, o: ObjectId, increment: nat)
    requires Inv(s) && MaySignal(s, me, o)
    ensures var entries := s.objects[o].waiters[..ReleasedBy(s, o, increment)];
      var r := Signal(s, me, o, increment);
      && r.threads.Keys == s.threads.Keys
      && r.readied == s.readied + Completed(s, entries)
      && (forall e <- entries :: e.thread in s.threads && e.thread in r.threads && s.threads[e.thread].state == Waiting
           && if s.threads[e.thread].waitType == WaitAny || s.threads[e.thread].active == 1
              then && r.threads[e.thread].state == Ready && r.threads[e.thread].blocks == []
                   && r.threads[e.thread].status == (if s.threads[e.thread].waitType == WaitAny then e.block else 0)
              else && r.threads[e.thread].state == Waiting
                   && r.threads[e.thread].waitType == WaitAll
                   && r.threads[e.thread].active == s.threads[e.thread].active - 1 > 0)
      && (forall t <- s.threads :: !Involves(entries, t) ==> r.threads[t] == s.threads[t])
  {
    hide Signal, ClearedBy, Served;
    SignalReleases(s, me, o, increment);
    var bumped := s.WithObject(o, s.objects[o].(signal := Add32(s.objects[o].signal, increment)));
    var entries := s.objects[o].waiters[..ReleasedBy(s, o, increment)];
    var r := Signal(s, me, o, increment);
    assert Completed(bumped, entries) == Completed(s, entries) by {
      forall e | e in entries
        ensures e.thread in s.threads
      {
        LinkedObject(s, o);
        assert PointsBack(s, e, o);
      }
      CompletedSame(s, bumped, entries);
    }
    forall e | e in entries
      ensures e.thread in s.threads && e.thread in r.threads
      ensures s.threads[e.thread].state == Waiting && s.threads[e.thread].active > 0
      ensures r.threads[e.thread] == ThreadAfterRelease(s.threads[e.thread], false, e.block, 0)
      ensures s.threads[e.thread].waitType == WaitAny && s.threads[e.thread].active == 1 ==> e.block == 0
    {
      assert ThreadReleased(bumped, r, e);
      LinkedObject(s, o);
      assert PointsBack(s, e, o);
      assert Quiet(s.threads[e.thread]);
      assert s.threads[e.thread].blocks != [];
    }
  }

  lemma {:induction false} ClearedByQuiet(obj: Object, threads: seq<ThreadId>)
    requires QuietObject(obj)
    ensures QuietObject(ClearedBy(obj, threads))
    decreases |threads|
  {
    if threads != [] {
      assert QuietObject(Cleared(obj, threads[0])) by {
        assert obj.waiters == [] ==> !Involves(obj.waiters, threads[0]);
      }
      ClearedByQuiet(Cleared(obj, threads[0]), threads[1..]);
    }
  }

  lemma SignalKeeps(s: Dispatcher, me: ThreadId, o: ObjectId, increment: nat)
    requires Inv(s) && MaySignal(s, me, o)
    ensures Inv(Signal(s, me, o, increment))
  {
    hide Linked, Signal, ClearedBy, Completed, Completes;
    SignalReleases(s, me, o, increment);
    SignalConserves(s, me, o, increment);
    SignalReadies(s, me, o, increment);
    var bumped := s.WithObject(o, s.objects[o].(signal := Add32(s.objects[o].signal, increment)));
    var entries := s.objects[o].waiters[..ReleasedBy(s, o, increment)];
    var r := Signal(s, me, o, increment);
    forall p | p in r.objects
      ensures QuietObject(r.objects[p])
    {
      if p != o {
        ClearedByQuiet(s.objects[p], Completed(bumped, entries));
      }
    }
    forall t | t in r.threads
      ensures Quiet(r.threads[t])
    {
      assert Quiet(s.threads[t]);
      if Involves(entries, t) {
        var e :| e in entries && e.thread == t;
      }
    }
  }
}
