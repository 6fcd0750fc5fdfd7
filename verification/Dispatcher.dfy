/**
  The dispatcher as it runs: the wait blocks of the threads and the wait lists of the objects are
  updated in place by three mutually recursive routines, and every routine is shown to do what the
  state machine says.  The recursion ends because a thread leaves the waiting state before the
  rest of its blocks are released.
*/
module Dispatching {
  import opened Common
  import opened DispatcherModel
  import opened DispatcherLinks
  import opened DispatcherSignals
  import opened DispatcherWaits
  import opened DispatcherResults
  import Runs = DispatcherRuns
  import Mutexes
  import Semaphores
  import Queues

  class Kernel {
    var threads: map<ThreadId, Thread>
    var objects: map<ObjectId, Object>
    var readied: seq<ThreadId>
    var items: map<ObjectId, seq<Queues.Item>>
    var held: set<ObjectId> // the object locks this core holds
    const current: ThreadId

    constructor (threads: map<ThreadId, Thread>, objects: map<ObjectId, Object>, current: ThreadId)
      ensures this.threads == threads && this.objects == objects && this.current == current && readied == [] && items == map[] && held == {}
    {
      this.threads, this.objects, this.current, readied, items, held := threads, objects, current, [], map[], {};
    }

    function View(): Dispatcher
      reads this
    {
      Dispatcher(threads, objects, readied)
    }

    function Rank(t: ThreadId): nat
      reads this
    {
      if t in threads && threads[t].state == Waiting then 1 else 0
    }

    /**
      Takes a block off the wait list of its object and, if that was enough, ends the wait.  The
      caller holds the lock of the object; the core hangs when the rundown comes to a lock that it
      holds already.
    */
    method KiUnwaitWaitBlock(t: ThreadId, i: nat, designal: bool, status: int) returns (hangs: bool)
      requires Linked(View()) && View().HasBlock(t, i) && View().BlockObject(t, i) in held
      modifies this`threads, this`objects, this`readied, this`held
      ensures hangs <==> Spins(old(View()), t, i, old(held))
      ensures !hangs ==> View() == UnwaitBlock(old(View()), current, t, i, designal, status) && Linked(View())
      ensures !hangs ==> held == old(held)
      decreases Rank(t), if Rank(t) == 1 then 3 else 0
    {
      hide Linked, UnwaitThread, BlockReleased, MeetsHeld;
      ghost var s := View();
      var o := threads[t].blocks[i].value;
      var waitType := threads[t].waitType;
      ReleaseBlockKeeps(s, t, i, designal);
      UnwaitBlockEffect(s, current, t, i, designal, status);
      var obj := objects[o];
      if designal {
        obj := obj.(signal := Add32(obj.signal, WORD - 1), granted := obj.granted + 1);
      }
      if obj.kind == MutexKind {
        obj := obj.(owner := Some(t));
      }
      obj := obj.(waiters := Without(obj.waiters, Entry(t, i)));
      assert obj == Detach(s.objects[o], Entry(t, i), designal);
      objects := objects[o := obj];
      threads := threads[t := threads[t].(blocks := threads[t].blocks[i := None], active := threads[t].active - 1)];
      assert View() == ReleaseBlock(s, t, i, designal);
      hangs := false;
      if threads[t].state == Waiting {
        if threads[t].active == 0 {
          hangs := KeUnwaitThreadNoLock(t, status);
        } else if waitType == WaitAny {
          hangs := KeUnwaitThreadNoLock(t, i);
        }
      }
    }

    /** Ends the wait of a thread: its state first, then the blocks that are left. */
    method KeUnwaitThreadNoLock(t: ThreadId, status: int) returns (hangs: bool)
      requires Linked(View()) && t in threads
      modifies this`threads, this`objects, this`readied, this`held
      ensures hangs <==> MeetsHeld(old(threads[t].blocks), old(held))
      ensures !hangs ==> View() == UnwaitThread(old(View()), current, t, status) && Linked(View())
      ensures !hangs ==> held == old(held)
      decreases Rank(t), 2
    {
      hide Linked, ReleaseFrom;
      ghost var s := View();
      UnwaitThreadEffect(s, current, t, status);
      if threads[t].state == Waiting {
        if t == current {
          threads := threads[t := threads[t].(state := Running)];
        } else {
          threads := threads[t := threads[t].(state := Ready)];
          readied := readied + [t];
        }
      }
      assert View() == Wake(s, current, t);
      LinkedSame(s, View());
      hangs := false;
      if threads[t].blocks != [] {
        hangs := RundownWaitBlocks(t);
        if hangs {
          return;
        }
      } else {
        NothingToRunDown(View(), t);
      }
      threads := threads[t := threads[t].(status := status)];
    }

    /** Releases what is left of the blocks of a thread that waits no longer, taking the lock of each object. */
    method RundownWaitBlocks(t: ThreadId) returns (hangs: bool)
      requires Linked(View()) && t in threads && threads[t].state != Waiting
      modifies this`threads, this`objects, this`readied, this`held
      ensures hangs <==> MeetsHeld(old(threads[t].blocks), old(held))
      ensures !hangs ==> View() == Rundown(old(View()), t) && t in threads && held == old(held)
      decreases 0, 1
    {
      hide Linked, ReleaseBlock;
      ghost var s := View();
      var i := 0;
      while i < |threads[t].blocks|
        invariant t in threads && i <= |threads[t].blocks| == |s.threads[t].blocks|
        invariant Linked(View()) && threads[t].state == s.threads[t].state && held == old(held)
        invariant ReleaseFrom(View(), t, i) == ReleaseFrom(s, t, 0)
        invariant forall j :: i <= j < |s.threads[t].blocks| ==> threads[t].blocks[j] == s.threads[t].blocks[j]
        invariant forall j :: 0 <= j < i && s.threads[t].blocks[j].Some? ==> s.threads[t].blocks[j].value !in held
        decreases |s.threads[t].blocks| - i
      {
        SomeHasBlock(View(), t, i);
        if threads[t].blocks[i].Some? {
          ghost var before := View();
          var o := threads[t].blocks[i].value;
          if o in held {
            return true;
          }
          ReleaseBlockKeepsOthers(before, t, i);
          held := held + {o};
          var _ := KiUnwaitWaitBlock(t, i, false, 0);
          held := held - {o};
        }
        i := i + 1;
      }
      threads := threads[t := threads[t].(blocks := [])];
      hangs := false;
    }

    /** Adds to the signal state of an object and lets the blocks go that it suffices for. */
    method KiSignal(o: ObjectId, increment: nat)
      requires Linked(View()) && o in objects && current in threads && threads[current].blocks == [] && held == {o}
      modifies this`threads, this`objects, this`readied, this`held
      ensures View() == Signal(old(View()), current, o, increment) && held == {o}
    {
      hide Linked, ReleaseFirst, UnwaitBlock, FirstReleased, Spins;
      ghost var s := View();
      var signal := Add32(objects[o].signal, increment);
      SignalStateLinks(s, o, signal);
      objects := objects[o := objects[o].(signal := signal)];
      while objects[o].signal > 0 && objects[o].waiters != []
        invariant o in objects && Linked(View()) && objects[o].signal < WORD && held == {o}
        invariant current in threads && threads[current].blocks == []
        invariant ReleaseFirst(View(), current, o, Min(objects[o].signal, |objects[o].waiters|)) == Signal(s, current, o, increment)
        decreases objects[o].signal
      {
        ghost var m := View();
        HeadEntry(m, o);
        HeadReleased(m, current, o);
        ReleaseFirstStep(m, current, o, Min(objects[o].signal, |objects[o].waiters|));
        var e := objects[o].waiters[0];
        SignalNeverSpins(m, e.thread, e.block);
        var _ := KiUnwaitWaitBlock(e.thread, e.block, true, 0);
        HeadServed(m, View(), o);
      }
      NoneReleased(View(), current, o);
    }

    /** The running thread waits for all or any of several objects. */
    method KeWaitForMultipleObjects(ids: seq<ObjectId>, waitType: WaitType, ownArray: bool, poll: bool)
      returns (result: WaitResult)
      requires Linked(View()) && MayCall(View(), current, ids) && held == {}
      modifies this`threads, this`objects, this`readied, this`held
      ensures result == Wait(old(View()), current, ids, waitType, ownArray, poll).1
      ensures result == InvalidParameter <==> |ids| > 3 && !ownArray
      ensures result == TimedOut ==> current in threads && threads[current].state == Running && threads[current].status == 0x102
      ensures result != Hang && result != Fault ==>
        View() == Wait(old(View()), current, ids, waitType, ownArray, poll).0 && held == {}
    {
      hide Linked, UnwaitThread, UnwaitBlock, Spins, Scan, AddBlocks, Distinct, Locks;
      ghost var s := View();
      if |ids| > THREAD_WAIT_OBJECTS && !ownArray {
        return InvalidParameter;
      }
      var hangs := AcquireHeaderLocks(ids);
      if hangs {
        return Hang;
      }
      StartWaitKeeps(s, current, ids, waitType);
      QueueBlocks(ids);
      threads := threads[current := threads[current].(state := Waiting, waitType := waitType,
                           blocks := seq(|ids|, i requires 0 <= i < |ids| => Some(ids[i])), active := |ids|)];
      ghost var w := View();
      assert w == StartWait(s, current, ids, waitType);
      var stopped := ScanSignalled(ids, waitType);
      if stopped.Some? {
        return stopped.value;
      }
      ReleaseHeaderLocks(ids);
      if threads[current].active == 0 || (waitType == WaitAny && threads[current].active < |ids|) {
        return Satisfied;
      }
      if poll {
        UnwaitStatus(View(), current, current, STATUS_TIMEOUT);
        var _ := KeUnwaitThreadNoLock(current, STATUS_TIMEOUT);
        threads := threads[current := threads[current].(state := Running)];
        return TimedOut;
      }
      return Blocked;
    }

    /** Consumes the objects that are signalled already; the result is what keeps the scan from coming to its end. */
    method ScanSignalled(ids: seq<ObjectId>, waitType: WaitType) returns (stopped: Option<WaitResult>)
      requires Linked(View()) && current in threads && held == Locks(ids)
      requires |threads[current].blocks| == |ids| && forall j :: 0 <= j < |ids| ==> threads[current].blocks[j] == Some(ids[j])
      modifies this`threads, this`objects, this`readied, this`held
      ensures var scan := Scan(old(View()), current, ids, waitType, 0);
        match stopped
        case Some(result) => scan == Stopped(result) && (result == Hang || result == Fault)
        case None => scan == Through(View()) && Linked(View()) && held == old(held)
    {
      hide Linked, UnwaitThread, UnwaitBlock, Spins;
      ghost var w := View();
      var i := 0;
      while i < |ids|
        invariant i <= |ids| && Linked(View()) && current in threads && held == old(held)
        invariant forall j :: i <= j < |threads[current].blocks| && threads[current].blocks[j].Some? ==>
          threads[current].blocks[j].value in held
        invariant Scan(View(), current, ids, waitType, i) == Scan(w, current, ids, waitType, 0)
      {
        if i >= |threads[current].blocks| || threads[current].blocks[i].None? {
          return Some(Fault);
        }
        SomeHasBlock(View(), current, i);
        if objects[threads[current].blocks[i].value].signal != 0 {
          var status := if waitType == WaitAny then i else 0;
          UnwaitBlockBlocks(View(), current, i, status);
          var hangs := KiUnwaitWaitBlock(current, i, true, status);
          if hangs {
            return Some(Hang);
          }
        }
        i := i + 1;
      }
      stopped := None;
    }

    /** Takes the lock of each object; an object named twice is one whose lock this core holds. */
    method AcquireHeaderLocks(ids: seq<ObjectId>) returns (hangs: bool)
      requires held == {}
      modifies this`held
      ensures hangs <==> !Distinct(ids)
      ensures !hangs ==> held == Locks(ids)
    {
      var i := 0;
      while i < |ids|
        invariant i <= |ids| && held == Locks(ids[..i]) && Distinct(ids[..i])
      {
        if ids[i] in held {
          return true;
        }
        assert ids[..i + 1] == ids[..i] + [ids[i]];
        held := held + {ids[i]};
        i := i + 1;
      }
      assert ids[..|ids|] == ids;
      hangs := false;
    }

    method ReleaseHeaderLocks(ids: seq<ObjectId>)
      requires held == Locks(ids)
      modifies this`held
      ensures held == {}
    {
      var i := 0;
      while i < |ids|
        invariant i <= |ids| && held <= Locks(ids) && forall j :: 0 <= j < i ==> ids[j] !in held
      {
        held := held - {ids[i]};
        i := i + 1;
      }
    }

    /** Puts one block for each object at the end of the object's wait list. */
    method QueueBlocks(ids: seq<ObjectId>)
      requires forall o <- ids :: o in objects
      modifies this`objects
      ensures objects == AddBlocks(old(objects), current, ids, 0)
    {
      var i := 0;
      while i < |ids|
        invariant i <= |ids| && objects.Keys == old(objects.Keys)
        invariant AddBlocks(objects, current, ids, i) == AddBlocks(old(objects), current, ids, 0)
      {
        var o := ids[i];
        assert o in ids;
        objects := objects[o := objects[o].(waiters := objects[o].waiters + [Entry(current, i)])];
        i := i + 1;
      }
    }

    // --- mutexes, semaphores and queues

    /** The owner gives up a mutex. */
    method KeReleaseMutex(m: ObjectId)
      requires Inv(View()) && Mutexes.MayRelease(View(), current, m) && held == {}
      modifies this`threads, this`objects, this`readied, this`held
      ensures View() == Mutexes.ReleaseMutex(old(View()), current, m) && held == {}
    {
      hide Linked, Signal;
      Mutexes.DisownedKeeps(View(), m);
      assert Quiet(threads[current]);
      held := {m};
      objects := objects[m := objects[m].(owner := None)];
      KiSignal(m, 1);
      held := {};
    }

    method KeInitializeSemaphore(o: ObjectId, count: nat)
      requires o !in objects && count < WORD
      modifies this`objects
      ensures View() == Runs.Attempt(old(View()), Runs.NewObjectStep(o, SemaphoreKind, count))
    {
      objects := objects[o := Object(SemaphoreKind, count, [], None, 0)];
    }

    /** Adds to a semaphore; that the limit is exceeded is noticed and reported, but changes nothing. */
    method KeReleaseSemaphore(o: ObjectId, adjustment: nat, limit: nat) returns (previous: nat, exceeded: bool)
      requires Inv(View()) && MaySignal(View(), current, o) && held == {}
      modifies this`threads, this`objects, this`readied, this`held
      ensures previous == old(objects[o].signal) && (exceeded <==> previous + adjustment > limit)
      ensures View() == Signal(old(View()), current, o, adjustment) && held == {}
      ensures adjustment > 0 && !exceeded ==>
        View() == Semaphores.AfterStep(old(View()), o, limit, Semaphores.Release(current, adjustment))
    {
      hide Linked, Signal;
      held := {o};
      previous := objects[o].signal;
      exceeded := previous + adjustment > limit;
      assert Quiet(threads[current]);
      KiSignal(o, adjustment);
      held := {};
    }

    method KeInitializeQueue(q: ObjectId)
      requires Inv(View()) && q !in objects
      modifies this`objects, this`items
      ensures View() == Runs.Attempt(old(View()), Runs.NewObjectStep(q, QueueKind, 0))
      ensures items == old(items)[q := []] && Queues.QueueOk(Queues.QueueSystem(View(), items[q], {}), q)
    {
      hide Inv;
      Queues.QueueStarts(View(), q);
      objects := objects[q := Object(QueueKind, 0, [], None, 0)];
      items := items[q := []];
    }

    /** Inserts an item at either end of a queue and signals it. */
    method KiInsertQueue(q: ObjectId, item: Queues.Item, head: bool) returns (initialState: nat)
      requires Inv(View()) && MaySignal(View(), current, q) && q in items && held == {}
      modifies this`threads, this`objects, this`readied, this`items, this`held
      ensures initialState == old(objects[q].signal)
      ensures items == old(items)[q := if head then [item] + old(items[q]) else old(items[q]) + [item]]
      ensures var r := Queues.AfterInsert(Queues.QueueSystem(old(View()), old(items[q]), {}), q, current, item, head);
        View() == r.base && items == old(items)[q := r.items]
    {
      hide Linked, Signal;
      held := {q};
      initialState := objects[q].signal;
      assert Quiet(threads[current]);
      if head {
        items := items[q := [item] + items[q]];
      } else {
        items := items[q := items[q] + [item]];
      }
      KiSignal(q, 1);
      held := {};
    }

    /** Waits for a queue, and takes its first item if the wait is satisfied at once. */
    method KeRemoveQueue(q: ObjectId, poll: bool, ghost holders: set<ThreadId>) returns (result: WaitResult,
                         item: Option<Queues.Item>)
      requires q in items && q in objects
      requires Queues.QueueOk(Queues.QueueSystem(View(), items[q], holders), q)
      requires Queues.Happens(Queues.QueueSystem(View(), items[q], holders), q, Queues.Remove(current, poll))
      requires held == {}
      modifies this`threads, this`objects, this`readied, this`items, this`held
      ensures View() == Queues.AfterRemove(Queues.QueueSystem(old(View()), old(items[q]), holders), q, current, poll).base
      ensures result == Satisfied <==> old(objects[q].signal) > 0
      ensures result == Satisfied ==>
        old(items[q]) != [] && item == Some(old(items[q])[0]) && items == old(items)[q := old(items[q])[1..]]
      ensures result != Satisfied ==> item == None && items == old(items)
    {
      hide Linked, Wait;
      ghost var s := View();
      WaitEnds(s, current, [q], WaitAll, false, poll);
      assert AllSignalled(s, [q]) <==> Signalled(s, q);
      result := KeWaitForMultipleObjects([q], WaitAll, false, poll);
      item := None;
      if result == Satisfied {
        assert [q][0] == q;
        item := Some(items[q][0]);
        items := items[q := items[q][1..]];
      }
    }

    /**
      A removal that was blocked goes on: granted a signal it takes the first item, and otherwise
      returns the status of its wait.
    */
    method FinishRemoveQueue(q: ObjectId, ghost holders: set<ThreadId>) returns (item: Option<Queues.Item>, status: int)
      requires q in items && q in objects && current in threads
      requires Queues.QueueOk(Queues.QueueSystem(View(), items[q], holders), q)
      requires current in holders || threads[current].status != 0
      modifies this`items
      ensures status == old(threads[current].status) && (status == 0 <==> current in holders)
      ensures status == 0 ==>
        old(items[q]) != [] && item == Some(old(items[q])[0]) && items == old(items)[q := old(items[q])[1..]]
      ensures status != 0 ==> item == None && items == old(items)
      ensures Queues.QueueOk(Queues.QueueSystem(View(), items[q], holders - {current}), q)
    {
      hide Inv;
      status := threads[current].status;
      item := None;
      if status == 0 {
        item := Some(items[q][0]);
        items := items[q := items[q][1..]];
      } else {
        assert holders - {current} == holders;
      }
    }
  }

  lemma UnwaitStatus(s: Dispatcher, me: ThreadId, t: ThreadId, status: int)
    requires t in s.threads
    ensures UnwaitThread(s, me, t, status).threads[t].status == status
  {
    hide Rundown, Wake;
  }

  lemma NothingToRunDown(s: Dispatcher, t: ThreadId)
    requires t in s.threads && s.threads[t].blocks == []
    ensures Rundown(s, t) == s
  {
    assert s.threads[t := s.threads[t]] == s.threads;
  }

  lemma ReleaseBlockKeepsOthers(s: Dispatcher, t: ThreadId, i: nat)
    requires s.HasBlock(t, i)
    ensures ReleaseBlock(s, t, i, false).threads[t].blocks == s.threads[t].blocks[i := None]
    ensures ReleaseBlock(s, t, i, false).threads[t].state == s.threads[t].state
  {
  }

  /** Releasing a block leaves the other blocks of the thread, or none at all. */
  lemma UnwaitBlockBlocks(s: Dispatcher, t: ThreadId, i: nat, status: int)
    requires Linked(s) && s.HasBlock(t, i)
    ensures var r := UnwaitBlock(s, t, t, i, true, status);
      r.threads[t].blocks == [] || r.threads[t].blocks == s.threads[t].blocks[i := None]
  {
    hide Linked, UnwaitBlock;
    UnwaitBlockEffect(s, t, t, i, true, status);
  }
}
