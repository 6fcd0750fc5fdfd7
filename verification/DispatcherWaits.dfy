/**
  What a wait does: blocks are queued on every object, the objects that are signalled already are
  consumed one after the other, and what is left decides whether the thread blocks.
*/
module DispatcherWaits {
  import opened Common
  import opened DispatcherModel
  import opened DispatcherLinks

  /** The blocks from `i` on are queued on their objects, and nothing else is. */
  predicate Added(before: map<ObjectId, Object>, after: map<ObjectId, Object>, me: ThreadId, ids: seq<ObjectId>, i: nat)
    requires i <= |ids| && forall o <- ids :: o in before
  {
    && after.Keys == before.Keys
    && (forall j :: i <= j < |ids| ==>
         after[ids[j]] == before[ids[j]].(waiters := before[ids[j]].waiters + [Entry(me, j)]))
    && (forall p <- before :: p !in ids[i..] ==> after[p] == before[p])
  }

  lemma {:induction false} AddBlocksEffect(objects: map<ObjectId, Object>, me: ThreadId, ids: seq<ObjectId>, i: nat)
    requires i <= |ids| && Distinct(ids) && forall o <- ids :: o in objects
    ensures Added(objects, AddBlocks(objects, me, ids, i), me, ids, i)
    decreases |ids| - i
  {
    if i < |ids| {
      var next := objects[ids[i] := objects[ids[i]].(waiters := objects[ids[i]].waiters + [Entry(me, i)])];
      AddBlocksEffect(next, me, ids, i + 1);
      assert ids[i] !in ids[i + 1..];
      assert ids[i..] == [ids[i]] + ids[i + 1..];
      forall p | p in objects && p !in ids[i..]
        ensures AddBlocks(objects, me, ids, i)[p] == objects[p]
      {
        assert p !in ids[i + 1..] && p != ids[i];
      }
    }
  }

  /** A running thread names objects to wait for. */
  predicate MayCall(s: Dispatcher, me: ThreadId, ids: seq<ObjectId>) {
    && me in s.threads && s.threads[me].state == Running && s.threads[me].blocks == []
    && forall o <- ids :: o in s.objects
  }

  /** It names none of them twice. */
  predicate MayWait(s: Dispatcher, me: ThreadId, ids: seq<ObjectId>) {
    MayCall(s, me, ids) && Distinct(ids)
  }

  lemma NewBlock(ids: seq<ObjectId>, j: nat)
    requires j < |ids|
    ensures ids[j] in ids
  {
  }

  lemma StartWaitKeepsThread(s: Dispatcher, me: ThreadId, ids: seq<ObjectId>, waitType: WaitType, u: ThreadId)
    requires Linked(s) && MayWait(s, me, ids) && u in s.threads
    ensures ThreadLinked(StartWait(s, me, ids, waitType), u)
  {
    var r := StartWait(s, me, ids, waitType);
    AddBlocksEffect(s.objects, me, ids, 0);
    assert ids[0..] == ids;
    LinkedParts(s, u);
    if u == me {
      CountAll(r.threads[me].blocks);
      forall j | 0 <= j < |ids|
        ensures Queued(r, me, j, ids[j])
      {
        assert Entry(me, j) in [Entry(me, j)];
        NewBlock(ids, j);
      }
    } else {
      forall j | 0 <= j < |r.threads[u].blocks| && r.threads[u].blocks[j].Some?
        ensures Queued(r, u, j, r.threads[u].blocks[j].value)
      {
        assert Queued(s, u, j, s.threads[u].blocks[j].value);
      }
    }
  }

  lemma NoDuplicatesAppend(entries: seq<Entry>, e: Entry)
    requires NoDuplicates(entries) && e !in entries
    ensures NoDuplicates(entries + [e])
  {
  }

  lemma StartWaitKeepsObject(s: Dispatcher, me: ThreadId, ids: seq<ObjectId>, waitType: WaitType, p: ObjectId)
    requires Linked(s) && MayWait(s, me, ids) && p in s.objects
    ensures ObjectLinked(StartWait(s, me, ids, waitType), p)
  {
    var r := StartWait(s, me, ids, waitType);
    AddBlocksEffect(s.objects, me, ids, 0);
    assert ids[0..] == ids;
    LinkedObject(s, p);
    forall e | e in s.objects[p].waiters
      ensures PointsBack(r, e, p) && e.thread != me
    {
      assert PointsBack(s, e, p);
    }
    if p in ids {
      var j :| 0 <= j < |ids| && ids[j] == p;
      NoDuplicatesAppend(s.objects[p].waiters, Entry(me, j));
      assert PointsBack(r, Entry(me, j), p);
    }
  }

  lemma StartWaitKeeps(s: Dispatcher, me: ThreadId, ids: seq<ObjectId>, waitType: WaitType)
    requires Linked(s) && MayWait(s, me, ids)
    ensures Linked(StartWait(s, me, ids, waitType))
    ensures Added(s.objects, StartWait(s, me, ids, waitType).objects, me, ids, 0)
  {
    var r := StartWait(s, me, ids, waitType);
    AddBlocksEffect(s.objects, me, ids, 0);
    forall u | u in r.threads
      ensures ThreadLinked(r, u)
    {
      StartWaitKeepsThread(s, me, ids, waitType, u);
    }
    forall p | p in r.objects
      ensures ObjectLinked(r, p)
    {
      StartWaitKeepsObject(s, me, ids, waitType, p);
    }
  }

  // --- the scan over the objects that are signalled already

  /** The scan for all of the objects has come to block `i`. */
  predicate Scanning(s: Dispatcher, me: ThreadId, ids: seq<ObjectId>, i: nat) {
    && Linked(s) && me in s.threads && i <= |ids| && Distinct(ids)
    && (forall o <- ids :: o in s.objects && s.objects[o].signal < WORD)
    && var thread := s.threads[me];
    && thread.state == Waiting && |thread.blocks| == |ids| && thread.active > 0
    && (forall j :: i <= j < |ids| ==> thread.blocks[j] == Some(ids[j]))
  }

  predicate Signalled(s: Dispatcher, o: ObjectId) {
    o in s.objects && s.objects[o].signal > 0
  }

  function Taken(obj: Object, e: Entry): Object {
    if obj.signal == 0 then obj else Detach(obj, e, true)
  }

  /** Whether the objects from `i` on are all that the thread waits for, and all signalled. */
  predicate Complete(s: Dispatcher, me: ThreadId, ids: seq<ObjectId>, i: nat)
    requires me in s.threads
  {
    var blocks := s.threads[me].blocks;
    |blocks| == |ids| && forall j :: 0 <= j < |ids| && blocks[j].Some? ==> i <= j && Signalled(s, ids[j])
  }

  predicate Scanned(s: Dispatcher, r: Dispatcher, me: ThreadId, ids: seq<ObjectId>, i: nat)
    requires me in s.threads && i <= |ids| && forall o <- ids :: o in s.objects
  {
    && r.objects.Keys == s.objects.Keys && r.threads.Keys == s.threads.Keys && r.readied == s.readied
    && (forall t <- s.threads :: t != me ==> r.threads[t] == s.threads[t])
    && (forall j :: i <= j < |ids| ==> r.objects[ids[j]] == Taken(s.objects[ids[j]], Entry(me, j)))
    && (forall p <- s.objects :: p !in ids[i..] ==> r.objects[p] == s.objects[p])
    && ScannedThread(s, r, me, ids, i)
  }

  predicate ScannedThread(s: Dispatcher, r: Dispatcher, me: ThreadId, ids: seq<ObjectId>, i: nat)
    requires me in s.threads && me in r.threads
  {
    if Complete(s, me, ids, i) then r.threads[me] == Finished(s.threads[me], true, 0)
    else
      && |r.threads[me].blocks| == |ids| == |s.threads[me].blocks| && r.threads[me].active > 0
      && r.threads[me] == s.threads[me].(blocks := r.threads[me].blocks, active := r.threads[me].active)
      && forall j :: 0 <= j < |ids| ==>
        r.threads[me].blocks[j] == if i <= j && Signalled(s, ids[j]) then None else s.threads[me].blocks[j]
  }

  /** Nothing is left to scan. */
  lemma ScanEnd(s: Dispatcher, me: ThreadId, ids: seq<ObjectId>)
    requires Scanning(s, me, ids, |ids|)
    ensures Scan(s, me, ids, WaitAll, |ids|) == Through(s) && Scanned(s, s, me, ids, |ids|)
  {
    LinkedParts(s, me);
    CountZero(s.threads[me].blocks);
    assert ids[|ids|..] == [];
  }

  /** An object that is not signalled is passed over. */
  lemma ScanPass(s: Dispatcher, r: Dispatcher, me: ThreadId, ids: seq<ObjectId>, i: nat)
    requires Scanning(s, me, ids, i) && i < |ids| && s.objects[ids[i]].signal == 0
    requires Scanned(s, r, me, ids, i + 1)
    ensures Scanned(s, r, me, ids, i)
  {
  }

  /** What is left of a state in which block `i` of the waiting thread has just been consumed. */
  predicate Consumed(s: Dispatcher, m: Dispatcher, me: ThreadId, ids: seq<ObjectId>, i: nat)
    requires me in s.threads && i < |ids| && ids[i] in s.objects && i < |s.threads[me].blocks|
  {
    && m.objects == s.objects[ids[i] := Taken(s.objects[ids[i]], Entry(me, i))]
    && m.readied == s.readied && m.threads.Keys == s.threads.Keys
    && (forall t <- s.threads :: t != me ==> m.threads[t] == s.threads[t])
    && m.threads[me].blocks == s.threads[me].blocks[i := None]
    && m.threads[me] == s.threads[me].(blocks := m.threads[me].blocks, active := m.threads[me].active)
  }

  lemma TakenSignals(s: Dispatcher, m: Dispatcher, me: ThreadId, ids: seq<ObjectId>, i: nat)
    requires Scanning(s, me, ids, i) && i < |ids| && Consumed(s, m, me, ids, i)
    ensures forall j :: 0 <= j < |ids| && j != i ==> ids[j] in m.objects && m.objects[ids[j]] == s.objects[ids[j]]
    ensures forall j :: 0 <= j < |ids| && j != i ==> (Signalled(m, ids[j]) <==> Signalled(s, ids[j]))
  {
    hide Linked, Detach, Taken;
    forall j | 0 <= j < |ids| && j != i
      ensures ids[j] != ids[i] && ids[j] in m.objects && m.objects[ids[j]] == s.objects[ids[j]]
    {
      assert ids[j] in ids;
    }
  }

  /** Taking the signal of the next object leaves as much to be signalled. */
  lemma TakenComplete(s: Dispatcher, m: Dispatcher, me: ThreadId, ids: seq<ObjectId>, i: nat)
    requires Scanning(s, me, ids, i) && i < |ids| && s.objects[ids[i]].signal > 0
    requires Consumed(s, m, me, ids, i)
    ensures Complete(m, me, ids, i + 1) <==> Complete(s, me, ids, i)
  {
    hide Linked, Detach, Taken;
    TakenSignals(s, m, me, ids, i);
    assert Signalled(s, ids[i]) by { assert ids[i] in ids; }
    if Complete(m, me, ids, i + 1) {
      forall j | 0 <= j < |ids| && j != i && s.threads[me].blocks[j].Some?
        ensures i <= j && Signalled(s, ids[j])
      {
        assert m.threads[me].blocks[j].Some?;
      }
    } else {
      var j :| 0 <= j < |ids| && m.threads[me].blocks[j].Some? && !(i + 1 <= j && Signalled(m, ids[j]));
      assert s.threads[me].blocks[j].Some? && !(i <= j && Signalled(s, ids[j]));
    }
  }

  lemma ScanTake(s: Dispatcher, m: Dispatcher, r: Dispatcher, me: ThreadId, ids: seq<ObjectId>, i: nat)
    requires Scanning(s, me, ids, i) && i < |ids| && s.objects[ids[i]].signal > 0
    requires Consumed(s, m, me, ids, i) && Scanned(m, r, me, ids, i + 1)
    ensures Scanned(s, r, me, ids, i)
  {
    hide Linked, Detach, Complete;
    assert ids[i..] == [ids[i]] + ids[i + 1..];
    assert ids[i] in ids;
    assert ids[i] !in ids[i + 1..];
    TakenSignals(s, m, me, ids, i);
    TakenComplete(s, m, me, ids, i);
  }

  /** The consumed block was not the last one. */
  lemma TakeOne(s: Dispatcher, me: ThreadId, ids: seq<ObjectId>, i: nat)
    requires Scanning(s, me, ids, i) && i < |ids| && s.objects[ids[i]].signal > 0
    requires s.threads[me].waitType == WaitAll && s.threads[me].active > 1
    ensures s.HasBlock(me, i) && !Spins(s, me, i, Locks(ids))
    ensures var m := UnwaitBlock(s, me, me, i, true, 0); Consumed(s, m, me, ids, i) && Scanning(m, me, ids, i + 1)
  {
    hide Linked, UnwaitBlock;
    SomeHasBlock(s, me, i);
    UnwaitBlockEffect(s, me, me, i, true, 0);
    var m := UnwaitBlock(s, me, me, i, true, 0);
    assert ids[i] in ids;
    forall o | o in ids
      ensures o in m.objects && m.objects[o].signal < WORD
    {
    }
    assert forall o <- s.objects :: m.objects[o] == s.objects[ids[i] := Taken(s.objects[ids[i]], Entry(me, i))][o];
  }

  /** The consumed block was the last one, and the wait is over. */
  lemma TakeLast(s: Dispatcher, me: ThreadId, ids: seq<ObjectId>, i: nat)
    requires Scanning(s, me, ids, i) && i < |ids| && s.objects[ids[i]].signal > 0
    requires s.threads[me].waitType == WaitAll && s.threads[me].active == 1
    ensures s.HasBlock(me, i) && i == |ids| - 1 && !Spins(s, me, i, Locks(ids))
    ensures Linked(UnwaitBlock(s, me, me, i, true, 0)) && Scanned(s, UnwaitBlock(s, me, me, i, true, 0), me, ids, i)
    ensures Complete(s, me, ids, i)
  {
    hide UnwaitBlock, Cleared, Detach;
    SomeHasBlock(s, me, i);
    UnwaitBlockEffect(s, me, me, i, true, 0);
    LinkedParts(s, me);
    CountOne(s.threads[me].blocks, i);
    assert s.threads[me].blocks[|ids| - 1].Some?;
    assert ids[i..] == [ids[i]];
    assert ids[i] in ids && Signalled(s, ids[i]);
    forall p | p in s.objects && p != ids[i]
      ensures Cleared(s.objects[p], me) == s.objects[p]
    {
      OnlyBlockInvolved(s, me, i, p);
    }
  }

  /** A thread with a single block left is on no other list. */
  lemma OnlyBlockInvolved(s: Dispatcher, t: ThreadId, i: nat, p: ObjectId)
    requires Linked(s) && t in s.threads && i < |s.threads[t].blocks| && p in s.objects
    requires s.threads[t].blocks[i] != Some(p)
    requires forall j :: 0 <= j < |s.threads[t].blocks| && j != i ==> s.threads[t].blocks[j].None?
    ensures Cleared(s.objects[p], t) == s.objects[p]
  {
  }

  lemma ScanStep(s: Dispatcher, me: ThreadId, ids: seq<ObjectId>, i: nat)
    requires Scanning(s, me, ids, i) && i < |ids|
    ensures s.HasBlock(me, i)
    ensures Scan(s, me, ids, WaitAll, i) ==
      if s.objects[ids[i]].signal == 0 then Scan(s, me, ids, WaitAll, i + 1)
      else if Spins(s, me, i, Locks(ids)) then Stopped(Hang)
      else Scan(UnwaitBlock(s, me, me, i, true, 0), me, ids, WaitAll, i + 1)
  {
    hide UnwaitBlock, Linked, Spins;
    SomeHasBlock(s, me, i);
  }

  /** The scan of a wait for all objects never fails, and consumes every object that is signalled. */
  lemma {:induction false} ScanAllEffect(s: Dispatcher, me: ThreadId, ids: seq<ObjectId>, i: nat)
    requires Scanning(s, me, ids, i) && s.threads[me].waitType == WaitAll
    ensures Scan(s, me, ids, WaitAll, i).Through?
    ensures var r := Scan(s, me, ids, WaitAll, i).state; Linked(r) && Scanned(s, r, me, ids, i)
    decreases |ids| - i
  {
    hide Linked, Scanned, UnwaitBlock, Scan, Spins;
    if i == |ids| {
      ScanEnd(s, me, ids);
    } else {
      ScanStep(s, me, ids, i);
      if s.objects[ids[i]].signal == 0 {
        ScanAllEffect(s, me, ids, i + 1);
        ScanPass(s, Scan(s, me, ids, WaitAll, i).state, me, ids, i);
      } else if s.threads[me].active > 1 {
        TakeOne(s, me, ids, i);
        var m := UnwaitBlock(s, me, me, i, true, 0);
        ScanAllEffect(m, me, ids, i + 1);
        ScanTake(s, m, Scan(s, me, ids, WaitAll, i).state, me, ids, i);
      } else {
        TakeLast(s, me, ids, i);
        ScanNothing(UnwaitBlock(s, me, me, i, true, 0), me, ids, WaitAll);
      }
    }
  }

  lemma ScanNothing(s: Dispatcher, me: ThreadId, ids: seq<ObjectId>, waitType: WaitType)
    ensures Scan(s, me, ids, waitType, |ids|) == Through(s)
  {
  }

  // --- a wait for any object

  lemma ScanAnyStep(s: Dispatcher, me: ThreadId, ids: seq<ObjectId>, i: nat)
    requires Scanning(s, me, ids, 0) && i < |ids|
    ensures s.HasBlock(me, i)
    ensures Scan(s, me, ids, WaitAny, i) ==
      if s.objects[ids[i]].signal == 0 then Scan(s, me, ids, WaitAny, i + 1)
      else if Spins(s, me, i, Locks(ids)) then Stopped(Hang)
      else Scan(UnwaitBlock(s, me, me, i, true, i), me, ids, WaitAny, i + 1)
  {
    hide UnwaitBlock, Linked;
    SomeHasBlock(s, me, i);
  }

  /** With nothing signalled the scan for any object changes nothing. */
  lemma {:induction false} ScanAnyNothing(s: Dispatcher, me: ThreadId, ids: seq<ObjectId>, i: nat)
    requires Scanning(s, me, ids, 0) && i <= |ids|
    requires forall j :: i <= j < |ids| ==> !Signalled(s, ids[j])
    ensures Scan(s, me, ids, WaitAny, i) == Through(s)
    decreases |ids| - i
  {
    if i == |ids| {
    } else {
      ScanAnyStep(s, me, ids, i);
      assert ids[i] in ids && !Signalled(s, ids[i]);
      ScanAnyNothing(s, me, ids, i + 1);
    }
  }

  /** The thread waits for any of several objects: the end of its wait meets the lock of another one. */
  lemma AnySpins(s: Dispatcher, me: ThreadId, ids: seq<ObjectId>, f: nat)
    requires Scanning(s, me, ids, 0) && s.threads[me].waitType == WaitAny && f < |ids|
    ensures s.HasBlock(me, f) && (Spins(s, me, f, Locks(ids)) <==> |ids| >= 2)
  {
    hide Linked;
    SomeHasBlock(s, me, f);
    if |ids| >= 2 {
      var j := if f == 0 then 1 else 0;
      assert ids[j] in ids;
      assert s.threads[me].blocks[f := None][j] == Some(ids[j]);
    }
  }

  /**
    The first object found signalled ends the wait.  With other objects in the wait the core then
    spins for ever on a lock that it holds itself; alone it is consumed.
  */
  lemma {:induction false} ScanAnyFirst(s: Dispatcher, me: ThreadId, ids: seq<ObjectId>, i: nat, f: nat)
    requires Scanning(s, me, ids, 0) && s.threads[me].waitType == WaitAny && i <= f < |ids|
    requires Signalled(s, ids[f]) && forall j :: i <= j < f ==> !Signalled(s, ids[j])
    ensures s.HasBlock(me, f)
    ensures Scan(s, me, ids, WaitAny, i) ==
      if |ids| >= 2 then Stopped(Hang) else Through(UnwaitBlock(s, me, me, f, true, f))
    decreases f - i
  {
    hide UnwaitBlock, Linked, Spins;
    ScanAnyStep(s, me, ids, i);
    assert ids[i] in ids;
    if i < f {
      assert !Signalled(s, ids[i]);
      ScanAnyFirst(s, me, ids, i + 1, f);
    } else {
      AnySpins(s, me, ids, f);
    }
  }

  // --- the result of a wait

  /** What a wait by `me` leaves of its object number `j`. */
  function AfterWait(obj: Object, me: ThreadId, j: nat, blocked: bool): Object {
    var owner := if obj.kind == MutexKind then Some(me) else obj.owner;
    if obj.signal > 0 then obj.(signal := obj.signal - 1, granted := obj.granted + 1, owner := owner)
    else if blocked then obj.(waiters := obj.waiters + [Entry(me, j)])
    else obj.(owner := owner)
  }

  predicate ObjectsAfterWait(s: Dispatcher, r: Dispatcher, me: ThreadId, ids: seq<ObjectId>, blocked: bool) {
    && r.objects.Keys == s.objects.Keys
    && (forall j :: 0 <= j < |ids| && ids[j] in s.objects ==>
         ids[j] in r.objects && r.objects[ids[j]] == AfterWait(s.objects[ids[j]], me, j, blocked))
    && (forall p <- s.objects :: p !in ids ==> r.objects[p] == s.objects[p])
  }

  predicate OthersUntouched(s: Dispatcher, r: Dispatcher, me: ThreadId) {
    && r.threads.Keys == s.threads.Keys && r.readied == s.readied
    && forall t <- s.threads :: t != me ==> r.threads[t] == s.threads[t]
  }

  /** The thread waits, with the blocks of the objects that were not signalled. */
  predicate WaitsOn(s: Dispatcher, r: Dispatcher, me: ThreadId, ids: seq<ObjectId>) {
    && me in r.threads && r.threads[me].state == Waiting && |r.threads[me].blocks| == |ids|
    && forall j :: 0 <= j < |ids| ==> r.threads[me].blocks[j] == if Signalled(s, ids[j]) then None else Some(ids[j])
  }

  /** The thread carries on, with a status. */
  predicate CarriesOn(r: Dispatcher, me: ThreadId, status: int) {
    && me in r.threads && r.threads[me].state == Running && r.threads[me].status == status
    && r.threads[me].blocks == [] && r.threads[me].active == 0
  }

  predicate AllSignalled(s: Dispatcher, ids: seq<ObjectId>) {
    forall o <- ids :: Signalled(s, o)
  }

  /** No object is signalled and waited for at once. */
  predicate Exclusive(s: Dispatcher) {
    forall o <- s.objects :: QuietObject(s.objects[o])
  }

  predicate QuietObject(obj: Object) {
    obj.signal < WORD && (obj.signal == 0 || obj.waiters == [])
  }

  lemma Started(s: Dispatcher, me: ThreadId, ids: seq<ObjectId>, waitType: WaitType)
    requires Linked(s) && Exclusive(s) && MayWait(s, me, ids) && ids != []
    ensures Scanning(StartWait(s, me, ids, waitType), me, ids, 0)
    ensures forall j :: 0 <= j < |ids| ==> (Signalled(StartWait(s, me, ids, waitType), ids[j]) <==> Signalled(s, ids[j]))
  {
    hide Linked;
    StartWaitKeeps(s, me, ids, waitType);
    var m := StartWait(s, me, ids, waitType);
    forall o | o in ids
      ensures o in m.objects && m.objects[o].signal < WORD && m.objects[o].signal == s.objects[o].signal
    {
      var j :| 0 <= j < |ids| && ids[j] == o;
    }
    assert forall j :: 0 <= j < |ids| ==> ids[j] in ids;
  }

  lemma {:induction false} PurgeLast(entries: seq<Entry>, e: Entry)
    requires !Involves(entries, e.thread)
    ensures Purge(entries + [e], e.thread) == entries
  {
    if entries != [] {
      assert entries[0] in entries;
      assert forall x <- entries[1..] :: x in entries;
      PurgeLast(entries[1..], e);
      assert (entries + [e])[1..] == entries[1..] + [e];
    }
  }

  /** A thread without blocks is on no list. */
  lemma NoBlocksNoEntries(s: Dispatcher, t: ThreadId, p: ObjectId)
    requires Linked(s) && t in s.threads && s.threads[t].blocks == [] && p in s.objects
    ensures !Involves(s.objects[p].waiters, t)
  {
  }

  /** Queued and then consumed, or queued and then given up: the wait list is as before. */
  lemma QueuedAndGone(s: Dispatcher, me: ThreadId, j: nat, p: ObjectId)
    requires Linked(s) && Exclusive(s) && p in s.objects && me in s.threads && s.threads[me].blocks == []
    ensures var obj := s.objects[p];
      var q := obj.(waiters := obj.waiters + [Entry(me, j)]);
      && Taken(q, Entry(me, j)) == AfterWait(obj, me, j, true)
      && Cleared(Taken(q, Entry(me, j)), me) == AfterWait(obj, me, j, false)
  {
    hide Linked;
    NoBlocksNoEntries(s, me, p);
    var obj := s.objects[p];
    var q := obj.(waiters := obj.waiters + [Entry(me, j)]);
    if obj.signal > 0 {
      assert q.waiters == [Entry(me, j)];
      assert q.waiters[1..] == [];
    } else {
      assert Entry(me, j) in q.waiters;
      PurgeLast(obj.waiters, Entry(me, j));
    }
  }
}
