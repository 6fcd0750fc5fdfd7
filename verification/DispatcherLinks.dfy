/**
  How wait blocks and wait lists hang together, and what releasing blocks does to the whole
  state: `Linked` says that the blocks of the threads and the entries of the objects match one
  to one, and the effect lemmas give each mutually recursive operation in closed form.
*/
module DispatcherLinks {
  import opened Common
  import opened DispatcherModel

  type Blocks = seq<Option<ObjectId>>

  function CountSome(blocks: Blocks): (n: nat)
    ensures n <= |blocks|
  {
    if blocks == [] then 0 else (if blocks[0].Some? then 1 else 0) + CountSome(blocks[1..])
  }

  lemma {:induction false} CountRelease(blocks: Blocks, i: nat)
    requires i < |blocks| && blocks[i].Some?
    ensures CountSome(blocks) == CountSome(blocks[i := None]) + 1
  {
    if i == 0 {
      assert blocks[i := None][1..] == blocks[1..];
    } else {
      CountRelease(blocks[1..], i - 1);
      assert blocks[i := None][1..] == blocks[1..][i - 1 := None];
    }
  }

  lemma {:induction false} CountZero(blocks: Blocks)
    ensures CountSome(blocks) == 0 <==> forall i :: 0 <= i < |blocks| ==> blocks[i].None?
  {
    if blocks != [] {
      CountZero(blocks[1..]);
      assert forall i :: 0 < i < |blocks| ==> blocks[i] == blocks[1..][i - 1];
      assert forall i :: 0 <= i < |blocks| - 1 ==> blocks[1..][i] == blocks[i + 1];
    }
  }

  lemma {:induction false} CountAll(blocks: Blocks)
    ensures CountSome(blocks) == |blocks| <==> forall i :: 0 <= i < |blocks| ==> blocks[i].Some?
  {
    if blocks != [] {
      CountAll(blocks[1..]);
      assert forall i :: 0 < i < |blocks| ==> blocks[i] == blocks[1..][i - 1];
      assert forall i :: 0 <= i < |blocks| - 1 ==> blocks[1..][i] == blocks[i + 1];
    }
  }

  /** When one block is left it is the only one. */
  lemma CountOne(blocks: Blocks, i: nat)
    requires i < |blocks| && blocks[i].Some?
    requires CountSome(blocks) == 1
    ensures forall j :: 0 <= j < |blocks| && j != i ==> blocks[j].None?
  {
    CountRelease(blocks, i);
    CountZero(blocks[i := None]);
    assert forall j :: 0 <= j < |blocks| && j != i ==> blocks[j] == blocks[i := None][j];
  }

  // --- blocks and wait lists match

  predicate NoDuplicates(entries: seq<Entry>) {
    forall e <- entries :: multiset(entries)[e] == 1
  }

  predicate Queued(s: Dispatcher, t: ThreadId, i: nat, o: ObjectId) {
    o in s.objects && Entry(t, i) in s.objects[o].waiters
  }

  predicate ThreadLinked(s: Dispatcher, t: ThreadId)
    requires t in s.threads
  {
    var blocks := s.threads[t].blocks;
    && s.threads[t].active == CountSome(blocks)
    && (forall i :: 0 <= i < |blocks| && blocks[i].Some? ==> Queued(s, t, i, blocks[i].value))
    && (forall i, j :: 0 <= i < j < |blocks| && blocks[i].Some? ==> blocks[i] != blocks[j])
  }

  predicate PointsBack(s: Dispatcher, e: Entry, o: ObjectId) {
    e.thread in s.threads && e.block < |s.threads[e.thread].blocks| && s.threads[e.thread].blocks[e.block] == Some(o)
  }

  predicate ObjectLinked(s: Dispatcher, o: ObjectId)
    requires o in s.objects
  {
    NoDuplicates(s.objects[o].waiters) && forall e <- s.objects[o].waiters :: PointsBack(s, e, o)
  }

  predicate Linked(s: Dispatcher) {
    && (forall t <- s.threads :: ThreadLinked(s, t))
    && (forall o <- s.objects :: ObjectLinked(s, o))
  }

  lemma LinkedParts(s: Dispatcher, t: ThreadId)
    requires Linked(s) && t in s.threads
    ensures ThreadLinked(s, t)
  {
  }

  lemma LinkedObject(s: Dispatcher, o: ObjectId)
    requires Linked(s) && o in s.objects
    ensures ObjectLinked(s, o)
  {
  }

  /** A block that is still there can be released. */
  lemma SomeHasBlock(s: Dispatcher, t: ThreadId, i: nat)
    requires Linked(s) && t in s.threads && i < |s.threads[t].blocks|
    ensures s.HasBlock(t, i) <==> s.threads[t].blocks[i].Some?
  {
    if s.threads[t].blocks[i].Some? {
      CountRelease(s.threads[t].blocks, i);
      assert Queued(s, t, i, s.threads[t].blocks[i].value);
    }
  }

  lemma WithoutMember(entries: seq<Entry>, e: Entry, x: Entry)
    requires NoDuplicates(entries)
    ensures x in Without(entries, e) <==> x in entries && x != e
    ensures NoDuplicates(Without(entries, e))
  {
    var rest := Without(entries, e);
    assert x in rest <==> multiset(rest)[x] > 0;
    assert x in entries <==> multiset(entries)[x] > 0;
    forall y | y in rest
      ensures multiset(rest)[y] == 1
    {
      assert multiset(rest)[y] > 0;
      assert y in multiset(entries);
    }
  }

  // --- a thread taken off a wait list

  /** A wait list without the entries of a thread. */
  function Purge(entries: seq<Entry>, t: ThreadId): seq<Entry> {
    if entries == [] then []
    else (if entries[0].thread == t then [] else [entries[0]]) + Purge(entries[1..], t)
  }

  predicate Involves(entries: seq<Entry>, t: ThreadId) {
    exists e <- entries :: e.thread == t
  }

  /** What the end of a wait of `t` does to an object it was still waiting for. */
  function Cleared(obj: Object, t: ThreadId): Object {
    if !Involves(obj.waiters, t) then obj
    else obj.(waiters := Purge(obj.waiters, t), owner := if obj.kind == MutexKind then Some(t) else obj.owner)
  }

  lemma {:induction false} PurgeNothing(entries: seq<Entry>, t: ThreadId)
    requires !Involves(entries, t)
    ensures Purge(entries, t) == entries
  {
    if entries != [] {
      assert !Involves(entries[1..], t) by {
        assert forall e <- entries[1..] :: e in entries;
      }
      PurgeNothing(entries[1..], t);
      assert entries[0] in entries;
      assert entries == [entries[0]] + entries[1..];
    }
  }

  lemma {:induction false} PurgeMembers(entries: seq<Entry>, t: ThreadId)
    ensures !Involves(Purge(entries, t), t)
    ensures forall e <- Purge(entries, t) :: e in entries
  {
    if entries != [] {
      PurgeMembers(entries[1..], t);
    }
  }

  lemma NoDuplicatesTail(entries: seq<Entry>)
    requires entries != [] && NoDuplicates(entries)
    ensures NoDuplicates(entries[1..]) && entries[0] !in entries[1..]
  {
    var rest := entries[1..];
    assert entries == [entries[0]] + rest;
    forall y | y in rest
      ensures multiset(rest)[y] == 1 && y != entries[0]
    {
      assert y in entries && multiset(entries)[y] == 1;
      assert multiset(rest)[y] > 0;
    }
  }

  lemma {:induction false} PurgeOne(entries: seq<Entry>, e: Entry)
    requires NoDuplicates(entries)
    requires forall x <- entries :: x.thread == e.thread ==> x == e
    ensures Without(entries, e) == Purge(entries, e.thread)
  {
    hide NoDuplicates;
    if entries != [] {
      var rest := entries[1..];
      NoDuplicatesTail(entries);
      assert entries[0] in entries && forall x <- rest :: x in entries;
      if entries[0] == e {
        assert !Involves(rest, e.thread);
        PurgeNothing(rest, e.thread);
      } else {
        PurgeOne(rest, e);
      }
    }
  }

  /** Releasing the block of a thread takes all of its entries off that object's list. */
  lemma DetachIsCleared(s: Dispatcher, t: ThreadId, i: nat)
    requires Linked(s) && s.HasBlock(t, i)
    ensures Detach(s.objects[s.BlockObject(t, i)], Entry(t, i), false) == Cleared(s.objects[s.BlockObject(t, i)], t)
    ensures Without(s.objects[s.BlockObject(t, i)].waiters, Entry(t, i)) == Purge(s.objects[s.BlockObject(t, i)].waiters, t)
    ensures Involves(s.objects[s.BlockObject(t, i)].waiters, t)
  {
    var o := s.BlockObject(t, i);
    LinkedParts(s, t);
    LinkedObject(s, o);
    assert Queued(s, t, i, o);
    forall x | x in s.objects[o].waiters && x.thread == t
      ensures x == Entry(t, i)
    {
      assert PointsBack(s, x, o);
    }
    PurgeOne(s.objects[o].waiters, Entry(t, i));
  }

  // --- releasing one block

  lemma ReleaseBlockKeepsThread(s: Dispatcher, t: ThreadId, i: nat, designal: bool, u: ThreadId)
    requires Linked(s) && s.HasBlock(t, i) && u in s.threads
    ensures ThreadLinked(ReleaseBlock(s, t, i, designal), u)
  {
    var r := ReleaseBlock(s, t, i, designal);
    var o := s.BlockObject(t, i);
    LinkedParts(s, u);
    LinkedObject(s, o);
    CountRelease(s.threads[t].blocks, i);
    forall j | 0 <= j < |r.threads[u].blocks| && r.threads[u].blocks[j].Some?
      ensures Queued(r, u, j, r.threads[u].blocks[j].value)
    {
      assert s.threads[u].blocks[j] == r.threads[u].blocks[j];
      assert Queued(s, u, j, s.threads[u].blocks[j].value);
      WithoutMember(s.objects[o].waiters, Entry(t, i), Entry(u, j));
    }
  }

  lemma ReleaseBlockKeepsObject(s: Dispatcher, t: ThreadId, i: nat, designal: bool, p: ObjectId)
    requires Linked(s) && s.HasBlock(t, i) && p in s.objects
    ensures ObjectLinked(ReleaseBlock(s, t, i, designal), p)
  {
    var r := ReleaseBlock(s, t, i, designal);
    var o := s.BlockObject(t, i);
    LinkedObject(s, p);
    WithoutMember(s.objects[o].waiters, Entry(t, i), Entry(t, i));
    forall e | e in r.objects[p].waiters
      ensures PointsBack(r, e, p)
    {
      if p == o {
        WithoutMember(s.objects[o].waiters, Entry(t, i), e);
      }
      assert PointsBack(s, e, p);
    }
  }

  lemma ReleaseBlockKeeps(s: Dispatcher, t: ThreadId, i: nat, designal: bool)
    requires Linked(s) && s.HasBlock(t, i)
    ensures Linked(ReleaseBlock(s, t, i, designal))
  {
    var r := ReleaseBlock(s, t, i, designal);
    forall u | u in r.threads
      ensures ThreadLinked(r, u)
    {
      ReleaseBlockKeepsThread(s, t, i, designal, u);
    }
    forall p | p in r.objects
      ensures ObjectLinked(r, p)
    {
      ReleaseBlockKeepsObject(s, t, i, designal, p);
    }
  }

  // --- ending a wait

  predicate AllCleared(before: map<ObjectId, Object>, after: map<ObjectId, Object>, t: ThreadId) {
    after.Keys == before.Keys && forall o <- before :: after[o] == Cleared(before[o], t)
  }

  lemma ClearedTwice(obj: Object, t: ThreadId)
    ensures Cleared(Cleared(obj, t), t) == Cleared(obj, t)
    ensures !Involves(Cleared(obj, t).waiters, t)
  {
    PurgeMembers(obj.waiters, t);
  }

  /** No entry is left once all blocks are released. */
  lemma NothingInvolved(s: Dispatcher, t: ThreadId)
    requires Linked(s) && t in s.threads
    requires forall i :: 0 <= i < |s.threads[t].blocks| ==> s.threads[t].blocks[i].None?
    ensures forall o <- s.objects :: !Involves(s.objects[o].waiters, t)
  {
  }

  /** All blocks of `t` from `s` on are gone in `r`, and its entries with them. */
  predicate BlocksGone(s: Dispatcher, r: Dispatcher, t: ThreadId)
    requires t in s.threads
  {
    && r.threads.Keys == s.threads.Keys
    && (forall u <- s.threads :: u != t ==> r.threads[u] == s.threads[u])
    && r.threads[t] == s.threads[t].(blocks := r.threads[t].blocks, active := 0)
    && r.readied == s.readied
    && AllCleared(s.objects, r.objects, t)
    && (forall j :: 0 <= j < |r.threads[t].blocks| ==> r.threads[t].blocks[j].None?)
  }

  lemma BlocksGoneAlready(s: Dispatcher, t: ThreadId)
    requires Linked(s) && t in s.threads
    requires forall j :: 0 <= j < |s.threads[t].blocks| ==> s.threads[t].blocks[j].None?
    ensures BlocksGone(s, s, t)
  {
    LinkedParts(s, t);
    CountZero(s.threads[t].blocks);
    NothingInvolved(s, t);
  }

  lemma ClearedAfterOne(before: map<ObjectId, Object>, after: map<ObjectId, Object>, o: ObjectId, t: ThreadId)
    requires o in before && AllCleared(before[o := Cleared(before[o], t)], after, t)
    ensures AllCleared(before, after, t)
  {
    hide Cleared;
    ClearedTwice(before[o], t);
  }

  /** Releasing a block without a signal changes its object and its thread, as the rundown would. */
  lemma ReleaseBlockShape(s: Dispatcher, t: ThreadId, i: nat)
    requires Linked(s) && s.HasBlock(t, i)
    ensures var r := ReleaseBlock(s, t, i, false);
      && r.objects == s.objects[s.BlockObject(t, i) := Cleared(s.objects[s.BlockObject(t, i)], t)]
      && r.threads == s.threads[t := r.threads[t]] && r.readied == s.readied
      && r.threads[t] == s.threads[t].(blocks := r.threads[t].blocks, active := r.threads[t].active)
  {
    hide Linked, Cleared, Detach;
    DetachIsCleared(s, t, i);
  }

  lemma BlocksGoneAfterRelease(s: Dispatcher, r: Dispatcher, t: ThreadId, i: nat)
    requires Linked(s) && s.HasBlock(t, i)
    requires BlocksGone(ReleaseBlock(s, t, i, false), r, t)
    ensures BlocksGone(s, r, t)
  {
    hide Linked, Cleared, AllCleared, ReleaseBlock;
    ReleaseBlockShape(s, t, i);
    ClearedAfterOne(s.objects, r.objects, s.BlockObject(t, i), t);
  }

  lemma {:induction false} ReleaseFromEffect(s: Dispatcher, t: ThreadId, i: nat)
    requires Linked(s) && t in s.threads && i <= |s.threads[t].blocks|
    requires forall j :: 0 <= j < i ==> s.threads[t].blocks[j].None?
    ensures Linked(ReleaseFrom(s, t, i)) && BlocksGone(s, ReleaseFrom(s, t, i), t)
    decreases |s.threads[t].blocks| - i
  {
    hide Linked, ThreadLinked, ObjectLinked, BlocksGone, Detach;
    if i == |s.threads[t].blocks| {
      BlocksGoneAlready(s, t);
    } else {
      SomeHasBlock(s, t, i);
      if s.HasBlock(t, i) {
        ReleaseBlockKeeps(s, t, i, false);
        ReleaseFromEffect(ReleaseBlock(s, t, i, false), t, i + 1);
        BlocksGoneAfterRelease(s, ReleaseFrom(s, t, i), t, i);
      } else {
        ReleaseFromEffect(s, t, i + 1);
      }
    }
  }

  predicate RanDown(s: Dispatcher, r: Dispatcher, t: ThreadId)
    requires t in s.threads
  {
    && r.readied == s.readied && AllCleared(s.objects, r.objects, t)
    && r.threads == s.threads[t := s.threads[t].(blocks := [], active := 0)]
  }

  /** Dropping blocks that are all released keeps the links. */
  lemma DropBlocksKeeps(m: Dispatcher, t: ThreadId)
    requires Linked(m) && t in m.threads && m.threads[t].active == 0
    requires forall i :: 0 <= i < |m.threads[t].blocks| ==> m.threads[t].blocks[i].None?
    ensures Linked(m.WithThread(t, m.threads[t].(blocks := [])))
  {
  }

  lemma RundownEffect(s: Dispatcher, t: ThreadId)
    requires Linked(s) && t in s.threads
    ensures Linked(Rundown(s, t)) && RanDown(s, Rundown(s, t), t)
  {
    hide Linked, ReleaseFrom, AllCleared;
    ReleaseFromEffect(s, t, 0);
    DropBlocksKeeps(ReleaseFrom(s, t, 0), t);
  }

  function WokenState(thread: Thread, running: bool): ThreadState {
    if thread.state != Waiting then thread.state else if running then Running else Ready
  }

  /** A thread whose wait is over. */
  function Finished(thread: Thread, running: bool, status: int): Thread {
    thread.(state := WokenState(thread, running), blocks := [], active := 0, status := status)
  }

  lemma LinkedSame(s: Dispatcher, r: Dispatcher)
    requires Linked(s) && r.objects == s.objects && r.threads.Keys == s.threads.Keys
    requires forall t <- s.threads :: r.threads[t].blocks == s.threads[t].blocks && r.threads[t].active == s.threads[t].active
    ensures Linked(r)
  {
  }

  /** Ending a wait removes the thread from every list, and readies it unless it is the caller. */
  lemma UnwaitThreadEffect(s: Dispatcher, me: ThreadId, t: ThreadId, status: int)
    requires Linked(s) && t in s.threads
    ensures var r := UnwaitThread(s, me, t, status);
      && Linked(r) && AllCleared(s.objects, r.objects, t)
      && r.threads == s.threads[t := Finished(s.threads[t], t == me, status)]
      && r.readied == s.readied + (if s.threads[t].state == Waiting && t != me then [t] else [])
  {
    hide Linked, AllCleared, Rundown;
    var w := Wake(s, me, t);
    LinkedSame(s, w);
    RundownEffect(w, t);
    LinkedSame(Rundown(w, t), UnwaitThread(s, me, t, status));
  }

  /** The state of the thread after its block `i` has been released. */
  function ThreadAfterRelease(thread: Thread, running: bool, i: nat, status: int): Thread
    requires i < |thread.blocks| && thread.active > 0
  {
    if Completes(thread) then Finished(thread, running, if thread.active == 1 then status else i)
    else thread.(blocks := thread.blocks[i := None], active := thread.active - 1)
  }

  /** What releasing a block does to an object other than the block's own. */
  function Elsewhere(obj: Object, thread: Thread, t: ThreadId): Object {
    if Completes(thread) then Cleared(obj, t) else obj
  }

  /** The whole effect of releasing a block, in terms of the state before. */
  predicate BlockReleased(s: Dispatcher, r: Dispatcher, me: ThreadId, t: ThreadId, i: nat, designal: bool, status: int)
    requires s.HasBlock(t, i)
  {
    var o := s.BlockObject(t, i);
    && r.objects.Keys == s.objects.Keys
    && r.objects[o] == Detach(s.objects[o], Entry(t, i), designal)
    && (forall p <- s.objects :: p != o ==> r.objects[p] == Elsewhere(s.objects[p], s.threads[t], t))
    && r.threads == s.threads[t := ThreadAfterRelease(s.threads[t], t == me, i, status)]
    && r.readied == s.readied + (if Completes(s.threads[t]) && t != me then [t] else [])
  }

  /** The released block has left no entry for the rundown to find at its object. */
  lemma DetachedNotInvolved(s: Dispatcher, t: ThreadId, i: nat, designal: bool)
    requires Linked(s) && s.HasBlock(t, i)
    ensures var d := Detach(s.objects[s.BlockObject(t, i)], Entry(t, i), designal); Cleared(d, t) == d
  {
    hide Linked;
    DetachIsCleared(s, t, i);
    PurgeMembers(s.objects[s.BlockObject(t, i)].waiters, t);
  }

  lemma UnwaitBlockEffect(s: Dispatcher, me: ThreadId, t: ThreadId, i: nat, designal: bool, status: int)
    requires Linked(s) && s.HasBlock(t, i)
    ensures Linked(UnwaitBlock(s, me, t, i, designal, status))
    ensures BlockReleased(s, UnwaitBlock(s, me, t, i, designal, status), me, t, i, designal, status)
  {
    hide Linked, Cleared, Detach, UnwaitThread;
    ReleaseBlockKeeps(s, t, i, designal);
    if Completes(s.threads[t]) {
      UnwaitThreadEffect(ReleaseBlock(s, t, i, designal), me, t, if s.threads[t].active == 1 then status else i);
      DetachedNotInvolved(s, t, i, designal);
    }
  }
}
