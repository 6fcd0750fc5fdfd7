/**
  What a signal does: blocks go in the order in which they came, each consuming one signal, and a
  thread is readied exactly when its wait is over.
*/
module DispatcherSignals {
  import opened Common
  import opened DispatcherModel
  import opened DispatcherLinks

  /** The threads, in order, whose wait ends when the given entries are released. */
  function Completed(s: Dispatcher, entries: seq<Entry>): seq<ThreadId> {
    if entries == [] then [] else Ended(s, entries[0].thread) + Completed(s, entries[1..])
  }

  function Ended(s: Dispatcher, t: ThreadId): seq<ThreadId> {
    if t in s.threads && Completes(s.threads[t]) then [t] else []
  }

  /** An object after the waits of several threads have ended elsewhere. */
  function ClearedBy(obj: Object, threads: seq<ThreadId>): Object
    decreases |threads|
  {
    if threads == [] then obj else ClearedBy(Cleared(obj, threads[0]), threads[1..])
  }

  /** An object from whose list the first `k` entries have been released. */
  function Served(obj: Object, k: nat): Object
    requires k <= |obj.waiters| && k <= obj.signal
  {
    obj.(signal := obj.signal - k, granted := obj.granted + k, waiters := obj.waiters[k..],
         owner := if obj.kind == MutexKind && k > 0 then Some(obj.waiters[k - 1].thread) else obj.owner)
  }

  /** The whole effect of releasing the first `k` entries of an object. */
  predicate FirstReleased(s: Dispatcher, r: Dispatcher, o: ObjectId, k: nat)
    requires o in s.objects && k <= |s.objects[o].waiters| && k <= s.objects[o].signal
  {
    var entries := s.objects[o].waiters[..k];
    && r.objects.Keys == s.objects.Keys && r.threads.Keys == s.threads.Keys
    && r.objects[o] == Served(s.objects[o], k)
    && (forall p <- s.objects :: p != o ==> r.objects[p] == ClearedBy(s.objects[p], Completed(s, entries)))
    && (forall e <- entries :: ThreadReleased(s, r, e))
    && (forall t <- s.threads :: !Involves(entries, t) ==> r.threads[t] == s.threads[t])
    && r.readied == s.readied + Completed(s, entries)
  }

  /** The thread of an entry after the entry has been released. */
  predicate ThreadReleased(s: Dispatcher, r: Dispatcher, e: Entry) {
    && e.thread in s.threads && e.thread in r.threads
    && e.block < |s.threads[e.thread].blocks| && s.threads[e.thread].active > 0
    && r.threads[e.thread] == ThreadAfterRelease(s.threads[e.thread], false, e.block, 0)
  }

  lemma ListedTwice(entries: seq<Entry>, j: nat, k: nat)
    requires j < k < |entries| && entries[j] == entries[k]
    ensures !NoDuplicates(entries)
  {
    assert entries == entries[..k] + entries[k..];
    assert entries[j] in entries[..k] && entries[k] in entries[k..];
    assert multiset(entries)[entries[j]] >= 2;
    assert entries[j] in entries;
  }

  /** A thread has at most one entry on a wait list. */
  lemma OneEntryEach(s: Dispatcher, o: ObjectId, j: nat, k: nat)
    requires Linked(s) && o in s.objects && j < k < |s.objects[o].waiters|
    ensures s.objects[o].waiters[j].thread != s.objects[o].waiters[k].thread
  {
    var a, b := s.objects[o].waiters[j], s.objects[o].waiters[k];
    LinkedObject(s, o);
    assert PointsBack(s, a, o) && PointsBack(s, b, o);
    LinkedParts(s, a.thread);
    if a == b {
      ListedTwice(s.objects[o].waiters, j, k);
    }
  }

  /** The entry at the head of a list can be released, and the rest of the list stays. */
  lemma HeadEntry(s: Dispatcher, o: ObjectId)
    requires Linked(s) && o in s.objects && s.objects[o].waiters != []
    ensures var e := s.objects[o].waiters[0]; s.HasBlock(e.thread, e.block) && s.BlockObject(e.thread, e.block) == o
    ensures Without(s.objects[o].waiters, s.objects[o].waiters[0]) == s.objects[o].waiters[1..]
  {
    var e := s.objects[o].waiters[0];
    LinkedObject(s, o);
    assert PointsBack(s, e, o);
    SomeHasBlock(s, e.thread, e.block);
  }

  /**
    A signal holds the lock of its object alone, and the thread whose block it releases has no
    other block there: the rundown never comes to that lock.
  */
  lemma SignalNeverSpins(s: Dispatcher, t: ThreadId, i: nat)
    requires Linked(s) && s.HasBlock(t, i)
    ensures !Spins(s, t, i, {s.BlockObject(t, i)})
  {
    LinkedParts(s, t);
    var blocks := s.threads[t].blocks;
    forall j | 0 <= j < |blocks| && j != i && blocks[j].Some?
      ensures blocks[j].value != s.BlockObject(t, i)
    {
      assert blocks[if i < j then i else j] != blocks[if i < j then j else i];
    }
  }

  lemma CompletedSame(s: Dispatcher, r: Dispatcher, entries: seq<Entry>)
    requires forall e <- entries :: e.thread in s.threads && e.thread in r.threads && r.threads[e.thread] == s.threads[e.thread]
    ensures Completed(r, entries) == Completed(s, entries)
  {
  }

  lemma TakeSignal(signal: nat)
    requires 0 < signal < WORD
    ensures Add32(signal, WORD - 1) == signal - 1
  {
  }

  /** Releasing the head alone. */
  lemma HeadReleased(s: Dispatcher, me: ThreadId, o: ObjectId)
    requires Linked(s) && o in s.objects && s.objects[o].waiters != [] && 0 < s.objects[o].signal < WORD
    requires me in s.threads && s.threads[me].blocks == []
    ensures s.HasBlock(s.objects[o].waiters[0].thread, s.objects[o].waiters[0].block)
    ensures var e := s.objects[o].waiters[0];
      var r := UnwaitBlock(s, me, e.thread, e.block, true, 0);
      && Linked(r)
      && FirstReleased(s, r, o, 1)
      && me in r.threads && r.threads[me] == s.threads[me]
  {
    hide Linked, Cleared;
    HeadEntry(s, o);
    var e := s.objects[o].waiters[0];
    UnwaitBlockEffect(s, me, e.thread, e.block, true, 0);
    TakeSignal(s.objects[o].signal);
    var entries := s.objects[o].waiters[..1];
    assert entries == [e];
    var r := UnwaitBlock(s, me, e.thread, e.block, true, 0);
    assert Completed(s, entries) == if Completes(s.threads[e.thread]) then [e.thread] else [] by {
      assert entries[1..] == [];
    }
    forall p | p in s.objects && p != o
      ensures r.objects[p] == ClearedBy(s.objects[p], Completed(s, entries))
    {
      if Completes(s.threads[e.thread]) {
        assert [e.thread][1..] == [];
      }
    }
    assert ThreadReleased(s, r, e);
    assert Involves(entries, e.thread);
  }

  lemma {:induction false} ClearedByAppend(obj: Object, a: seq<ThreadId>, b: seq<ThreadId>)
    ensures ClearedBy(ClearedBy(obj, a), b) == ClearedBy(obj, a + b)
    decreases |a|
  {
    if a == [] {
      assert a + b == b;
    } else {
      ClearedByAppend(Cleared(obj, a[0]), a[1..], b);
      assert (a + b)[0] == a[0] && (a + b)[1..] == a[1..] + b;
    }
  }

  lemma {:induction false} CompletedAppend(s: Dispatcher, a: seq<Entry>, b: seq<Entry>)
    ensures Completed(s, a + b) == Completed(s, a) + Completed(s, b)
    decreases |a|
  {
    hide Ended;
    if a == [] {
      assert a + b == b;
    } else {
      CompletedAppend(s, a[1..], b);
      assert (a + b)[0] == a[0] && (a + b)[1..] == a[1..] + b;
    }
  }

  /** The entries behind the head belong to other threads, which the release of the head leaves alone. */
  lemma TailUntouched(s: Dispatcher, m: Dispatcher, o: ObjectId, k: nat)
    requires Linked(s) && o in s.objects && k < |s.objects[o].waiters| && 1 <= s.objects[o].signal
    requires FirstReleased(s, m, o, 1)
    ensures forall e <- s.objects[o].waiters[1..][..k] ::
      !Involves(s.objects[o].waiters[..1], e.thread) && e.thread in s.threads && m.threads[e.thread] == s.threads[e.thread]
    ensures Completed(m, s.objects[o].waiters[1..][..k]) == Completed(s, s.objects[o].waiters[1..][..k])
  {
    hide Linked, Served, ClearedBy, Completed;
    var waiters := s.objects[o].waiters;
    var head, tail := waiters[..1], waiters[1..][..k];
    forall e | e in tail
      ensures !Involves(head, e.thread) && e.thread in s.threads
    {
      var j :| 0 <= j < k && e == tail[j];
      OneEntryEach(s, o, 0, j + 1);
      LinkedObject(s, o);
      assert PointsBack(s, waiters[j + 1], o);
    }
    CompletedSame(s, m, tail);
  }

  lemma OneMoreEntry(s: Dispatcher, m: Dispatcher, r: Dispatcher, o: ObjectId, k: nat, e: Entry)
    requires Linked(s) && o in s.objects && k < |s.objects[o].waiters| && k < s.objects[o].signal
    requires FirstReleased(s, m, o, 1) && FirstReleased(m, r, o, k) && e in s.objects[o].waiters[..k + 1]
    ensures ThreadReleased(s, r, e)
  {
    hide Linked, ClearedBy, Completed, ThreadAfterRelease;
    var waiters := s.objects[o].waiters;
    var head, tail := waiters[..1], waiters[1..][..k];
    assert waiters[..k + 1] == head + tail;
    TailUntouched(s, m, o, k);
    if e in head {
      assert ThreadReleased(s, m, e);
      assert !Involves(tail, e.thread);
    } else {
      assert e in tail && ThreadReleased(m, r, e);
    }
  }

  lemma OneMoreOther(s: Dispatcher, m: Dispatcher, r: Dispatcher, o: ObjectId, k: nat, t: ThreadId)
    requires o in s.objects && k < |s.objects[o].waiters| && k < s.objects[o].signal
    requires FirstReleased(s, m, o, 1) && FirstReleased(m, r, o, k) && t in s.threads
    requires !Involves(s.objects[o].waiters[..k + 1], t)
    ensures t in r.threads && r.threads[t] == s.threads[t]
  {
    hide ClearedBy, Completed, ThreadReleased;
    var waiters := s.objects[o].waiters;
    var head, tail := waiters[..1], waiters[1..][..k];
    assert waiters[..k + 1] == head + tail;
    assert forall e <- head :: e in head + tail;
    assert forall e <- tail :: e in head + tail;
  }

  lemma OneMoreThread(s: Dispatcher, m: Dispatcher, r: Dispatcher, o: ObjectId, k: nat, t: ThreadId)
    requires Linked(s) && o in s.objects && k < |s.objects[o].waiters| && k < s.objects[o].signal
    requires FirstReleased(s, m, o, 1) && FirstReleased(m, r, o, k) && t in s.threads
    ensures forall e <- s.objects[o].waiters[..k + 1] :: e.thread == t ==> ThreadReleased(s, r, e)
    ensures !Involves(s.objects[o].waiters[..k + 1], t) ==> r.threads[t] == s.threads[t]
  {
    hide Linked, FirstReleased, ThreadReleased, Involves;
    forall e: Entry | e in s.objects[o].waiters[..k + 1] && e.thread == t
      ensures ThreadReleased(s, r, e)
    {
      OneMoreEntry(s, m, r, o, k, e);
    }
    if !Involves(s.objects[o].waiters[..k + 1], t) {
      OneMoreOther(s, m, r, o, k, t);
    }
  }

  /** Releasing one entry and then `k` more is releasing `k + 1`. */
  lemma OneMore(s: Dispatcher, m: Dispatcher, r: Dispatcher, o: ObjectId, k: nat)
    requires Linked(s) && o in s.objects && k < |s.objects[o].waiters| && k < s.objects[o].signal
    requires FirstReleased(s, m, o, 1) && FirstReleased(m, r, o, k)
    ensures FirstReleased(s, r, o, k + 1)
  {
    hide Linked, Completed, ClearedBy, ThreadReleased, Involves;
    var waiters := s.objects[o].waiters;
    var head, tail := waiters[..1], waiters[1..][..k];
    assert waiters[..k + 1] == head + tail;
    assert waiters[1..][k..] == waiters[k + 1..];
    TailUntouched(s, m, o, k);
    CompletedAppend(s, head, tail);
    forall p | p in s.objects && p != o
      ensures r.objects[p] == ClearedBy(s.objects[p], Completed(s, head + tail))
    {
      ClearedByAppend(s.objects[p], Completed(s, head), Completed(s, tail));
    }
    forall e | e in waiters[..k + 1]
      ensures ThreadReleased(s, r, e)
    {
      LinkedObject(s, o);
      assert PointsBack(s, e, o);
      OneMoreThread(s, m, r, o, k, e.thread);
    }
    forall t | t in s.threads && !Involves(waiters[..k + 1], t)
      ensures r.threads[t] == s.threads[t]
    {
      OneMoreThread(s, m, r, o, k, t);
    }
  }

  lemma NoneReleased(s: Dispatcher, me: ThreadId, o: ObjectId)
    requires o in s.objects
    ensures ReleaseFirst(s, me, o, 0) == s && FirstReleased(s, s, o, 0)
  {
  }

  lemma HeadServed(s: Dispatcher, r: Dispatcher, o: ObjectId)
    requires o in s.objects && 1 <= |s.objects[o].waiters| && 1 <= s.objects[o].signal
    requires FirstReleased(s, r, o, 1)
    ensures o in r.objects && r.objects[o].signal == s.objects[o].signal - 1
    ensures r.objects[o].waiters == s.objects[o].waiters[1..]
    ensures r.threads.Keys == s.threads.Keys
  {
  }

  lemma ReleaseFirstStep(s: Dispatcher, me: ThreadId, o: ObjectId, k: nat)
    requires o in s.objects && s.objects[o].waiters != [] && k > 0
    requires s.HasBlock(s.objects[o].waiters[0].thread, s.objects[o].waiters[0].block)
    ensures var e := s.objects[o].waiters[0];
      ReleaseFirst(s, me, o, k) == ReleaseFirst(UnwaitBlock(s, me, e.thread, e.block, true, 0), me, o, k - 1)
  {
    hide UnwaitBlock;
  }

  lemma {:induction false} ReleaseFirstEffect(s: Dispatcher, me: ThreadId, o: ObjectId, k: nat)
    requires Linked(s) && o in s.objects && k <= |s.objects[o].waiters| && k <= s.objects[o].signal < WORD
    requires me in s.threads && s.threads[me].blocks == []
    ensures Linked(ReleaseFirst(s, me, o, k)) && FirstReleased(s, ReleaseFirst(s, me, o, k), o, k)
    decreases k
  {
    hide *;
    if k == 0 {
      NoneReleased(s, me, o);
    } else {
      HeadEntry(s, o);
      HeadReleased(s, me, o);
      var e := s.objects[o].waiters[0];
      var m := UnwaitBlock(s, me, e.thread, e.block, true, 0);
      ReleaseFirstStep(s, me, o, k);
      HeadServed(s, m, o);
      ReleaseFirstEffect(m, me, o, k - 1);
      OneMore(s, m, ReleaseFirst(s, me, o, k), o, k - 1);
    }
  }
}
