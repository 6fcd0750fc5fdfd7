/**
  The intrusive circular doubly linked list under every queue of the kernel.

  A list is a head node together with its entries; `IsList(head, body)` says that the nodes
  form one ring whose entries, read from the head, are `body`.  Every operation only rewires
  pointers; its contract says what it does to the sequence.  The other modules keep their
  queues as sequences and rely on nothing but these effects.
*/
module NtList {

  class ListEntry {
    var next: ListEntry
    var prev: ListEntry

    /** Makes an empty list head. */
    constructor ()
      ensures next == this && prev == this
      ensures IsList(this, [])
    {
      next := this;
      prev := this;
    }
  }

  /** The nodes are distinct and each is linked, both ways, to its neighbours, the last to the first. */
  ghost predicate IsRing(ring: seq<ListEntry>)
    reads ring
  {
    && (forall i, j :: 0 <= i < j < |ring| ==> ring[i] != ring[j])
    && (forall i {:trigger ring[i].next} :: 0 <= i < |ring| - 1 ==> ring[i].next == ring[i + 1])
    && (forall i {:trigger ring[i].prev} :: 1 <= i < |ring| ==> ring[i].prev == ring[i - 1])
    && (|ring| > 0 ==> ring[|ring| - 1].next == ring[0] && ring[0].prev == ring[|ring| - 1])
  }

  ghost predicate IsList(head: ListEntry, body: seq<ListEntry>)
    reads head, body
  {
    IsRing([head] + body)
  }

  /** The body without position `k`; position `|body|` stands for an entry already taken out. */
  function WithoutAt<T>(body: seq<T>, k: nat): (rest: seq<T>)
    requires k <= |body|
  {
    if k < |body| then body[..k] + body[k + 1..] else body
  }

  /** An entry that has just been taken off the front: its own links still point into the list. */
  ghost predicate JustPopped(head: ListEntry, body: seq<ListEntry>, entry: ListEntry)
    reads head, entry
  {
    entry != head && entry !in body && entry.prev == head && entry.next == head.next
  }

  predicate IsListEmpty(head: ListEntry)
    reads head
  {
    head.next == head
  }

  /** The one test the kernel makes on a list agrees with the sequence. */
  lemma EmptyTest(head: ListEntry, body: seq<ListEntry>)
    requires IsList(head, body)
    ensures IsListEmpty(head) <==> body == []
  {
  }

  /** A list determines its contents: two readings of the same ring agree. */
  lemma {:induction false} ContentsUnique(head: ListEntry, b1: seq<ListEntry>, b2: seq<ListEntry>)
    requires IsList(head, b1) && IsList(head, b2)
    ensures b1 == b2
  {
    var r1, r2 := [head] + b1, [head] + b2;
    var n := if |r1| < |r2| then |r1| else |r2|;
    SamePrefix(r1, r2, n - 1);
    assert r1[n - 1].next == r2[n - 1].next;
    assert b1 == r1[1..] && b2 == r2[1..];
  }

  lemma {:induction false} SamePrefix(r1: seq<ListEntry>, r2: seq<ListEntry>, k: nat)
    requires IsRing(r1) && IsRing(r2) && k < |r1| && k < |r2| && r1[0] == r2[0]
    ensures forall i :: 0 <= i <= k ==> r1[i] == r2[i]
  {
    if k > 0 {
      SamePrefix(r1, r2, k - 1);
      assert r1[k - 1].next == r1[k] && r2[k - 1].next == r2[k];
    }
  }

  lemma OnlyOccurrence(head: ListEntry, body: seq<ListEntry>, k: nat)
    requires IsList(head, body) && k < |body|
    ensures body[k] != head && body[k] !in body[..k] && body[k] !in body[k + 1..]
  {
    var ring := [head] + body;
    assert forall i :: 0 <= i < |body| ==> body[i] == ring[i + 1];
    assert head == ring[0];
  }

  /** The links around position `k` of a list. */
  lemma Neighbours(head: ListEntry, body: seq<ListEntry>, k: nat)
    requires IsList(head, body) && k < |body|
    ensures body[k].prev == if k == 0 then head else body[k - 1]
    ensures body[k].next == if k + 1 == |body| then head else body[k + 1]
  {
    var ring := [head] + body;
    assert ring[k + 1].prev == ring[k];
    assert ring[k + 1].next == if k + 1 == |body| then head else ring[k + 2];
  }

  lemma Ends(head: ListEntry, body: seq<ListEntry>)
    requires IsList(head, body)
    ensures head.next == if body == [] then head else body[0]
    ensures head.prev == if body == [] then head else body[|body| - 1]
    ensures head !in body
  {
    var ring := [head] + body;
    assert ring[0].next == if body == [] then head else ring[1];
    assert ring[0].prev == ring[|ring| - 1];
    assert forall i :: 0 <= i < |body| ==> body[i] == ring[i + 1];
  }

  method InsertTailList(head: ListEntry, entry: ListEntry, ghost body: seq<ListEntry>)
    requires IsList(head, body)
    requires entry != head && entry !in body
    modifies head, entry, head.prev
    ensures IsList(head, body + [entry])
  {
    ghost var ring := [head] + body;
    Ends(head, body);
    var oldLast := head.prev;
    head.prev := entry;
    entry.next := head;
    entry.prev := oldLast;
    oldLast.next := entry;
    assert [head] + (body + [entry]) == ring + [entry];
  }

  method InsertHeadList(head: ListEntry, entry: ListEntry, ghost body: seq<ListEntry>)
    requires IsList(head, body)
    requires entry != head && entry !in body
    modifies head, entry, head.next
    ensures IsList(head, [entry] + body)
  {
    ghost var ring := [head] + body;
    Ends(head, body);
    var oldFirst := head.next;
    head.next := entry;
    entry.next := oldFirst;
    entry.prev := head;
    oldFirst.prev := entry;
    ghost var ring' := [head, entry] + body;
    assert [head] + ([entry] + body) == ring';
    assert forall i :: 1 < i < |ring'| ==> ring'[i] == ring[i - 1];
  }

  /** Popping an empty list returns the head itself and changes nothing. */
  method RemoveHeadList(head: ListEntry, ghost body: seq<ListEntry>) returns (result: ListEntry)
    requires IsList(head, body)
    modifies head, head.next.next
    ensures body == [] ==> result == head && IsList(head, [])
    ensures body != [] ==> result == body[0] && IsList(head, body[1..]) && JustPopped(head, body[1..], result)
  {
    Ends(head, body);
    if body != [] {
      Neighbours(head, body, 0);
      OnlyOccurrence(head, body, 0);
    }
    ghost var ring := [head] + body;
    result := head.next;
    head.next := head.next.next;
    head.next.prev := head;
    if body != [] {
      ghost var ring' := [head] + body[1..];
      assert forall i :: 0 < i < |ring'| ==> ring'[i] == ring[i + 1];
    }
  }

  method RemoveTailList(head: ListEntry, ghost body: seq<ListEntry>) returns (result: ListEntry)
    requires IsList(head, body)
    modifies head, head.prev.prev
    ensures body == [] ==> result == head && IsList(head, [])
    ensures body != [] ==> result == body[|body| - 1] && IsList(head, body[..|body| - 1])
  {
    Ends(head, body);
    if body != [] {
      Neighbours(head, body, |body| - 1);
      OnlyOccurrence(head, body, |body| - 1);
    }
    ghost var ring := [head] + body;
    result := head.prev;
    head.prev := head.prev.prev;
    head.prev.next := head;
    if body != [] {
      ghost var ring' := [head] + body[..|body| - 1];
      assert forall i :: 0 <= i < |ring'| ==> ring'[i] == ring[i];
    }
  }

  /** A ring whose neighbours of position `k` have been linked to each other. */
  ghost predicate Bypasses(ring: seq<ListEntry>, k: nat)
    requires 0 < k < |ring|
    reads ring
  {
    && (forall i, j :: 0 <= i < j < |ring| ==> ring[i] != ring[j])
    && (forall i {:trigger ring[i].next} ::
          0 <= i < |ring| - 1 && i != k && i != k - 1 ==> ring[i].next == ring[i + 1])
    && (forall i {:trigger ring[i].prev} ::
          1 <= i < |ring| && i != k && i != k + 1 ==> ring[i].prev == ring[i - 1])
    && (if k == |ring| - 1 then ring[k - 1].next == ring[0] && ring[0].prev == ring[k - 1]
        else && ring[k - 1].next == ring[k + 1] && ring[k + 1].prev == ring[k - 1]
             && ring[|ring| - 1].next == ring[0] && ring[0].prev == ring[|ring| - 1])
  }

  /** Bypassing position `k` of a ring leaves a ring without it. */
  lemma Spliced(ring: seq<ListEntry>, k: nat)
    requires 0 < k < |ring| && Bypasses(ring, k)
    ensures IsRing(ring[..k] + ring[k + 1..])
  {
  }

  /**
    Unlinks an entry.  Unlinking a member removes exactly that member; unlinking an entry
    that was just popped off the front is harmless, which signalling relies on: it pops a
    wait block and then unlinks it a second time.
  */
  method RemoveEntryList(entry: ListEntry, ghost head: ListEntry, ghost body: seq<ListEntry>, ghost k: nat)
    returns (nowEmpty: bool)
    requires IsList(head, body) && k <= |body|
    requires if k < |body| then body[k] == entry else JustPopped(head, body, entry)
    modifies entry.prev, entry.next
    ensures IsList(head, WithoutAt(body, k))
    ensures nowEmpty <==> WithoutAt(body, k) == []
  {
    ghost var ring := [head] + body;
    Ends(head, body);
    if k < |body| {
      OnlyOccurrence(head, body, k);
      Neighbours(head, body, k);
      assert ring[k + 1] == entry;
      assert 0 < k < |body| - 1 ==> ring[k] != ring[k + 2];
    }
    var prev := entry.prev;
    var next := entry.next;
    nowEmpty := prev == next;
    prev.next := next;
    next.prev := prev;
    if k < |body| {
      Spliced(ring, k + 1);
      assert [head] + WithoutAt(body, k) == ring[..k + 1] + ring[k + 2..];
    }
  }

  /** How a signal takes a wait block: pop it, then unlink it again. */
  method PopAndUnlink(head: ListEntry, ghost body: seq<ListEntry>) returns (entry: ListEntry)
    requires IsList(head, body) && body != []
    modifies head, body
    ensures entry == body[0]
    ensures IsList(head, body[1..])
  {
    Ends(head, body);
    Neighbours(head, body, 0);
    entry := RemoveHeadList(head, body);
    Ends(head, body[1..]);
    var _ := RemoveEntryList(entry, head, body[1..], |body| - 1);
  }

  /** How a scan moves an entry from the middle of one list to the tail of another. */
  method MoveToTail(entry: ListEntry, from: ListEntry, to: ListEntry,
                    ghost source: seq<ListEntry>, ghost target: seq<ListEntry>, ghost k: nat)
    requires IsList(from, source) && IsList(to, target)
    requires k < |source| && source[k] == entry
    requires from != to && from !in target && to !in source
    requires forall i :: 0 <= i < |source| ==> source[i] !in target
    modifies from, to, source, target
    ensures IsList(from, WithoutAt(source, k)) && IsList(to, target + [entry])
  {
    Neighbours(from, source, k);
    OnlyOccurrence(from, source, k);
    Ends(to, target);
    Separate(from, source, to, target, k);
    var _ := RemoveEntryList(entry, from, source, k);
    Ends(to, target);
    InsertTailList(to, entry, target);
  }

  /** Two lists with no node in common: unlinking from one touches no node of the other. */
  lemma Separate(from: ListEntry, source: seq<ListEntry>, to: ListEntry, target: seq<ListEntry>, k: nat)
    requires IsList(from, source) && IsList(to, target) && k < |source|
    requires from != to && from !in target && to !in source
    requires forall i :: 0 <= i < |source| ==> source[i] !in target
    ensures source[k].prev != to && source[k].prev !in target
    ensures source[k].next != to && source[k].next !in target
    ensures forall x :: x in [from] + (source[..k] + source[k + 1..]) ==>
                          x != to && x !in target && x != source[k] && x != to.prev
  {
    Neighbours(from, source, k);
    OnlyOccurrence(from, source, k);
    Ends(to, target);
    forall x | x in [from] + (source[..k] + source[k + 1..])
      ensures x != to && x !in target && x != source[k] && x != to.prev
    {
      if x != from {
        assert x in source[..k] || x in source[k + 1..];
        assert x in source;
      }
    }
  }
}
