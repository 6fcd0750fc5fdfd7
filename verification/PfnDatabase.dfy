/**
  The page frame database: every frame records its list and flags, and the lists and counters are
  updated in place under one lock.
*/
module PfnDatabase {
  import opened Common
  import opened PhysicalAllocator

  /** A later hit of the scan is a run of its own only if the frame before it did not belong to it. */
  lemma FirstRunIs(free: seq<Pfn>, k: nat, count: nat, below4GB: bool)
    requires IsRun(free, k, count, below4GB)
    requires forall j :: 0 <= j < k ==> !IsRun(free, j, count, below4GB)
    ensures FirstRun(free, 0, count, below4GB) == Some(k)
  {
  }

  /** Taking one frame more. */
  lemma TakeOneMore(s: Frames, k: nat, count: nat)
    requires k + count < |s.free|
    ensures var t := TakeRange(s, k, count);
      var x := s.free[k + count];
      && k < |t.free| && t.free[k] == x
      && TakeRange(s, k, count + 1).free == t.free[..k] + t.free[k + 1..]
      && TakeRange(s, k, count + 1).working == t.working + [x]
      && (x < |s.flags| ==> TakeRange(s, k, count + 1).flags == t.flags[x := FLAG_REGION])
  {
    assert s.free[k..k + count + 1] == s.free[k..k + count] + [s.free[k + count]];
    var t := TakeRange(s, k, count);
    assert t.free[..k] == s.free[..k];
    assert t.free[k + 1..] == s.free[k + count + 1..];
  }

  /** One frame moved from the free list to the working list. */
  function Moved(s: Frames, k: nat, value: nat): Frames
    requires k < |s.free|
  {
    Frames(s.free[..k] + s.free[k + 1..], s.working + [s.free[k]],
           if s.free[k] < |s.flags| then s.flags[s.free[k] := value] else s.flags)
  }

  lemma MovedValid(s: Frames, k: nat, value: nat)
    requires Valid(s) && k < |s.free|
    ensures s.free[k] < |s.flags| && Valid(Moved(s, k, value))
  {
    hide Valid, IsPermanent;
    var t := TakeRange(s, k, 1);
    FrameInRange(s, s.free[k]);
    TakeRangeValid(s, k, 1);
    assert s.free[k..k + 1] == [s.free[k]];
    FrameInRange(t, s.free[k]);
    FlagsValid(t, Moved(s, k, value).flags);
  }

  lemma FirstMoved(s: Frames)
    requires Valid(s) && s.free != []
    ensures s.free[0] < |s.flags| && Allocate(s) == (Moved(s, 0, 0), Success(s.free[0]))
  {
    FrameInRange(s, s.free[0]);
    assert s.free[..0] + s.free[1..] == s.free[1..];
  }

  function InitialFlags(given: nat): nat {
    if given != 0 then FLAG_PERMANENT + FLAG_NO_PAGEOUT else 0
  }

  lemma InitialShape(given: seq<nat>, s: Frames)
    requires s.free == Indices(given, |given|, true) && s.working == Indices(given, |given|, false)
    requires |s.flags| == |given| && forall f :: 0 <= f < |given| ==> s.flags[f] == InitialFlags(given[f])
    ensures s == Initial(given)
  {
  }

  lemma InitialPermanent(given: seq<nat>)
    ensures forall f <- Initial(given).working :: f < |given| && IsPermanent(Initial(given).flags[f])
  {
    hide Indices;
    InitialValid(given);
    forall f | f in Initial(given).working
      ensures f < |given| && IsPermanent(Initial(given).flags[f])
    {
      FrameInRange(Initial(given), f);
    }
  }

  class Database {
    var free: seq<Pfn>
    var working: seq<Pfn>
    var freeCount: int
    var workingCount: int
    const inFree: array<bool>
    const flags: array<nat>
    ghost var permanent: seq<Pfn>

    function View(): Frames
      reads this, flags
    {
      Frames(free, working, flags[..])
    }

    /** The lists, and the list every frame says it is on, agree. */
    ghost predicate ListsAgree()
      reads this, inFree, flags
    {
      && inFree.Length == flags.Length
      && forall f :: 0 <= f < flags.Length ==> (inFree[f] <==> f in free)
    }

    /**
      The counters move with the lists: the free counter starts with the permanent frames in it,
      which never leave the working list.
    */
    ghost predicate Counted()
      reads this, flags
    {
      && multiset(permanent) <= multiset(working)
      && (forall f <- permanent :: f < flags.Length && IsPermanent(flags[f]))
      && freeCount == |free| + |permanent| && workingCount == |working| - |permanent| >= 0
    }

    ghost predicate Ok()
      reads this, inFree, flags
    {
      Valid(View()) && ListsAgree() && Counted()
    }

    /** Frames whose flags are not zero start in use, for good. */
    constructor MmReinitPhysAllocator(entries: array<nat>)
      ensures Ok() && View() == Initial(old(entries[..])) && fresh(inFree) && fresh(flags)
      ensures freeCount == entries.Length && workingCount == 0 && permanent == working
    {
      hide Indices, Initial, IsPermanent;
      var n := entries.Length;
      inFree := new bool[n];
      flags := new nat[n];
      free, working := [], [];
      freeCount, workingCount := n, 0;
      new;
      ghost var given := entries[..];
      assert given == old(entries[..]);
      IndicesNone(given, true);
      IndicesNone(given, false);
      for i := 0 to n
        invariant entries[..] == given
        invariant free == Indices(given, i, true) && working == Indices(given, i, false)
        invariant |free| + |working| == i && freeCount == n && workingCount == 0
        invariant forall f :: 0 <= f < i ==> flags[f] == InitialFlags(given[f]) && (inFree[f] <==> given[f] == 0)
      {
        IndicesNext(given, i, true);
        IndicesNext(given, i, false);
        if entries[i] != 0 {
          flags[i] := FLAG_PERMANENT + FLAG_NO_PAGEOUT;
          inFree[i] := false;
          working := working + [i];
        } else {
          flags[i] := 0;
          inFree[i] := true;
          free := free + [i];
        }
      }
      permanent := working;
      InitialShape(given, View());
      InitialValid(given);
      InitialPermanent(given);
    }

    /** Moves the frame at position `k` of the free list to the end of the working list. */
    method MoveToWorking(k: nat, value: nat)
      requires Ok() && k < |free|
      modifies this, inFree, flags
      ensures Ok() && View() == Moved(old(View()), k, value) && permanent == old(permanent)
    {
      hide Valid, IsPermanent;
      ghost var s := View();
      var f := free[k];
      MovedValid(s, k, value);
      FrameInRange(s, f);
      PermanentInUse(s, permanent);
      TakenFromFree(s, k, f);
      free := free[..k] + free[k + 1..];
      freeCount := freeCount - 1;
      inFree[f] := false;
      workingCount := workingCount + 1;
      flags[f] := value;
      working := working + [f];
    }

    /** Hands out the first free frame. */
    method MmAllocatePfn() returns (result: Result<Pfn>)
      requires Ok()
      modifies this, inFree, flags
      ensures Ok() && (View(), result) == Allocate(old(View())) && permanent == old(permanent)
    {
      hide Valid;
      if free == [] {
        return NoMemory;
      }
      var f := free[0];
      FirstMoved(View());
      MoveToWorking(0, 0);
      result := Success(f);
    }

    /** Moves the frames from position `start` up to position `end` of the free list. */
    method MiLockedAllocRange(start: nat, end: nat)
      requires Ok() && start <= end <= |free|
      modifies this, inFree, flags
      ensures Ok() && View() == TakeRange(old(View()), start, end - start) && permanent == old(permanent)
    {
      hide IsRun, Valid, TakeRange, IsPermanent;
      ghost var s := View();
      var current := start;
      TakeNothing(s, start);
      while current < end
        invariant start <= current <= end <= |s.free|
        invariant View() == TakeRange(s, start, current - start)
        invariant Ok() && permanent == old(permanent)
      {
        TakeOneMore(s, start, current - start);
        FrameInRange(View(), free[start]);
        MoveToWorking(start, FLAG_REGION);
        current := current + 1;
      }
    }

    /** Hands out the first region of consecutive frames, if there is one. */
    method MmAllocatePfnRegion(n: nat, below4GB: bool) returns (result: Result<Pfn>)
      requires Ok()
      modifies this, inFree, flags
      ensures Ok() && (View(), result) == AllocateRegion(old(View()), n, below4GB) && permanent == old(permanent)
    {
      hide IsRun, Valid, FirstRun, TakeRange;
      if free == [] {
        EmptyHasNoRun(n, below4GB);
        return NoMemory;
      }
      var i, start, prefix, last := 0, 0, 0, 0;
      var started := false;
      while i < |free|
        invariant i <= |free| && (started <==> i > 0)
        invariant free == old(free) && View() == old(View()) && Ok() && permanent == old(permanent)
        invariant started ==> start + prefix == i - 1 && last == free[i - 1] && prefix + 1 < n
        invariant started ==> IsRun(free, start, prefix + 1, below4GB) && (start == 0 || !Follows(free, start, below4GB))
        invariant forall k :: 0 <= k && k + RegionSize(n) <= i ==> !IsRun(free, k, RegionSize(n), below4GB)
      {
        var f := free[i];
        if started && last + 1 == f && (!below4GB || f < FOUR_GIGABYTES) {
          ExtendRun(free, start, prefix + 1, below4GB);
          prefix := prefix + 1;
        } else {
          SingleRun(free, i, below4GB);
          prefix := 0;
          start := i;
          started := true;
        }
        last := f;
        i := i + 1;
        NoEarlierRun(free, start, prefix + 1, RegionSize(n), below4GB);
        if prefix + 1 >= n {
          FirstRunIs(free, start, RegionSize(n), below4GB);
          result := Success(free[start]);
          MiLockedAllocRange(start, i);
          return;
        }
      }
      NoRunAtAll(free, RegionSize(n), below4GB);
      result := NoMemory;
    }

    /** Takes a frame back unless it is free already or permanent. */
    method MmFreePfn(f: Pfn) returns (result: Result<()>)
      requires Ok() && f < flags.Length
      modifies this, inFree, flags
      ensures Ok() && (View(), result) == Free(old(View()), f) && permanent == old(permanent)
    {
      hide Without, IsPermanent, Valid;
      ghost var s := View();
      if inFree[f] || IsPermanent(flags[f]) {
        return InvalidParameter;
      }
      FreeValid(s, f);
      FreedLists(s, permanent, f);
      working := Without(working, f);
      workingCount := workingCount - 1;
      inFree[f] := true;
      freeCount := freeCount + 1;
      free := free + [f];
      result := Success(());
    }
  }

  lemma TakeNothing(s: Frames, k: nat)
    requires k <= |s.free|
    ensures TakeRange(s, k, 0) == s
  {
  }

  lemma EmptyHasNoRun(n: nat, below4GB: bool)
    ensures FirstRun([], 0, RegionSize(n), below4GB) == None
  {
  }

  lemma ExtendRun(free: seq<Pfn>, k: nat, count: nat, below4GB: bool)
    requires IsRun(free, k, count, below4GB) && k + count < |free| && 0 < count && Follows(free, k + count, below4GB)
    ensures IsRun(free, k, count + 1, below4GB)
  {
  }

  lemma SingleRun(free: seq<Pfn>, k: nat, below4GB: bool)
    requires k < |free|
    ensures IsRun(free, k, 1, below4GB)
  {
  }

  /** Until the prefix is long enough, no run ends where the scan is. */
  lemma NoEarlierRun(free: seq<Pfn>, start: nat, length: nat, count: nat, below4GB: bool)
    requires 0 < length <= count && start + length <= |free|
    requires start == 0 || !Follows(free, start, below4GB)
    requires forall k :: 0 <= k && k + count <= start + length - 1 ==> !IsRun(free, k, count, below4GB)
    ensures forall k :: 0 <= k < start && k + count <= start + length ==> !IsRun(free, k, count, below4GB)
  {
  }

  lemma NoRunAtAll(free: seq<Pfn>, count: nat, below4GB: bool)
    requires forall k :: 0 <= k && k + count <= |free| ==> !IsRun(free, k, count, below4GB)
    ensures FirstRun(free, 0, count, below4GB) == None
  {
  }

  /** Permanent frames are not on the free list. */
  lemma PermanentInUse(s: Frames, permanent: seq<Pfn>)
    requires Valid(s) && multiset(permanent) <= multiset(s.working)
    ensures forall f <- permanent :: f !in s.free
  {
    forall f | f in permanent
      ensures f !in s.free
    {
      assert f in multiset(permanent);
      assert f in multiset(s.working);
      assert f in s.working;
      FrameInRange(s, f);
    }
  }

  lemma TakenFromFree(s: Frames, k: nat, f: Pfn)
    requires Valid(s) && k < |s.free| && s.free[k] == f
    ensures forall g: Pfn :: g in s.free[..k] + s.free[k + 1..] <==> g in s.free && g != f
  {
    assert s.free == s.free[..k] + [f] + s.free[k + 1..];
    FrameInRange(s, f);
    assert multiset(s.free)[f] == 1;
    forall g: Pfn
      ensures g in s.free[..k] + s.free[k + 1..] <==> g in s.free && g != f
    {
      assert g in s.free <==> g in multiset(s.free);
      assert g in s.free[..k] + s.free[k + 1..] <==> g in multiset(s.free[..k] + s.free[k + 1..]);
    }
  }

  lemma FreedLists(s: Frames, permanent: seq<Pfn>, f: Pfn)
    requires Valid(s) && f < |s.flags| && f !in s.free && !IsPermanent(s.flags[f])
    requires multiset(permanent) <= multiset(s.working)
    requires forall g <- permanent :: g < |s.flags| && IsPermanent(s.flags[g])
    ensures multiset(permanent) <= multiset(Without(s.working, f))
    ensures |Without(s.working, f)| == |s.working| - 1 >= |permanent|
  {
    assert OnOneList(s, f);
    assert multiset(s.free)[f] == 0;
    assert f !in permanent;
    assert multiset(permanent)[f] == 0;
    assert |multiset(s.working) - multiset{f}| == |multiset(s.working)| - 1;
    assert |multiset(Without(s.working, f))| == |s.working| - 1;
    assert |multiset(permanent)| <= |multiset(Without(s.working, f))| by {
      var rest := multiset(Without(s.working, f)) - multiset(permanent);
      assert multiset(Without(s.working, f)) == multiset(permanent) + rest;
    }
  }
}
