/**
  Page frames on two lists, free and working.  Frames are handed out singly or as a region of
  consecutive frames, and come back at the end of the free list.
*/
module PhysicalAllocator {
  import opened Common

  type Pfn = nat

  datatype Result<+T> = Success(value: T) | NoMemory | InvalidParameter

  /** Frames below this number lie in the first four gigabytes. */
  const FOUR_GIGABYTES: nat := 0x10_0000

  const FLAG_NO_PAGEOUT: nat := 1
  const FLAG_PERMANENT: nat := 2
  const FLAG_REGION: nat := 4

  /** The two lists in order, and the flags of every frame. */
  datatype Frames = Frames(free: seq<Pfn>, working: seq<Pfn>, flags: seq<nat>)

  predicate IsPermanent(flags: nat) {
    flags / FLAG_PERMANENT % 2 == 1
  }

  /** Every frame is on exactly one list, once, and permanent frames are on the working list. */
  predicate Valid(s: Frames) {
    && (forall f :: 0 <= f < |s.flags| ==> OnOneList(s, f))
    && (forall f <- s.free :: f < |s.flags| && !IsPermanent(s.flags[f]))
    && (forall f <- s.working :: f < |s.flags|)
  }

  predicate OnOneList(s: Frames, f: Pfn) {
    multiset(s.free)[f] + multiset(s.working)[f] == 1
  }

  // --- the operations on the lists

  function Initial(flags: seq<nat>): Frames {
    Frames(Indices(flags, |flags|, true), Indices(flags, |flags|, false),
           seq(|flags|, i requires 0 <= i < |flags| => if flags[i] != 0 then FLAG_PERMANENT + FLAG_NO_PAGEOUT else 0))
  }

  /** The frames below `n` whose flags are zero, or are not. */
  function Indices(flags: seq<nat>, n: nat, zero: bool): seq<Pfn>
    requires n <= |flags|
  {
    if n == 0 then []
    else Indices(flags, n - 1, zero) + if (flags[n - 1] == 0) == zero then [n - 1] else []
  }

  function Allocate(s: Frames): (r: (Frames, Result<Pfn>))
    requires Valid(s)
    ensures !r.1.Success? ==> r == (s, NoMemory)
  {
    if s.free == [] then (s, NoMemory)
    else
      assert s.free[0] in s.free;
      (Frames(s.free[1..], s.working + [s.free[0]], s.flags[s.free[0] := 0]), Success(s.free[0]))
  }

  /** `count` list neighbours from position `k` on are consecutive frames. */
  predicate IsRun(free: seq<Pfn>, k: nat, count: nat, below4GB: bool) {
    k + count <= |free| && forall j :: k < j < k + count ==> Follows(free, j, below4GB)
  }

  predicate Follows(free: seq<Pfn>, j: nat, below4GB: bool)
    requires 0 < j < |free|
  {
    free[j] == free[j - 1] + 1 && (below4GB ==> free[j] < FOUR_GIGABYTES)
  }

  /** The first run of `count` frames at or after position `k`. */
  function FirstRun(free: seq<Pfn>, k: nat, count: nat, below4GB: bool): (r: Option<nat>)
    ensures r.Some? ==> k <= r.value && IsRun(free, r.value, count, below4GB)
    ensures r.Some? ==> forall j :: k <= j < r.value ==> !IsRun(free, j, count, below4GB)
    ensures r.None? ==> forall j :: k <= j ==> !IsRun(free, j, count, below4GB)
    decreases |free| - k
  {
    if k + count > |free| then None
    else if IsRun(free, k, count, below4GB) then Some(k)
    else if k == |free| then None
    else FirstRun(free, k + 1, count, below4GB)
  }

  function MarkAll(flags: seq<nat>, frames: seq<Pfn>, value: nat): (r: seq<nat>)
    ensures |r| == |flags|
    ensures forall f :: 0 <= f < |flags| ==> r[f] == if f in frames then value else flags[f]
    decreases |frames|
  {
    if frames == [] then flags
    else if frames[0] < |flags| then MarkAll(flags[frames[0] := value], frames[1..], value)
    else MarkAll(flags, frames[1..], value)
  }

  /** Moves the `count` frames at position `k` of the free list to the working list. */
  function TakeRange(s: Frames, k: nat, count: nat): Frames
    requires k + count <= |s.free|
  {
    Frames(s.free[..k] + s.free[k + count..], s.working + s.free[k..k + count],
           MarkAll(s.flags, s.free[k..k + count], FLAG_REGION))
  }

  /** A region of no frames is a region of one. */
  function RegionSize(n: nat): nat {
    if n == 0 then 1 else n
  }

  function AllocateRegion(s: Frames, n: nat, below4GB: bool): (Frames, Result<Pfn>)
    requires Valid(s)
  {
    match FirstRun(s.free, 0, RegionSize(n), below4GB)
    case None => (s, NoMemory)
    case Some(k) => (TakeRange(s, k, RegionSize(n)), Success(s.free[k]))
  }

  function Free(s: Frames, f: Pfn): (r: (Frames, Result<()>))
    requires f < |s.flags|
    ensures !r.1.Success? ==> r == (s, InvalidParameter)
  {
    if f in s.free || IsPermanent(s.flags[f]) then (s, InvalidParameter)
    else (s.(working := Without(s.working, f), free := s.free + [f]), Success(()))
  }

  // --- the partition of the frames

  lemma IndicesNone(flags: seq<nat>, zero: bool)
    ensures Indices(flags, 0, zero) == []
  {
  }

  lemma IndicesNext(flags: seq<nat>, i: nat, zero: bool)
    requires i < |flags|
    ensures Indices(flags, i + 1, zero) == if (flags[i] == 0) == zero then Indices(flags, i, zero) + [i] else Indices(flags, i, zero)
  {
  }

  lemma CountAppend(list: seq<Pfn>, x: Pfn, f: Pfn)
    ensures multiset(list + [x])[f] == multiset(list)[f] + if x == f then 1 else 0
  {
  }

  lemma {:induction false} IndicesMembers(flags: seq<nat>, n: nat, zero: bool, f: Pfn)
    requires n <= |flags|
    ensures multiset(Indices(flags, n, zero))[f] == if f < n && (flags[f] == 0) == zero then 1 else 0
  {
    hide Indices;
    if n == 0 {
      IndicesNone(flags, zero);
    } else {
      IndicesMembers(flags, n - 1, zero, f);
      IndicesNext(flags, n - 1, zero);
      CountAppend(Indices(flags, n - 1, zero), n - 1, f);
    }
  }

  lemma InitialValid(flags: seq<nat>)
    ensures Valid(Initial(flags))
    ensures forall f :: 0 <= f < |flags| ==> (f in Initial(flags).free <==> flags[f] == 0)
  {
    hide Indices;
    var s := Initial(flags);
    forall f: Pfn
      ensures multiset(s.free)[f] == (if f < |flags| && flags[f] == 0 then 1 else 0)
      ensures multiset(s.working)[f] == (if f < |flags| && flags[f] != 0 then 1 else 0)
    {
      IndicesMembers(flags, |flags|, true, f);
      IndicesMembers(flags, |flags|, false, f);
    }
    assert forall f: Pfn :: f in s.free <==> f in multiset(s.free);
    assert forall f: Pfn :: f in s.working <==> f in multiset(s.working);
  }

  /** Moving frames from list to list loses none and doubles none. */
  lemma TakenCounts(s: Frames, k: nat, count: nat, f: Pfn)
    requires k + count <= |s.free|
    ensures var r := TakeRange(s, k, count);
      multiset(r.free)[f] + multiset(r.working)[f] == multiset(s.free)[f] + multiset(s.working)[f]
  {
    hide MarkAll;
    assert s.free == s.free[..k] + s.free[k..k + count] + s.free[k + count..];
  }

  lemma TakeRangeValid(s: Frames, k: nat, count: nat)
    requires Valid(s) && k + count <= |s.free|
    ensures Valid(TakeRange(s, k, count))
  {
    hide MarkAll, IsPermanent;
    var r := TakeRange(s, k, count);
    forall f | 0 <= f < |r.flags|
      ensures OnOneList(r, f)
    {
      assert OnOneList(s, f);
      TakenCounts(s, k, count, f);
    }
    forall f | f in r.free
      ensures f < |r.flags| && !IsPermanent(r.flags[f])
    {
      TakenStay(s, k, count, f);
    }
    forall f | f in r.working
      ensures f < |r.flags|
    {
      assert f in s.working || f in s.free;
    }
  }

  /** What stays on the free list was there and is not among the frames taken. */
  lemma TakenStay(s: Frames, k: nat, count: nat, f: Pfn)
    requires Valid(s) && k + count <= |s.free| && f in s.free[..k] + s.free[k + count..]
    ensures f in s.free && f !in s.free[k..k + count]
  {
    hide IsPermanent;
    var kept: seq<Pfn>, range: seq<Pfn> := s.free[..k] + s.free[k + count..], s.free[k..k + count];
    assert s.free == s.free[..k] + range + s.free[k + count..];
    assert f in s.free;
    assert OnOneList(s, f);
    assert f in kept && multiset(s.free)[f] == multiset(kept)[f] + multiset(range)[f];
  }

  lemma FrameInRange(s: Frames, f: Pfn)
    requires Valid(s) && (f in s.free || f in s.working)
    ensures f < |s.flags| && OnOneList(s, f) && (f in s.free <==> f !in s.working)
  {
  }

  lemma AllocateValid(s: Frames)
    requires Valid(s)
    ensures Valid(Allocate(s).0)
    ensures s.free != [] ==> Allocate(s).0 == TakeRange(s, 0, 1).(flags := Allocate(s).0.flags)
  {
    if s.free != [] {
      var first := s.free[0];
      assert first in s.free;
      var r := Allocate(s).0;
      TakeRangeValid(s, 0, 1);
      assert s.free[0..1] == [first];
      assert s.free[..0] + s.free[1..] == s.free[1..];
      FrameInRange(TakeRange(s, 0, 1), first);
      FlagsValid(TakeRange(s, 0, 1), r.flags);
    }
  }

  /** Changing the flags of frames on the working list keeps the partition. */
  lemma FlagsValid(s: Frames, flags: seq<nat>)
    requires Valid(s) && |flags| == |s.flags|
    requires forall f <- s.free :: f < |s.flags| ==> flags[f] == s.flags[f]
    ensures Valid(s.(flags := flags))
  {
    var r := s.(flags := flags);
    forall f | 0 <= f < |r.flags|
      ensures OnOneList(r, f)
    {
      assert OnOneList(s, f);
    }
  }

  lemma FreeValid(s: Frames, f: Pfn)
    requires Valid(s) && f < |s.flags|
    ensures Valid(Free(s, f).0)
  {
    hide Without;
    if f !in s.free && !IsPermanent(s.flags[f]) {
      var r := Free(s, f).0;
      forall g | 0 <= g < |r.flags|
        ensures OnOneList(r, g)
      {
        FreeKeepsOne(s, f, g);
      }
      forall g | g in r.working
        ensures g < |r.flags|
      {
        assert g in multiset(r.working);
        assert g in multiset(s.working);
        assert g in s.working;
      }
    }
  }

  /**
    A frame is taken back exactly when it is in use and not permanent; it is then the last to be
    handed out again.
  */
  lemma FreeExactly(s: Frames, f: Pfn)
    requires Valid(s) && f < |s.flags|
    ensures var (r, result) := Free(s, f);
      && (result.Success? <==> f in s.working && s.flags[f] / 2 % 2 == 0)
      && (result.Success? ==>
           r.free == s.free + [f] && f !in r.working && multiset(r.working) == multiset(s.working) - multiset{f} && r.flags == s.flags)
      && (!result.Success? ==> result == InvalidParameter && r == s)
  {
    FreeValid(s, f);
    assert OnOneList(s, f);
    var r := Free(s, f).0;
    assert f in r.working ==> f in multiset(r.working);
  }

  lemma FreeKeepsOne(s: Frames, f: Pfn, g: Pfn)
    requires Valid(s) && f < |s.flags| && f !in s.free && !IsPermanent(s.flags[f]) && g < |s.flags|
    ensures OnOneList(Free(s, f).0, g)
  {
    assert OnOneList(s, g) && OnOneList(s, f);
    assert multiset(s.free)[f] == 0;
    assert multiset(Free(s, f).0.free) == multiset(s.free) + multiset{f};
  }

  // --- regions

  lemma {:induction false} RunConsecutive(free: seq<Pfn>, k: nat, count: nat, below4GB: bool, i: nat)
    requires IsRun(free, k, count, below4GB) && i < count
    ensures free[k + i] == free[k] + i
  {
    if i > 0 {
      RunConsecutive(free, k, count, below4GB, i - 1);
      assert Follows(free, k + i, below4GB);
    }
  }

  function Consecutive(first: Pfn, count: nat): seq<Pfn> {
    seq(count, i requires 0 <= i < count => first + i)
  }

  /** The frames at position `k` of a list are consecutive. */
  predicate HoldsRegion(free: seq<Pfn>, k: nat, count: nat) {
    k + count <= |free| && 0 < count && free[k..k + count] == Consecutive(free[k], count)
  }

  lemma RunIsRegion(free: seq<Pfn>, k: nat, count: nat)
    requires 0 < count
    ensures IsRun(free, k, count, false) <==> HoldsRegion(free, k, count)
  {
    if IsRun(free, k, count, false) {
      forall i | 0 <= i < count
        ensures free[k..k + count][i] == Consecutive(free[k], count)[i]
      {
        RunConsecutive(free, k, count, false, i);
      }
    } else if HoldsRegion(free, k, count) {
      forall j | k < j < k + count
        ensures Follows(free, j, false)
      {
        assert free[j] == free[k..k + count][j - k] == free[k] + (j - k);
        assert free[j - 1] == free[k..k + count][j - k - 1] == free[k] + (j - k - 1);
      }
    }
  }

  /** A region that may be asked for below four gigabytes; the limit is checked from the second frame on. */
  predicate FitsAt(free: seq<Pfn>, k: nat, count: nat, below4GB: bool) {
    HoldsRegion(free, k, count) && (below4GB && 2 <= count ==> (free[k] + count) * 0x1000 <= 0x1_0000_0000)
  }

  lemma RunFitsAt(free: seq<Pfn>, k: nat, count: nat, below4GB: bool)
    requires 0 < count
    ensures IsRun(free, k, count, below4GB) <==> FitsAt(free, k, count, below4GB)
  {
    hide HoldsRegion;
    RunIsRegion(free, k, count);
    if IsRun(free, k, count, below4GB) {
      forall j | k < j < k + count
        ensures Follows(free, j, false)
      {
        assert Follows(free, j, below4GB);
      }
      RunConsecutive(free, k, count, below4GB, count - 1);
      assert 2 <= count ==> Follows(free, k + count - 1, below4GB);
    } else if FitsAt(free, k, count, below4GB) {
      forall j | k < j < k + count
        ensures Follows(free, j, below4GB)
      {
        assert Follows(free, j, false);
        RunConsecutive(free, k, count, false, j - k);
      }
    }
  }

  /**
    A region is found exactly when the free list holds a fitting one as neighbours in ascending
    order, and then it is the first; just its frames move, in order, to the end of the working
    list, and the others stay as they were.
  */
  lemma RegionExact(s: Frames, n: nat, below4GB: bool)
    requires Valid(s)
    ensures var (r, result) := AllocateRegion(s, n, below4GB);
      var count := if n == 0 then 1 else n;
      && Valid(r)
      && (result.Success? <==> exists k :: 0 <= k && FitsAt(s.free, k, count, below4GB))
      && (result.Success? ==>
           exists k :: 0 <= k && FitsAt(s.free, k, count, below4GB) && (forall j :: 0 <= j < k ==> !FitsAt(s.free, j, count, below4GB))
             && result.value == s.free[k]
             && r.free == s.free[..k] + s.free[k + count..]
             && r.working == s.working + Consecutive(result.value, count))
      && (!result.Success? ==> result == NoMemory && r == s)
  {
    hide Valid, Follows, FitsAt, IsRun, FirstRun, HoldsRegion, MarkAll;
    var count := RegionSize(n);
    var found := FirstRun(s.free, 0, count, below4GB);
    forall k: nat
      ensures IsRun(s.free, k, count, below4GB) <==> FitsAt(s.free, k, count, below4GB)
    {
      RunFitsAt(s.free, k, count, below4GB);
    }
    if found.Some? {
      FitsIsRegion(s.free, found.value, count, below4GB);
      TakeRangeValid(s, found.value, count);
    }
  }

  lemma FitsIsRegion(free: seq<Pfn>, k: nat, count: nat, below4GB: bool)
    requires FitsAt(free, k, count, below4GB)
    ensures k + count <= |free| && 0 < count && free[k..k + count] == Consecutive(free[k], count)
  {
  }

  lemma FitsBelow(free: seq<Pfn>, k: nat, n: nat)
    requires 2 <= n && FitsAt(free, k, n, true)
    ensures forall f <- Consecutive(free[k], n) :: f in free && f < FOUR_GIGABYTES
  {
    forall f | f in Consecutive(free[k], n)
      ensures f in free && f < FOUR_GIGABYTES
    {
      var i :| 0 <= i < n && f == Consecutive(free[k], n)[i];
      assert free[k + i] == free[k..k + n][i] == f;
    }
  }

  /** A region of two frames or more asked for below four gigabytes lies there entirely. */
  lemma RegionBelow4GB(s: Frames, n: nat)
    requires Valid(s) && 2 <= n && AllocateRegion(s, n, true).1.Success?
    ensures var (r, result) := AllocateRegion(s, n, true);
      && Valid(r) && r.working == s.working + Consecutive(result.value, n)
      && forall f <- Consecutive(result.value, n) :: f in s.free && f * 0x1000 + 0xFFF < 0x1_0000_0000
  {
    hide Valid, AllocateRegion, Consecutive;
    RegionExact(s, n, true);
    var value := AllocateRegion(s, n, true).1.value;
    var k :| 0 <= k && FitsAt(s.free, k, n, true) && value == s.free[k];
    FitsBelow(s.free, k, n);
  }

  /** A region of fewer frames is the first free frame, whether or not it is asked for below four gigabytes. */
  lemma SingleBelow4GB(s: Frames, n: nat)
    requires Valid(s) && n < 2
    ensures AllocateRegion(s, n, true) == AllocateRegion(s, n, false)
    ensures var (r, result) := AllocateRegion(s, n, true);
      if s.free == [] then result == NoMemory
      else result == Success(s.free[0]) && r.free == s.free[1..] && r.working == s.working + [s.free[0]]
  {
    if s.free != [] {
      assert IsRun(s.free, 0, 1, true) && IsRun(s.free, 0, 1, false);
      assert s.free[..0] + s.free[1..] == s.free[1..] && s.free[0..1] == [s.free[0]];
    }
  }

  /** The frames below four gigabytes are all in use for good, and one frame above is free. */
  function OnlyAbove4GB(): Frames {
    Initial(seq(FOUR_GIGABYTES + 1, f => if f == FOUR_GIGABYTES then 0 else 1))
  }

  /** There a region of one frame asked for below four gigabytes lies above. */
  lemma SingleAbove4GB()
    ensures var s := OnlyAbove4GB();
      Valid(s) && AllocateRegion(s, 1, true).1 == Success(FOUR_GIGABYTES)
  {
    hide Initial, Indices;
    var flags := seq(FOUR_GIGABYTES + 1, f => if f == FOUR_GIGABYTES then 0 else 1);
    var s := OnlyAbove4GB();
    InitialValid(flags);
    assert s == Initial(flags) && |s.flags| == |flags| by {
      InitialSize(flags);
    }
    assert flags[FOUR_GIGABYTES] == 0;
    assert FOUR_GIGABYTES in s.free;
    assert s.free[0] in s.free;
  }

  predicate Ascending(list: seq<Pfn>) {
    forall i, j :: 0 <= i < j < |list| ==> list[i] < list[j]
  }

  predicate Below(list: seq<Pfn>, n: nat) {
    forall i :: 0 <= i < |list| ==> list[i] < n
  }

  /** At first both lists are in ascending order, and a frame given as used is permanent and never paged out. */
  lemma InitialState(flags: seq<nat>)
    ensures var s := Initial(flags);
      && |s.flags| == |flags| && (forall f :: 0 <= f < |flags| ==> s.flags[f] == if flags[f] == 0 then 0 else 3)
      && Ascending(s.free) && Ascending(s.working)
  {
    IndicesAscend(flags, |flags|, true);
    IndicesAscend(flags, |flags|, false);
  }

  lemma {:induction false} IndicesAscend(flags: seq<nat>, n: nat, zero: bool)
    requires n <= |flags|
    ensures Ascending(Indices(flags, n, zero)) && Below(Indices(flags, n, zero), n)
  {
    hide Indices;
    if n == 0 {
      IndicesNone(flags, zero);
    } else {
      IndicesAscend(flags, n - 1, zero);
      IndicesNext(flags, n - 1, zero);
    }
  }

  lemma InitialSize(flags: seq<nat>)
    ensures |Initial(flags).flags| == |flags|
  {
  }

  // --- runs

  datatype Step = AllocateStep | RegionStep(n: nat, below4GB: bool) | FreeStep(f: Pfn)

  function After(s: Frames, step: Step): Frames
    requires Valid(s)
  {
    match step
    case AllocateStep => Allocate(s).0
    case RegionStep(n, below4GB) => AllocateRegion(s, n, below4GB).0
    case FreeStep(f) => if f < |s.flags| then Free(s, f).0 else s
  }

  /** The frames a step hands out. */
  function Granted(s: Frames, step: Step): seq<Pfn>
    requires Valid(s)
  {
    match step
    case AllocateStep => if Allocate(s).1.Success? then [Allocate(s).1.value] else []
    case RegionStep(n, below4GB) =>
      if AllocateRegion(s, n, below4GB).1.Success? then Consecutive(AllocateRegion(s, n, below4GB).1.value, RegionSize(n)) else []
    case FreeStep(_) => []
  }

  lemma AfterValid(s: Frames, step: Step)
    requires Valid(s)
    ensures Valid(After(s, step)) && |After(s, step).flags| == |s.flags|
  {
    match step
    case AllocateStep =>
      AllocateValid(s);
      if s.free != [] {
        FrameInRange(s, s.free[0]);
      }
    case RegionStep(n, below4GB) =>
      var found := FirstRun(s.free, 0, RegionSize(n), below4GB);
      if found.Some? {
        TakeRangeValid(s, found.value, RegionSize(n));
      }
    case FreeStep(f) =>
      if f < |s.flags| {
        FreeValid(s, f);
      }
  }

  /** Frames handed out were free and are no longer. */
  lemma GrantsMove(s: Frames, step: Step, f: Pfn)
    requires Valid(s) && f in Granted(s, step)
    ensures f in s.free && f in After(s, step).working
  {
    match step
    case AllocateStep =>
    case RegionStep(n, below4GB) =>
      var count := RegionSize(n);
      var k := FirstRun(s.free, 0, count, below4GB).value;
      var i :| 0 <= i < count && f == s.free[k] + i;
      RunConsecutive(s.free, k, count, below4GB, i);
      assert s.free[k..k + count][i] == f;
  }

  /** A frame handed out can be given back. */
  lemma GrantsCanBeFreed(s: Frames, step: Step, f: Pfn)
    requires Valid(s) && f in Granted(s, step)
    ensures var r := After(s, step);
      Valid(r) && f < |r.flags| && Free(r, f).1.Success?
  {
    hide Free, After, Granted, Valid;
    AfterValid(s, step);
    GrantsMove(s, step, f);
    FrameInRange(After(s, step), f);
    GrantFlags(s, step, f);
    FreeExactly(After(s, step), f);
  }

  /** The flags of a frame handed out: none, or the one of a region. */
  lemma GrantFlags(s: Frames, step: Step, f: Pfn)
    requires Valid(s) && f in Granted(s, step) && f < |After(s, step).flags|
    ensures After(s, step).flags[f] == if step.AllocateStep? then 0 else 4
  {
    hide Valid, AllocateRegion, Consecutive;
    AfterValid(s, step);
    match step
    case AllocateStep => FrameInRange(s, s.free[0]);
    case RegionStep(n, below4GB) => RegionFlags(s, n, below4GB, f);
  }

  lemma RegionFlags(s: Frames, n: nat, below4GB: bool, f: Pfn)
    requires Valid(s) && AllocateRegion(s, n, below4GB).1.Success?
    requires f in Consecutive(AllocateRegion(s, n, below4GB).1.value, RegionSize(n))
    ensures f < |s.flags| ==> f < |AllocateRegion(s, n, below4GB).0.flags| && AllocateRegion(s, n, below4GB).0.flags[f] == 4
  {
    hide Valid, IsRun, FirstRun, Follows, MarkAll, Consecutive;
    var count := RegionSize(n);
    var k := FirstRun(s.free, 0, count, below4GB).value;
    RunAnyway(s.free, k, count, below4GB);
    RunIsRegion(s.free, k, count);
    assert f in s.free[k..k + count];
  }

  lemma RunAnyway(free: seq<Pfn>, k: nat, count: nat, below4GB: bool)
    requires IsRun(free, k, count, below4GB)
    ensures IsRun(free, k, count, false)
  {
    forall j | k < j < k + count
      ensures Follows(free, j, false)
    {
      assert Follows(free, j, below4GB);
    }
  }

  /** The frames that a step puts back. */
  function PutBack(s: Frames, step: Step): seq<Pfn>
    requires Valid(s)
  {
    if step.FreeStep? && step.f < |s.flags| && Free(s, step.f).1.Success? then [step.f] else []
  }

  function AllGranted(s: Frames, steps: seq<Step>): seq<Pfn>
    requires Valid(s)
    decreases |steps|
  {
    if steps == [] then []
    else
      AfterValid(s, steps[0]);
      Granted(s, steps[0]) + AllGranted(After(s, steps[0]), steps[1..])
  }

  function AllPutBack(s: Frames, steps: seq<Step>): seq<Pfn>
    requires Valid(s)
    decreases |steps|
  {
    if steps == [] then []
    else
      AfterValid(s, steps[0]);
      PutBack(s, steps[0]) + AllPutBack(After(s, steps[0]), steps[1..])
  }

  lemma StepInOrder(s: Frames, step: Step)
    requires Valid(s) && !step.RegionStep?
    ensures Granted(s, step) + After(s, step).free == s.free + PutBack(s, step)
  {
  }

  /**
    Frames handed out one at a time come in the order in which they became free: what has been handed
    out, followed by what is left, is what was free followed by what was given back.
  */
  lemma {:induction false} FramesInOrder(s: Frames, steps: seq<Step>)
    requires Valid(s) && forall k :: 0 <= k < |steps| ==> !steps[k].RegionStep?
    ensures AllGranted(s, steps) + Run(s, steps).free == s.free + AllPutBack(s, steps)
    decreases |steps|
  {
    hide Valid, After, Granted, PutBack;
    if steps != [] {
      AfterValid(s, steps[0]);
      StepInOrder(s, steps[0]);
      var m, rest := After(s, steps[0]), Run(s, steps).free;
      FramesInOrder(m, steps[1..]);
      var granted, put := AllGranted(m, steps[1..]), AllPutBack(m, steps[1..]);
      calc {
        (Granted(s, steps[0]) + granted) + rest;
        Granted(s, steps[0]) + (granted + rest);
        (Granted(s, steps[0]) + m.free) + put;
        (s.free + PutBack(s, steps[0])) + put;
        s.free + (PutBack(s, steps[0]) + put);
      }
    }
  }

  /** A frame in use stays in use until it is freed. */
  lemma WorkingStays(s: Frames, step: Step, f: Pfn)
    requires Valid(s) && f in s.working && step != FreeStep(f)
    ensures f in After(s, step).working
  {
    match step
    case AllocateStep =>
    case RegionStep(_, _) =>
    case FreeStep(g) =>
      if g < |s.flags| {
        assert f in multiset(s.working);
        assert f in multiset(After(s, step).working);
      }
  }

  function Run(s: Frames, steps: seq<Step>): (r: Frames)
    requires Valid(s)
    ensures Valid(r)
    decreases |steps|
  {
    if steps == [] then s
    else
      AfterValid(s, steps[0]);
      Run(After(s, steps[0]), steps[1..])
  }

  /** Over every run, a frame in use is not handed out again before it has been freed. */
  lemma {:induction false} NotTwice(s: Frames, steps: seq<Step>, f: Pfn, i: nat)
    requires Valid(s) && f in s.working && FreeStep(f) !in steps && i < |steps|
    ensures f in Run(s, steps[..i]).working && f !in Granted(Run(s, steps[..i]), steps[i])
    decreases i
  {
    if i == 0 {
      if f in Granted(s, steps[0]) {
        GrantsMove(s, steps[0], f);
        FrameInRange(s, f);
      }
    } else {
      AfterValid(s, steps[0]);
      WorkingStays(s, steps[0], f);
      assert steps[..i][0] == steps[0] && steps[..i][1..] == steps[1..][..i - 1];
      NotTwice(After(s, steps[0]), steps[1..], f, i - 1);
    }
  }
}
