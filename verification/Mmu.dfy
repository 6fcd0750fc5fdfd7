/**
  Mapping pages in place, in the two ways the kernel does it: through the tables themselves once
  paging runs, and on physical addresses before.  Both make the same change to the same tables.
*/
module Mmu {
  import opened Common
  import opened PhysicalAllocator
  import opened PageTables
  import opened RecursivePaging
  import PfnDatabase
  import Translation

  /** The address shows the entry at the end of the path, in every space that maps itself. */
  ghost predicate Seen(a: nat, path: Path) {
    forall s: Paging :: SelfMapped(s) ==> HardwareCell(s.mem, s.root, a) == WalkFrom(s.mem, s.root, path)
  }

  lemma SeenEntries(n: nat)
    requires n < 0x10_0000_0000
    ensures Seen(EntryAddress(PTS_BASE, n), PathOf(n))
    ensures Seen(EntryAddress(PDS_BASE, n / 0x200), PathOf(n)[..3])
    ensures Seen(EntryAddress(PDPS_BASE, n / 0x4_0000), PathOf(n)[..2])
    ensures Seen(EntryAddress(PML4_BASE, n / 0x800_0000), PathOf(n)[..1])
  {
    hide HardwareCell, SelfMapped, WalkFrom, EntryAddress;
    forall s: Paging | SelfMapped(s)
      ensures HardwareCell(s.mem, s.root, EntryAddress(PTS_BASE, n)) == WalkFrom(s.mem, s.root, PathOf(n))
      ensures HardwareCell(s.mem, s.root, EntryAddress(PDS_BASE, n / 0x200)) == WalkFrom(s.mem, s.root, PathOf(n)[..3])
      ensures HardwareCell(s.mem, s.root, EntryAddress(PDPS_BASE, n / 0x4_0000)) == WalkFrom(s.mem, s.root, PathOf(n)[..2])
      ensures HardwareCell(s.mem, s.root, EntryAddress(PML4_BASE, n / 0x800_0000)) == WalkFrom(s.mem, s.root, PathOf(n)[..1])
    {
      RecursiveCells(s, n);
    }
  }

  /** The 512 entries of a table are seen one after the other. */
  lemma SeenTable(n: nat, j: nat)
    requires n < 0x10_0000_0000 && j < ENTRIES
    ensures Seen(EntryAddress(PDPS_BASE, 512 * (n / 0x800_0000) + j), PathOf(n)[..1] + [j])
    ensures Seen(EntryAddress(PDS_BASE, 512 * (n / 0x4_0000) + j), PathOf(n)[..2] + [j])
    ensures Seen(EntryAddress(PTS_BASE, 512 * (n / 0x200) + j), PathOf(n)[..3] + [j])
  {
    hide Seen, EntryAddress;
    var a, b, c := n / 0x800_0000, n / 0x4_0000 % 0x200, n / 0x200 % 0x200;
    PageParts(n);
    var k1, k2, k3 := a * 0x800_0000 + j * 0x4_0000, a * 0x800_0000 + b * 0x4_0000 + j * 0x200, a * 0x800_0000 + b * 0x4_0000 + c * 0x200 + j;
    PathParts(a, j, 0, 0);
    PathParts(a, b, j, 0);
    PathParts(a, b, c, j);
    SeenEntries(k1);
    SeenEntries(k2);
    SeenEntries(k3);
    assert k1 / 0x4_0000 == 512 * a + j;
    assert k2 / 0x200 == 512 * (n / 0x4_0000) + j;
    assert k3 == 512 * (n / 0x200) + j;
    assert PathOf(n)[..1] + [j] == PathOf(k1)[..2];
    assert PathOf(n)[..2] + [j] == PathOf(k2)[..3];
    assert PathOf(n)[..3] + [j] == PathOf(k3);
  }

  /** A new table is where the path now leads, and the space stays well formed. */
  lemma NewReaches(s: Paging, owner: map<Pfn, Path>, path: Path, i: nat)
    requires Tree(s, owner) && TreePath(path + [i]) && i < ENTRIES && s.frames.free != []
    requires TableAt(s.mem, s.root, path).Some?
    requires var t := TableAt(s.mem, s.root, path).value;
      && IsTable(s.mem, t) && t in owner && |owner[t]| < 3 && InTree(owner[t], i) && |owner[t]| == |path| && s.mem[t][i] == 0
    ensures var t := TableAt(s.mem, s.root, path).value;
      var f := s.frames.free[0];
      var (r, c) := Ensure(s, t, i);
      && c == Some(f) && WellFormed(r) && r.root == s.root && (SelfMapped(s) ==> SelfMapped(r)) && r.mem.Keys == s.mem.Keys
      && TableAt(r.mem, r.root, path + [i]) == Some(f) && f != s.root && f != t && r.mem[f] == EmptyTable()
  {
    hide PhysicalAllocator.Valid, TableAt, Grows, Allocate;
    var t := TableAt(s.mem, s.root, path).value;
    assert TableOk(s, owner, t);
    assert path == (path + [i])[..|path|];
    var f := s.frames.free[0];
    EnsureTree(s, owner, t, i, f);
    assert f in s.frames.free;
    TableEntryLeadsOn(f);
    NewEntry(s, t, i, f);
    var r := Ensure(s, t, i).0;
    TableAtKept(s, r, owner, s.root, path);
    TableAtNext(r, s.root, path, i);
    if SelfMapped(s) {
      assert r.mem[s.root][SELF] == s.mem[s.root][SELF];
    }
    assert r.mem.Keys == s.mem.Keys;
  }

  /** What entering a new table changes. */
  lemma NewEntry(s: Paging, t: Pfn, i: nat, f: Pfn)
    requires IsTable(s.mem, t) && i < ENTRIES && PhysicalAllocator.Valid(s.frames) && s.mem[t][i] == 0
    requires s.frames.free != [] && f == s.frames.free[0] && IsTable(s.mem, f) && f != t
    ensures var r := Ensure(s, t, i).0;
      && r.mem == WithEntry(s, t, i, TableEntry(f)).mem[f := EmptyTable()] && r.root == s.root
  {
    hide PhysicalAllocator.Valid;
    AllocateFacts(s.frames);
  }

  /** A new or old table is where the path now leads, and the space stays well formed. */
  lemma EnsureReaches(s: Paging, path: Path, i: nat)
    requires WellFormed(s) && PhysicalAllocator.Valid(s.frames) && TreePath(path + [i]) && i < ENTRIES
    requires TableAt(s.mem, s.root, path).Some? && IsTable(s.mem, TableAt(s.mem, s.root, path).value)
    ensures var t := TableAt(s.mem, s.root, path).value;
      var (r, c) := Ensure(s, t, i);
      && WellFormed(r) && r.root == s.root && (SelfMapped(s) ==> SelfMapped(r)) && r.mem.Keys == s.mem.Keys
      && (c.Some? ==> TableAt(r.mem, r.root, path + [i]) == c && c.value != s.root)
      && (c.Some? && s.mem[t][i] == 0 ==> c.value != t && c.value in s.mem && r.mem[c.value] == EmptyTable() && IsTable(s.mem, c.value))
  {
    hide PhysicalAllocator.Valid, TableAt, SelfMapped, Grows, Allocate;
    var owner :| Tree(s, owner);
    assert path == (path + [i])[..|path|];
    assert forall k :: 0 <= k < |path| ==> path[k] == (path + [i])[k];
    TableOwned(s, owner, s.root, path);
    assert [] + path == path;
    var t := TableAt(s.mem, s.root, path).value;
    assert TableOk(s, owner, t);
    if path == [] {
      assert t == s.root by { TableAtRoot(s); }
    }
    if s.mem[t][i] != 0 {
      assert EntryOk(s.mem[t][i], owner, owner[t] + [i]);
      TableAtNext(s, s.root, path, i);
    } else if s.frames.free == [] {
      AllocateFails(s.frames);
    } else {
      assert s.frames.free[0] in s.frames.free;
      NewReaches(s, owner, path, i);
    }
  }

  lemma TableAtRoot(s: Paging)
    ensures TableAt(s.mem, s.root, []) == Some(s.root)
  {
  }

  lemma {:induction false} TableAtNext(r: Paging, t: Pfn, path: Path, i: nat)
    requires i < ENTRIES && TableAt(r.mem, t, path).Some?
    requires var x := TableAt(r.mem, t, path).value; IsTable(r.mem, x) && r.mem[x][i] != 0
    ensures TableAt(r.mem, t, path + [i]) == Some(FrameOf(r.mem[TableAt(r.mem, t, path).value][i]))
    decreases |path|
  {
    if path == [] {
      assert path + [i] == [i];
    } else {
      assert (path + [i])[1..] == path[1..] + [i];
      TableAtNext(r, FrameOf(r.mem[t][path[0]]), path[1..], i);
    }
  }

  /** The way to a table is not changed by a change of that table or of one outside the tree. */
  lemma {:induction false} TableAtKept(s: Paging, r: Paging, owner: map<Pfn, Path>, t: Pfn, path: Path)
    requires Tree(s, owner) && t in owner && |owner[t]| + |path| <= 3 && (path != [] ==> InTree(owner[t], path[0]))
    requires TableAt(s.mem, t, path).Some?
    requires forall x <- owner :: x in s.mem && x in r.mem && |r.mem[x]| == ENTRIES && (|owner[x]| < |owner[t]| + |path| ==> r.mem[x] == s.mem[x])
    ensures TableAt(r.mem, t, path) == TableAt(s.mem, t, path)
    decreases |path|
  {
    assert TableOk(s, owner, t);
    if path != [] {
      assert EntryOk(s.mem[t][path[0]], owner, owner[t] + [path[0]]);
      TableAtKept(s, r, owner, FrameOf(s.mem[t][path[0]]), path[1..]);
    }
  }

  /** While a new table is being cleared, its entries are already seen. */
  lemma ClearedCell(r: Paging, path: Path, f: Pfn, mem: map<Pfn, Table>, j: nat)
    requires WellFormed(r) && TreePath(path) && path != [] && TableAt(r.mem, r.root, path) == Some(f) && j < ENTRIES
    requires mem.Keys == r.mem.Keys && IsTable(mem, f)
    requires forall x <- r.mem :: x != f ==> mem[x] == r.mem[x]
    ensures WalkFrom(mem, r.root, path + [j]) == Some(Cell(f, j))
  {
    hide PhysicalAllocator.Valid, TableAt, WalkFrom;
    var owner :| Tree(r, owner);
    TableOwned(r, owner, r.root, path);
    assert [] + path == path;
    forall x | x in owner
      ensures x in r.mem && (|owner[x]| < |path| ==> mem[x] == r.mem[x])
    {
      assert TableOk(r, owner, x);
    }
    WalkInTree(r, owner, r.root, path, j, mem);
  }

  lemma SelfMappedStays(r: Paging, now: Paging, f: Pfn)
    requires SelfMapped(r) && now.root == r.root && f != r.root
    requires now.mem.Keys == r.mem.Keys && forall x <- r.mem :: x != f ==> now.mem[x] == r.mem[x]
    ensures SelfMapped(now)
  {
  }

  /** One level of a mapping. */
  lemma MapStep(s: Paging, t: Pfn, i: nat, rest: Path, e: nat)
    requires PhysicalAllocator.Valid(s.frames) && i < ENTRIES && rest != [] && IsTable(s.mem, t)
    ensures PhysicalAllocator.Valid(Ensure(s, t, i).0.frames)
    ensures MapFrom(s, t, [i] + rest, e) ==
      if Ensure(s, t, i).1.None? then (Ensure(s, t, i).0, false)
      else MapFrom(Ensure(s, t, i).0, Ensure(s, t, i).1.value, rest, e)
  {
    hide PhysicalAllocator.Valid;
    AllocateValid(s.frames);
    assert ([i] + rest)[1..] == rest;
  }

  /** The last level. */
  lemma MapEnd(s: Paging, t: Pfn, i: nat, e: nat)
    requires PhysicalAllocator.Valid(s.frames) && i < ENTRIES && IsTable(s.mem, t)
    ensures MapFrom(s, t, [i], e) == (WithEntry(s, t, i, e), true)
  {
  }

  /** Everything that mapping page `n` goes through is seen. */
  lemma SeenPage(n: nat, pml4Index: nat, pdpIndex: nat, pdIndex: nat) returns (a: nat, b: nat, c: nat, d: nat)
    requires n < 0x10_0000_0000 && pml4Index == n / 0x800_0000 && pdpIndex == n / 0x4_0000 && pdIndex == n / 0x200
    ensures PathOf(n) == [a, b, c, d] && a < ENTRIES && b < ENTRIES && c < ENTRIES && d < ENTRIES
    ensures Seen(EntryAddress(PTS_BASE, n), [a, b, c, d])
    ensures Seen(EntryAddress(PDS_BASE, pdIndex), [a, b] + [c])
    ensures Seen(EntryAddress(PDPS_BASE, pdpIndex), [a] + [b])
    ensures Seen(EntryAddress(PML4_BASE, pml4Index), [] + [a])
    ensures forall j :: 0 <= j < ENTRIES ==> Seen(EntryAddress(PDPS_BASE, 512 * pml4Index + j), [] + [a] + [j])
    ensures forall j :: 0 <= j < ENTRIES ==> Seen(EntryAddress(PDS_BASE, 512 * pdpIndex + j), [a] + [b] + [j])
    ensures forall j :: 0 <= j < ENTRIES ==> Seen(EntryAddress(PTS_BASE, 512 * pdIndex + j), [a, b] + [c] + [j])
  {
    hide Seen, EntryAddress;
    a, b, c, d := pml4Index, pdpIndex % 0x200, pdIndex % 0x200, n % 0x200;
    PageParts(n);
    SeenEntries(n);
    assert PathOf(n)[..3] == [a, b] + [c] && PathOf(n)[..2] == [a] + [b] && PathOf(n)[..1] == [] + [a];
    forall j | 0 <= j < ENTRIES
      ensures Seen(EntryAddress(PDPS_BASE, 512 * pml4Index + j), [] + [a] + [j])
      ensures Seen(EntryAddress(PDS_BASE, 512 * pdpIndex + j), [a] + [b] + [j])
      ensures Seen(EntryAddress(PTS_BASE, 512 * pdIndex + j), [a, b] + [c] + [j])
    {
      SeenTable(n, j);
    }
  }

  /** The paths to the tables of an ordinary page, and on to its entry. */
  lemma PagePaths(a: nat, b: nat, c: nat, d: nat)
    requires a < ENTRIES && b < ENTRIES && c < ENTRIES && d < ENTRIES && a != SELF
    ensures TreePath([]) && TreePath([a]) && TreePath([a, b]) && TreePath([a, b, c])
    ensures [] + [a] == [a] && [a] + [b] == [a, b] && [a, b] + [c] == [a, b, c] && [a, b, c] + [d] == [a, b, c, d]
    ensures [a] + [b, c, d] == [a, b, c, d] && [b] + [c, d] == [b, c, d] && [c] + [d] == [c, d]
  {
  }

  lemma TreePathPrefix(above: Path, i: nat)
    requires TreePath(above + [i])
    ensures TreePath(above)
  {
    assert forall k :: 0 <= k < |above| ==> above[k] == (above + [i])[k];
  }

  lemma {:induction false} LookupThrough(mem: map<Pfn, Table>, t: Pfn, above: Path, rest: Path)
    requires TableAt(mem, t, above).Some? && rest != []
    ensures LookupFrom(mem, t, above + rest) == LookupFrom(mem, TableAt(mem, t, above).value, rest)
    decreases |above|
  {
    if above == [] {
      assert above + rest == rest;
    } else {
      assert (above + rest)[1..] == above[1..] + rest;
      LookupThrough(mem, FrameOf(mem[t][above[0]]), above[1..], rest);
    }
  }

  /** One level of a lookup: the walk ends here, or at the next table. */
  lemma LookupLevel(s: Paging, above: Path, i: nat, rest: Path)
    requires WellFormed(s) && SelfMapped(s) && i < ENTRIES && forall k :: 0 <= k < |above| ==> above[k] < ENTRIES
    requires TableAt(s.mem, s.root, above).Some? && |above| + |rest| == 3
    ensures var t := TableAt(s.mem, s.root, above).value;
      && IsTable(s.mem, t) && WalkFrom(s.mem, s.root, above + [i]) == Some(Cell(t, i))
      && (s.mem[t][i] == 0 || rest == [] ==> LookupFrom(s.mem, s.root, above + [i] + rest) == s.mem[t][i])
      && (s.mem[t][i] != 0 ==> TableAt(s.mem, s.root, above + [i]).Some?)
    ensures LookupFrom(s.mem, s.root, above + [i] + rest) == LookupFrom(s.mem, s.root, above + ([i] + rest))
  {
    hide WellFormed, TableAt, WalkFrom, SelfMapped;
    WalkAnywhere(s, above, i);
    LookupThrough(s.mem, s.root, above, [i] + rest);
    assert above + [i] + rest == above + ([i] + rest);
    var t := TableAt(s.mem, s.root, above).value;
    if s.mem[t][i] != 0 {
      TableAtNext(s, s.root, above, i);
    }
  }

  lemma PathPieces(a: nat, b: nat, c: nat, d: nat)
    ensures [] + [a] == [a] && [a] + [b] == [a, b] && [a, b] + [c] == [a, b, c] && [a, b, c] + [d] == [a, b, c, d]
    ensures [a] + [b, c, d] == [a, b, c, d] && [a, b] + [c, d] == [a, b, c, d] && [a, b, c, d] + [] == [a, b, c, d]
  {
  }

  lemma SeenAt(s: Paging, a: nat, path: Path)
    requires Seen(a, path) && SelfMapped(s)
    ensures HardwareCell(s.mem, s.root, a) == WalkFrom(s.mem, s.root, path)
  {
    hide SelfMapped, HardwareCell, WalkFrom;
  }

  /** Mapping a page outside the slot of the tables leaves that slot alone. */
  lemma MapPageKeepsSelf(s: Paging, v: nat, p: nat, f: nat)
    requires WellFormed(s) && SelfMapped(s) && f < PAGE_SIZE && Ordinary(PageOf(v))
    ensures PhysicalAllocator.Valid(s.frames) && SelfMapped(MapPage(s, v, p, f).0)
  {
    hide MapFrom, PathOf, PhysicalAllocator.Valid;
    var owner :| Tree(s, owner);
    PathOfValid(PageOf(v));
    var owner' := MapFromTree(s, owner, s.root, PathOf(PageOf(v)), EntryFor(p, f));
  }

  // --- searching for free pages

  datatype FreePages = Found(address: nat) | NotFound | BugCheck

  /** The page numbers of the lower and of the higher of two addresses. */
  function LowPage(first: nat, second: nat): nat {
    (if second < first then second else first) % 0x1_0000_0000_0000 / 0x1000
  }

  function HighPage(first: nat, second: nat): nat {
    (if second < first then first else second) % 0x1_0000_0000_0000 / 0x1000
  }

  predicate AllFree(s: Paging, i: nat, count: nat) {
    forall k :: i <= k < i + count ==> Lookup(s, k) == 0
  }

  /** The pages from `i` on are free, and end before the last page of the range. */
  predicate Fits(s: Paging, first: nat, second: nat, count: nat, i: int) {
    LowPage(first, second) <= i && i + count < HighPage(first, second) && AllFree(s, i, count)
  }

  ghost predicate IsFirst(s: Paging, first: nat, second: nat, count: nat, i: int) {
    i >= 0 && Fits(s, first, second, count, i) && forall k :: k < i ==> !Fits(s, first, second, count, k)
  }

  /** A page in use rules out all starts from which the run would reach it. */
  lemma SkipAhead(s: Paging, first: nat, second: nat, count: nat, i: nat, j: nat)
    requires j < count && Lookup(s, i + j) != 0
    ensures forall k :: i <= k <= i + j ==> !Fits(s, first, second, count, k)
  {
  }

  lemma PageInRange(i: nat, max: nat)
    requires i < max / PAGE_SIZE && max < TWO_TO_48
    ensures i < 0x10_0000_0000
  {
  }

  lemma LastPage()
    ensures Ordinary(PageOf(0xFFFF_FFFF_FFFF_FFFF))
  {
    assert PageOf(0xFFFF_FFFF_FFFF_FFFF) == 0xF_FFFF_FFFF;
  }

  // --- before paging runs

  lemma PathIs(n: nat)
    ensures PathOf(n) == [n / 0x800_0000 % 512, n / 0x4_0000 % 512, n / 0x200 % 512, n % 512]
  {
  }

  /** No address of the range belongs to the tables themselves. */
  predicate OrdinaryRange(v: nat, length: int) {
    forall w :: v <= w <= v + length ==> Ordinary(PageOf(w))
  }

  /** One level on physical addresses. */
  lemma BeforeLevel(s: Paging, above: Path, i: nat)
    requires WellFormed(s) && TreePath(above + [i]) && i < ENTRIES && TableAt(s.mem, s.root, above).Some?
    ensures var t := TableAt(s.mem, s.root, above).value;
      && IsTable(s.mem, t) && PhysicalAllocator.Valid(s.frames)
      && (forall f <- s.frames.free :: f < FRAME_LIMIT && f != t && IsTable(s.mem, f))
      && WellFormed(Ensure(s, t, i).0) && Ensure(s, t, i).0.root == s.root
      && (Ensure(s, t, i).1.Some? ==> TableAt(Ensure(s, t, i).0.mem, s.root, above + [i]) == Ensure(s, t, i).1)
  {
    hide PhysicalAllocator.Valid, TableAt, Ensure, WalkFrom;
    TreePathPrefix(above, i);
    WalkReaches(s, above, i);
    WellFormedFrames(s);
    EnsureReaches(s, above, i);
    FreeOutside(s, above);
  }

  lemma FreeOutside(s: Paging, above: Path)
    requires WellFormed(s) && TreePath(above) && TableAt(s.mem, s.root, above).Some?
    ensures forall f <- s.frames.free :: f < FRAME_LIMIT && f != TableAt(s.mem, s.root, above).value && IsTable(s.mem, f)
  {
    hide PhysicalAllocator.Valid, TableAt;
    var owner :| Tree(s, owner);
    TableOwned(s, owner, s.root, above);
  }

  /** The mappings of a range, up to the first that fails. */
  function MapRange(s: Paging, physicalStart: nat, physicalEnd: nat, virtualStart: nat, f: nat, delta: nat): (Paging,
                    bool)
    requires PhysicalAllocator.Valid(s.frames) && f < PAGE_SIZE
    decreases physicalEnd - physicalStart - delta
  {
    if delta + physicalStart > physicalEnd then (s, true)
    else
      var (r, ok) := MapPage(s, virtualStart + delta, physicalStart + delta, f);
      if ok then MapRange(r, physicalStart, physicalEnd, virtualStart, f, delta + PAGE_SIZE) else (r, false)
  }

  lemma LaterPage(v: nat, k: nat)
    requires 0 < k < 0x10_0000_0000
    ensures PageOf(v + PAGE_SIZE * k) != PageOf(v)
  {
    assert (v + PAGE_SIZE * k) / PAGE_SIZE == v / PAGE_SIZE + k;
  }

  /** Pages that the range does not reach stay as they are, whether the range is mapped to its end or not. */
  lemma {:induction false} RangeKeeps(s: Paging, physicalStart: nat, physicalEnd: nat, virtualStart: nat, f: nat,
                                      delta: nat, n: nat)
    requires WellFormed(s) && f < PAGE_SIZE && OrdinaryRange(virtualStart, physicalEnd - physicalStart)
    requires n < 0x10_0000_0000 && Ordinary(n)
    requires forall w :: virtualStart + delta <= w <= virtualStart + physicalEnd - physicalStart ==> PageOf(w) != n
    ensures PhysicalAllocator.Valid(s.frames)
    ensures var r := MapRange(s, physicalStart, physicalEnd, virtualStart, f, delta).0;
      WellFormed(r) && Lookup(r, n) == Lookup(s, n)
    decreases physicalEnd - physicalStart - delta
  {
    hide WellFormed, PhysicalAllocator.Valid, Lookup, MapPage, Ordinary, PageOf;
    WellFormedFrames(s);
    if delta + physicalStart <= physicalEnd {
      assert Ordinary(PageOf(virtualStart + delta));
      MapPageLookup(s, virtualStart + delta, physicalStart + delta, f, n);
      var m := MapPage(s, virtualStart + delta, physicalStart + delta, f);
      if m.1 {
        RangeKeeps(m.0, physicalStart, physicalEnd, virtualStart, f, delta + PAGE_SIZE, n);
      }
    }
  }

  /** A range that is mapped to its end shows, for its page number `k`, the frame number `k` behind the first. */
  lemma {:induction false} RangeMaps(s: Paging, physicalStart: nat, physicalEnd: nat, virtualStart: nat, f: nat,
                                     delta: nat, k: nat)
    requires WellFormed(s) && f < PAGE_SIZE && OrdinaryRange(virtualStart, physicalEnd - physicalStart)
    requires physicalEnd < physicalStart + TWO_TO_48
    requires physicalStart + delta + PAGE_SIZE * k <= physicalEnd && PhysicalAllocator.Valid(s.frames)
    requires MapRange(s, physicalStart, physicalEnd, virtualStart, f, delta).1
    ensures Lookup(MapRange(s, physicalStart, physicalEnd, virtualStart, f, delta).0, PageOf(virtualStart + delta + PAGE_SIZE * k))
         == EntryFor(physicalStart + delta + PAGE_SIZE * k, f)
    decreases k
  {
    hide WellFormed, PhysicalAllocator.Valid, Lookup, MapPage, Ordinary, PageOf, EntryFor;
    var v := virtualStart + delta;
    assert Ordinary(PageOf(v));
    MapPageLookup(s, v, physicalStart + delta, f, PageOf(v));
    var m := MapPage(s, v, physicalStart + delta, f);
    WellFormedFrames(m.0);
    if k == 0 {
      RangeElsewhere(m.0, physicalStart, physicalEnd, virtualStart, f, delta + PAGE_SIZE, v);
    } else {
      RangeMaps(m.0, physicalStart, physicalEnd, virtualStart, f, delta + PAGE_SIZE, k - 1);
      assert v + PAGE_SIZE * k == virtualStart + (delta + PAGE_SIZE) + PAGE_SIZE * (k - 1);
      assert physicalStart + delta + PAGE_SIZE * k == physicalStart + (delta + PAGE_SIZE) + PAGE_SIZE * (k - 1);
    }
  }

  /** The table of the last level for an address is there, and it serves 512 pages. */
  predicate Served(s: Paging, v: nat) {
    Missing(s, s.root, PathOf(PageOf(v))) == 0
  }

  lemma ServedNext(s: Paging, v: nat)
    requires Served(s, v) && (v + 0x1000) / 0x20_0000 == v / 0x20_0000
    ensures Served(s, v + 0x1000)
  {
    SameLastTable(v);
    MissingAlike(s, PathOf(PageOf(v)), PathOf(PageOf(v + 0x1000)));
  }

  lemma SameLastTable(v: nat)
    requires (v + 0x1000) / 0x20_0000 == v / 0x20_0000
    ensures PathOf(PageOf(v + 0x1000))[..3] == PathOf(PageOf(v))[..3]
  {
    hide PathOf, PageOf;
    Translation.AddressIndices(v);
    Translation.AddressIndices(v + 0x1000);
    SameHigherIndices(v);
  }

  lemma SameHigherIndices(v: nat)
    requires (v + 0x1000) / 0x20_0000 == v / 0x20_0000
    ensures (v + 0x1000) / 0x4000_0000 == v / 0x4000_0000 && (v + 0x1000) / 0x80_0000_0000 == v / 0x80_0000_0000
  {
    assert v / 0x4000_0000 == v / 0x20_0000 / 0x200 && (v + 0x1000) / 0x4000_0000 == (v + 0x1000) / 0x20_0000 / 0x200;
    assert v / 0x80_0000_0000 == v / 0x4000_0000 / 0x200 && (v + 0x1000) / 0x80_0000_0000 == (v + 0x1000) / 0x4000_0000 / 0x200;
  }

  lemma MissingAlike(s: Paging, a: Path, b: Path)
    requires |a| == 4 && |b| == 4 && a[..3] == b[..3]
    ensures Missing(s, s.root, a) == Missing(s, s.root, b)
  {
    assert a[0] == b[0] && a[1] == b[1] && a[2] == b[2];
    MissingSame(s, s.root, a, b);
  }

  lemma {:induction false} MissingSame(s: Paging, t: Pfn, a: Path, b: Path)
    requires |a| == |b| > 0 && forall k :: 0 <= k < |a| - 1 ==> a[k] == b[k]
    ensures Missing(s, t, a) == Missing(s, t, b)
    decreases |a|
  {
    if |a| > 1 && a[0] < ENTRIES && IsTable(s.mem, t) && s.mem[t][a[0]] != 0 {
      MissingSame(s, FrameOf(s.mem[t][a[0]]), a[1..], b[1..]);
    }
  }

  /** A mapping succeeds exactly when there is a frame for every table that is missing. */
  lemma MapPageExact(s: Paging, v: nat, p: nat, f: nat)
    requires WellFormed(s) && f < PAGE_SIZE && Ordinary(PageOf(v))
    ensures PhysicalAllocator.Valid(s.frames)
    ensures var (r, ok) := MapPage(s, v, p, f);
      var missing := Missing(s, s.root, PathOf(PageOf(v)));
      && WellFormed(r) && missing <= 3 && (ok <==> missing <= |s.frames.free|)
      && (ok ==> |r.frames.free| == |s.frames.free| - missing && Served(r, v))
  {
    hide PhysicalAllocator.Valid, MapFrom, PathOf, PageOf;
    PathOfValid(PageOf(v));
    var owner :| Tree(s, owner);
    MapFromExact(s, owner, s.root, PathOf(PageOf(v)), EntryFor(p, f));
    var owner' := MapFromTree(s, owner, s.root, PathOf(PageOf(v)), EntryFor(p, f));
  }

  /**
    A range is mapped to its end when there are three free frames for each stretch of 512 pages that
    it touches and whose last table may be missing.
  */
  lemma {:induction false} RangeSucceeds(s: Paging, physicalStart: nat, physicalEnd: nat, virtualStart: nat, f: nat, delta: nat)
    requires WellFormed(s) && f < PAGE_SIZE && OrdinaryRange(virtualStart, physicalEnd - physicalStart)
    requires PhysicalAllocator.Valid(s.frames)
    requires physicalStart + delta <= physicalEnd ==>
      3 * ((virtualStart + physicalEnd - physicalStart) / 0x20_0000 - (virtualStart + delta) / 0x20_0000
           + if Served(s, virtualStart + delta) then 0 else 1) <= |s.frames.free|
    ensures MapRange(s, physicalStart, physicalEnd, virtualStart, f, delta).1
    decreases physicalEnd - physicalStart - delta
  {
    hide WellFormed, PhysicalAllocator.Valid, MapPage, Ordinary, PageOf, PathOf, Missing, Served;
    if physicalStart + delta <= physicalEnd {
      var v := virtualStart + delta;
      assert Ordinary(PageOf(v));
      MapPageExact(s, v, physicalStart + delta, f);
      ServedIs(s, v);
      var r := MapPage(s, v, physicalStart + delta, f).0;
      WellFormedFrames(r);
      if (v + 0x1000) / 0x20_0000 == v / 0x20_0000 {
        ServedNext(r, v);
      }
      NextStretch(v, virtualStart + physicalEnd - physicalStart);
      RangeSucceeds(r, physicalStart, physicalEnd, virtualStart, f, delta + PAGE_SIZE);
    }
  }

  lemma ServedIs(s: Paging, v: nat)
    ensures Served(s, v) <==> Missing(s, s.root, PathOf(PageOf(v))) == 0
  {
  }

  lemma NextStretch(v: nat, last: int)
    requires v <= last
    ensures v / 0x20_0000 <= (v + 0x1000) / 0x20_0000 <= v / 0x20_0000 + 1
    ensures v / 0x20_0000 <= last / 0x20_0000 && (v + 0x1000 <= last ==> (v + 0x1000) / 0x20_0000 <= last / 0x20_0000)
  {
  }

  /** The rest of a range does not come back to a page before it. */
  lemma {:induction false} RangeElsewhere(s: Paging, physicalStart: nat, physicalEnd: nat, virtualStart: nat, f: nat,
                                          delta: nat, v: nat)
    requires WellFormed(s) && f < PAGE_SIZE && OrdinaryRange(virtualStart, physicalEnd - physicalStart)
    requires physicalEnd < physicalStart + TWO_TO_48 && PhysicalAllocator.Valid(s.frames) && Ordinary(PageOf(v))
    requires virtualStart <= v < virtualStart + delta && (virtualStart + delta - v) % PAGE_SIZE == 0
    ensures Lookup(MapRange(s, physicalStart, physicalEnd, virtualStart, f, delta).0, PageOf(v)) == Lookup(s, PageOf(v))
    decreases physicalEnd - physicalStart - delta
  {
    hide WellFormed, PhysicalAllocator.Valid, Lookup, MapPage, Ordinary, PageOf, EntryFor;
    if delta + physicalStart <= physicalEnd {
      assert Ordinary(PageOf(virtualStart + delta));
      var k := (virtualStart + delta - v) / PAGE_SIZE;
      assert virtualStart + delta == v + PAGE_SIZE * k;
      LaterPage(v, k);
      MapPageLookup(s, virtualStart + delta, physicalStart + delta, f, PageOf(v));
      var m := MapPage(s, virtualStart + delta, physicalStart + delta, f);
      if m.1 {
        WellFormedFrames(m.0);
        RangeElsewhere(m.0, physicalStart, physicalEnd, virtualStart, f, delta + PAGE_SIZE, v);
      }
    }
  }

  class Space {
    var mem: map<Pfn, Table>
    const root: Pfn
    const pfns: PfnDatabase.Database

    constructor (mem: map<Pfn, Table>, root: Pfn, pfns: PfnDatabase.Database)
      ensures this.mem == mem && this.root == root && this.pfns == pfns
    {
      this.mem, this.root, this.pfns := mem, root, pfns;
    }

    function View(): Paging
      reads this, pfns, pfns.flags
    {
      Paging(mem, root, pfns.View())
    }

    ghost predicate Ok()
      reads this, pfns, pfns.inFree, pfns.flags
    {
      pfns.Ok() && WellFormed(View())
    }

    /** Reads the entry the processor finds at an address. */
    method ReadEntry(a: nat) returns (e: nat)
      requires HardwareCell(mem, root, a).Some?
      ensures var c := HardwareCell(mem, root, a).value; IsTable(mem, c.frame) && c.index < ENTRIES && e == mem[c.frame][c.index]
    {
      CellInMemory(mem, root, AddressPath(a));
      var c := HardwareCell(mem, root, a).value;
      e := mem[c.frame][c.index];
    }

    method WriteEntry(a: nat, e: nat)
      requires HardwareCell(mem, root, a).Some?
      modifies this`mem
      ensures var c := HardwareCell(old(mem), root, a).value;
        IsTable(old(mem), c.frame) && c.index < ENTRIES && mem == WithEntry(old(View()), c.frame, c.index, e).mem
    {
      CellInMemory(mem, root, AddressPath(a));
      var c := HardwareCell(mem, root, a).value;
      var table: Table := mem[c.frame][c.index := e];
      mem := mem[c.frame := table];
    }

    /** Clears a new table through the addresses at which its entries are seen; `r` is the outcome. */
    method ClearTable(base: nat, first: nat, ghost path: Path, ghost f: Pfn, ghost r: Paging)
      requires WellFormed(r) && SelfMapped(r) && root == r.root && f != root && TreePath(path) && path != []
      requires TableAt(r.mem, r.root, path) == Some(f) && f in r.mem && r.mem[f] == EmptyTable()
      requires mem.Keys == r.mem.Keys && IsTable(mem, f) && forall x <- r.mem :: x != f ==> mem[x] == r.mem[x]
      requires forall j :: 0 <= j < ENTRIES ==> Seen(EntryAddress(base, first + j), path + [j])
      modifies this`mem
      ensures mem == r.mem
    {
      hide PhysicalAllocator.Valid, WellFormed, SelfMapped, HardwareCell, EntryAddress, TableAt, WalkFrom, TreePath;
      for j := 0 to ENTRIES
        invariant mem.Keys == r.mem.Keys && IsTable(mem, f)
        invariant forall x <- r.mem :: x != f ==> mem[x] == r.mem[x]
        invariant forall k :: 0 <= k < j ==> mem[f][k] == 0
      {
        ghost var now := View();
        ClearedCell(r, path, f, mem, j);
        SelfMappedStays(r, now, f);
        assert Seen(EntryAddress(base, first + j), path + [j]);
        WriteEntry(EntryAddress(base, first + j), 0);
      }
      assert mem[f] == r.mem[f];
    }

    /**
      Makes sure that the entry at an address leads to a table; a new one is entered first and
      cleared through the address at which its entries are then seen.
    */
    method EnsureTable(entry: nat, base: nat, first: nat, ghost above: Path, ghost i: nat) returns (ok: bool)
      requires Ok() && SelfMapped(View()) && i < ENTRIES && TreePath(above + [i])
      requires Seen(entry, above + [i])
      requires forall j :: 0 <= j < ENTRIES ==> Seen(EntryAddress(base, first + j), above + [i] + [j])
      requires TableAt(mem, root, above).Some?
      modifies this`mem, pfns, pfns.inFree, pfns.flags
      ensures Ok() && SelfMapped(View()) && mem.Keys == old(mem.Keys)
      ensures var t := TableAt(old(mem), root, above).value;
        && IsTable(old(mem), t)
        && Ensure(old(View()), t, i) == (View(), if ok then TableAt(mem, root, above + [i]) else None)
      ensures ok ==> TableAt(mem, root, above + [i]).Some?
    {
      hide PhysicalAllocator.Valid, WellFormed, SelfMapped, HardwareCell, EntryAddress, TableAt, WalkFrom, TreePath;
      ghost var s := View();
      ghost var path := above + [i];
      ghost var t := TableAt(mem, root, above).value;
      TreePathPrefix(above, i);
      WalkReaches(s, above, i);
      EnsureReaches(s, above, i);
      ghost var r := Ensure(s, t, i).0;
      var e := ReadEntry(entry);
      if e != 0 {
        return true;
      }
      var frame := pfns.MmAllocatePfn();
      if frame.NoMemory? {
        return false;
      }
      var f := frame.value;
      WriteEntry(entry, TableEntry(f));
      ClearTable(base, first, path, f, r);
      ok := true;
    }

    /** Makes sure of one table on the way of a mapping, which goes on from there. */
    method EnsureOnWay(entry: nat, base: nat, first: nat, ghost above: Path, ghost i: nat, ghost rest: Path, ghost e: nat)
      returns (ok: bool)
      requires Ok() && SelfMapped(View()) && i < ENTRIES && TreePath(above + [i]) && rest != []
      requires Seen(entry, above + [i])
      requires forall j :: 0 <= j < ENTRIES ==> Seen(EntryAddress(base, first + j), above + [i] + [j])
      requires TableAt(mem, root, above).Some?
      modifies this`mem, pfns, pfns.inFree, pfns.flags
      ensures Ok() && SelfMapped(View()) && (ok ==> TableAt(mem, root, above + [i]).Some?)
      ensures PhysicalAllocator.Valid(old(View()).frames) && PhysicalAllocator.Valid(View().frames)
      ensures MapFrom(old(View()), TableAt(old(mem), root, above).value, [i] + rest, e) ==
        if ok then MapFrom(View(), TableAt(mem, root, above + [i]).value, rest, e) else (View(), false)
    {
      hide PhysicalAllocator.Valid, WellFormed, SelfMapped, EntryAddress, TableAt, WalkFrom, Ensure, MapFrom, Seen, TreePath;
      TreePathPrefix(above, i);
      WellFormedFrames(View());
      WalkReaches(View(), above, i);
      MapStep(View(), TableAt(mem, root, above).value, i, rest, e);
      ok := EnsureTable(entry, base, first, above, i);
      WellFormedFrames(View());
    }

    /** Maps a page through the tables that map themselves. */
    method PagingMapPage(v: nat, p: nat, f: nat) returns (ok: bool)
      requires Ok() && SelfMapped(View()) && f < PAGE_SIZE && Ordinary(PageOf(v))
      modifies this`mem, pfns, pfns.inFree, pfns.flags
      ensures Ok() && SelfMapped(View())
      ensures PhysicalAllocator.Valid(old(View()).frames) && (View(), ok) == MapPage(old(View()), v, p, f)
    {
      hide PhysicalAllocator.Valid, WellFormed, SelfMapped, HardwareCell, EntryAddress, TableAt, WalkFrom,
           Lookup, MapFrom, PathOf, Seen, EntryFor, PageOf, TreePath;
      ghost var s := View();
      var e := EntryFor(p, f);
      var n := PageOf(v);
      var pml4Index, pdpIndex, pdIndex := n / 0x800_0000, n / 0x4_0000, n / 0x200;
      ghost var a, b, c, d := SeenPage(n, pml4Index, pdpIndex, pdIndex);
      PagePaths(a, b, c, d);
      MapPageLookup(s, v, p, f, n);
      MapPageKeepsSelf(s, v, p, f);
      TableAtRoot(s);

      ok := EnsureOnWay(EntryAddress(PML4_BASE, pml4Index), PDPS_BASE, 512 * pml4Index, [], a, [b, c, d], e);
      if !ok {
        return;
      }
      ok := EnsureOnWay(EntryAddress(PDPS_BASE, pdpIndex), PDS_BASE, 512 * pdpIndex, [a], b, [c, d], e);
      if !ok {
        return;
      }
      ok := EnsureOnWay(EntryAddress(PDS_BASE, pdIndex), PTS_BASE, 512 * pdIndex, [a, b], c, [d], e);
      if !ok {
        return;
      }
      ghost var pt := TableAt(mem, root, [a, b, c]).value;
      WalkReaches(View(), [a, b, c], d);
      MapEnd(View(), pt, d, e);
      SeenAt(View(), EntryAddress(PTS_BASE, n), [a, b, c, d]);
      WriteEntry(EntryAddress(PTS_BASE, n), e);
    }

    /** What the tables hold for an address, read through the tables themselves. */
    method PagingGetTableMapping(v: nat) returns (e: nat)
      requires Ok() && SelfMapped(View())
      ensures e == Lookup(View(), PageOf(v))
    {
      hide PhysicalAllocator.Valid, WellFormed, SelfMapped, HardwareCell, EntryAddress, TableAt, WalkFrom, LookupFrom,
           PathOf, Seen, PageOf;
      ghost var s := View();
      var n := PageOf(v);
      var pml4Index, pdpIndex, pdIndex := n / 0x800_0000, n / 0x4_0000, n / 0x200;
      ghost var a, b, c, d := SeenPage(n, pml4Index, pdpIndex, pdIndex);
      TableAtRoot(s);
      PathPieces(a, b, c, d);

      LookupLevel(s, [], a, [b, c, d]);
      SeenAt(s, EntryAddress(PML4_BASE, pml4Index), [a]);
      e := ReadEntry(EntryAddress(PML4_BASE, pml4Index));
      if e == 0 {
        return;
      }
      LookupLevel(s, [a], b, [c, d]);
      SeenAt(s, EntryAddress(PDPS_BASE, pdpIndex), [a, b]);
      e := ReadEntry(EntryAddress(PDPS_BASE, pdpIndex));
      if e == 0 {
        return;
      }
      LookupLevel(s, [a, b], c, [d]);
      SeenAt(s, EntryAddress(PDS_BASE, pdIndex), [a, b, c]);
      e := ReadEntry(EntryAddress(PDS_BASE, pdIndex));
      if e == 0 {
        return;
      }
      LookupLevel(s, [a, b, c], d, []);
      SeenAt(s, EntryAddress(PTS_BASE, n), [a, b, c, d]);
      e := ReadEntry(EntryAddress(PTS_BASE, n));
    }

    /** A page is free when an entry on the way to it, or its own, is zero. */
    method PagingCheckIsPageIndexFree(n: nat) returns (free: bool)
      requires Ok() && SelfMapped(View()) && n < 0x10_0000_0000
      ensures free <==> Lookup(View(), n) == 0
    {
      hide PhysicalAllocator.Valid, WellFormed, SelfMapped, HardwareCell, EntryAddress, TableAt, WalkFrom, LookupFrom,
           PathOf, Seen, PageOf;
      ghost var s := View();
      ghost var a, b, c, d := SeenPage(n, n / 0x800_0000, n / 0x4_0000, n / 0x200);
      TableAtRoot(s);
      PathPieces(a, b, c, d);

      LookupLevel(s, [], a, [b, c, d]);
      SeenAt(s, EntryAddress(PML4_BASE, n / 0x800_0000), [a]);
      var e := ReadEntry(EntryAddress(PML4_BASE, n / 0x800_0000));
      if e == 0 {
        return true;
      }
      LookupLevel(s, [a], b, [c, d]);
      SeenAt(s, EntryAddress(PDPS_BASE, n / 0x4_0000), [a, b]);
      e := ReadEntry(EntryAddress(PDPS_BASE, n / 0x4_0000));
      if e == 0 {
        return true;
      }
      LookupLevel(s, [a, b], c, [d]);
      SeenAt(s, EntryAddress(PDS_BASE, n / 0x200), [a, b, c]);
      e := ReadEntry(EntryAddress(PDS_BASE, n / 0x200));
      if e == 0 {
        return true;
      }
      LookupLevel(s, [a, b, c], d, []);
      SeenAt(s, EntryAddress(PTS_BASE, n), [a, b, c, d]);
      e := ReadEntry(EntryAddress(PTS_BASE, n));
      return e == 0;
    }

    /**
      The first run of `count` free pages between two addresses, in either order.  A page found in
      use rules out every start up to it, so the search goes on behind it.
    */
    method PagingFindFreePages(first: nat, second: nat, count: nat) returns (result: FreePages)
      requires Ok() && SelfMapped(View())
      requires first < TWO_TO_64 && second < TWO_TO_64 && count + 0x10_0000_0000 < TWO_TO_64
      ensures result == BugCheck <==> first / 0x1_0000_0000_0000 != second / 0x1_0000_0000_0000
      ensures result.Found? ==> Canonical(result.address) && result.address % 0x1000 == 0
      ensures result.Found? ==> IsFirst(View(), first, second, count, result.address / 0x1000 % 0x10_0000_0000)
      ensures result == NotFound ==> forall i :: !Fits(View(), first, second, count, i)
    {
      hide WellFormed, SelfMapped, Lookup, ToCanonicalAddress, Ordinary;
      var min, max := first, second;
      if max < min {
        min, max := max, min;
      }
      if max / TWO_TO_48 != min / TWO_TO_48 {
        return BugCheck;
      }
      max := max % TWO_TO_48;
      min := min % TWO_TO_48;
      var i := min / PAGE_SIZE;
      while i < max / PAGE_SIZE
        invariant forall k :: k < i ==> !Fits(View(), first, second, count, k)
        invariant min / PAGE_SIZE <= i
        decreases max / PAGE_SIZE - i
      {
        if i + count >= max / PAGE_SIZE {
          break;
        }
        var possible := true;
        var j := 0;
        while j < count
          invariant j <= count && forall k :: i <= k < i + j ==> Lookup(View(), k) == 0
        {
          var free := PagingCheckIsPageIndexFree(i + j);
          if !free {
            SkipAhead(View(), first, second, count, i, j);
            i := i + j;
            possible := false;
            break;
          }
          j := j + 1;
        }
        if possible {
          PageInRange(i, max);
          CanonicalPage(i, ToCanonicalAddress(i * PAGE_SIZE));
          return Found(ToCanonicalAddress(i * PAGE_SIZE));
        }
        i := i + 1;
      }
      result := NotFound;
    }

    /**
      Maps a physical address at the first free page between two addresses.  When no page is free
      the result of the search, all ones, is taken for an address, and its page is mapped.
    */
    method PagingAllocatePageWithPhysicalAddress(first: nat, second: nat, f: nat, p: nat) returns (result: FreePages)
      requires Ok() && SelfMapped(View()) && first < TWO_TO_64 && second < TWO_TO_64 && f < 0x1000
      requires forall i :: LowPage(first, second) <= i < HighPage(first, second) ==> Ordinary(i)
      modifies this`mem, pfns, pfns.inFree, pfns.flags
      ensures Ok() && SelfMapped(View()) && PhysicalAllocator.Valid(old(View()).frames)
      ensures result == BugCheck <==> first / 0x1_0000_0000_0000 != second / 0x1_0000_0000_0000
      ensures result == BugCheck ==> View() == old(View())
      ensures result.Found? ==>
        && Canonical(result.address) && result.address % 0x1000 == 0
        && IsFirst(old(View()), first, second, 1, result.address / 0x1000 % 0x10_0000_0000)
        && View() == MapPage(old(View()), result.address, p, f).0
      ensures result == NotFound ==>
        && (forall i :: !Fits(old(View()), first, second, 1, i))
        && View() == MapPage(old(View()), 0xFFFF_FFFF_FFFF_FFFF, p, f).0
    {
      hide PhysicalAllocator.Valid, WellFormed, SelfMapped, Lookup, MapPage, PathOf, Canonical;
      WellFormedFrames(View());
      result := PagingFindFreePages(first, second, 1);
      match result {
        case BugCheck =>
        case Found(address) => var ok := PagingMapPage(address, p, f);
        case NotFound =>
          LastPage();
          var ok := PagingMapPage(0xFFFF_FFFF_FFFF_FFFF, p, f);
      }
    }

    /** One table level before paging runs, when the tables are reached by their physical addresses. */
    method EnsureTableBeforeInit(t: Pfn, i: nat) returns (ok: bool, c: Pfn)
      requires pfns.Ok() && IsTable(mem, t) && i < ENTRIES
      requires mem[t][i] == 0 ==> forall f <- pfns.free :: f < FRAME_LIMIT && f != t && IsTable(mem, f)
      modifies this`mem, pfns, pfns.inFree, pfns.flags
      ensures pfns.Ok() && PhysicalAllocator.Valid(old(View()).frames)
      ensures Ensure(old(View()), t, i) == (View(), if ok then Some(c) else None)
    {
      hide PhysicalAllocator.Valid;
      AllocateValid(pfns.View());
      if mem[t][i] == 0 {
        var frame := pfns.MmAllocatePfn();
        if frame.NoMemory? {
          return false, 0;
        }
        var f := frame.value;
        assert f in old(pfns.free);
        SetEntry(t, i, f * PAGE_SIZE);
        mem := mem[f := EmptyTable()];
        SetEntry(t, i, mem[t][i] + TABLE_FLAGS);
        TableEntryLeadsOn(f);
        assert mem[t] == Ensure(old(View()), t, i).0.mem[t];
        assert mem == Ensure(old(View()), t, i).0.mem;
      }
      ok, c := true, FrameOf(mem[t][i]);
    }

    method SetEntry(t: Pfn, i: nat, e: nat)
      requires IsTable(mem, t) && i < ENTRIES
      modifies this`mem
      ensures mem == WithEntry(old(View()), t, i, e).mem
    {
      var table: Table := mem[t][i := e];
      mem := mem[t := table];
    }

    /** Maps a page before paging runs. */
    method PagingMapPageBeforeInit(p: nat, v: nat, f: nat) returns (ok: bool)
      requires Ok() && f < PAGE_SIZE && Ordinary(PageOf(v))
      modifies this`mem, pfns, pfns.inFree, pfns.flags
      ensures Ok() && PhysicalAllocator.Valid(old(View()).frames) && (View(), ok) == MapPage(old(View()), v, p, f)
    {
      hide PhysicalAllocator.Valid, WellFormed, TableAt, WalkFrom, Ensure, Lookup, MapFrom, PathOf, EntryFor, PageOf;
      ghost var s := View();
      var e := EntryFor(p, f);
      var n := PageOf(v);
      var a, b, c, d := n / 0x800_0000 % 512, n / 0x4_0000 % 512, n / 0x200 % 512, n % 512;
      PathIs(n);
      MapPageLookup(s, v, p, f, n);
      PathPieces(a, b, c, d);
      TableAtRoot(s);
      BeforeLevel(s, [], a);
      MapStep(s, root, a, [b, c, d], e);
      assert [a] + [b, c, d] == [a, b, c, d];

      var pdp: Pfn;
      ok, pdp := EnsureTableBeforeInit(root, a);
      if !ok {
        return;
      }
      BeforeLevel(View(), [a], b);
      MapStep(View(), pdp, b, [c, d], e);
      assert [b] + [c, d] == [b, c, d];
      var pd: Pfn;
      ok, pd := EnsureTableBeforeInit(pdp, b);
      if !ok {
        return;
      }
      BeforeLevel(View(), [a, b], c);
      MapStep(View(), pd, c, [d], e);
      assert [c] + [d] == [c, d];
      var pt: Pfn;
      ok, pt := EnsureTableBeforeInit(pd, c);
      if !ok {
        return;
      }
      WalkReaches(View(), [a, b, c], d);
      MapEnd(View(), pt, d, e);
      SetEntry(pt, d, e);
    }

    /** Maps a range of pages, one after the other, until one cannot be mapped. */
    method PagingMapRangeBeforeInit(physicalStart: nat, physicalEnd: nat, virtualStart: nat, f: nat) returns (ok: bool)
      requires Ok() && f < PAGE_SIZE && physicalEnd + PAGE_SIZE < TWO_TO_64
      requires OrdinaryRange(virtualStart, physicalEnd - physicalStart)
      modifies this`mem, pfns, pfns.inFree, pfns.flags
      ensures Ok() && PhysicalAllocator.Valid(old(View()).frames)
      ensures (View(), ok) == MapRange(old(View()), physicalStart, physicalEnd, virtualStart, f, 0)
    {
      hide PhysicalAllocator.Valid, WellFormed, MapPage, PageOf, Ordinary;
      var delta := 0;
      WellFormedFrames(View());
      while delta + physicalStart <= physicalEnd
        invariant Ok() && PhysicalAllocator.Valid(View().frames) && PhysicalAllocator.Valid(old(View()).frames)
        invariant MapRange(View(), physicalStart, physicalEnd, virtualStart, f, delta)
               == MapRange(old(View()), physicalStart, physicalEnd, virtualStart, f, 0)
        decreases physicalEnd - physicalStart - delta
      {
        var mapped := PagingMapPageBeforeInit(physicalStart + delta, virtualStart + delta, f);
        WellFormedFrames(View());
        if !mapped {
          return false;
        }
        delta := delta + PAGE_SIZE;
      }
      return true;
    }
  }

  lemma {:induction false} CellInMemory(mem: map<Pfn, Table>, t: Pfn, path: Path)
    requires WalkFrom(mem, t, path).Some?
    ensures var c := WalkFrom(mem, t, path).value; IsTable(mem, c.frame) && c.index < ENTRIES
    decreases |path|
  {
    if |path| > 1 {
      CellInMemory(mem, FrameOf(mem[t][path[0]]), path[1..]);
    }
  }
}
