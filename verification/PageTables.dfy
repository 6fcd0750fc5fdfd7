/**
  The four-level page tables as a tree of physical frames, and the flat map they stand for.  A
  table is a frame of 512 entries; an entry of an upper table is zero or leads to a table of the
  next level (section 4.5 of the Intel 64 and IA-32 Architectures Software Developer's Manual,
  volume 3A).
*/
module PageTables {
  import opened Common
  import opened PhysicalAllocator

  type Table = seq<nat>

  const ENTRIES: nat := 512
  const PAGE_SIZE: nat := 4096

  /** Slot of the top table that leads back to the top table. */
  const SELF: nat := 510

  /** PAGE_PRESENT, PAGE_WRITE and PAGE_USER together. */
  const TABLE_FLAGS: nat := 7

  /** Physical addresses have 52 bits. */
  const FRAME_LIMIT: nat := 0x100_0000_0000

  predicate Present(e: nat) {
    e % 2 == 1
  }

  /** Bit 7 of an upper entry would make it map a large page. */
  predicate Large(e: nat) {
    e / 128 % 2 == 1
  }

  /** The entry leads to another table. */
  predicate LeadsOn(e: nat) {
    Present(e) && !Large(e)
  }

  function FrameOf(e: nat): nat {
    e / PAGE_SIZE % FRAME_LIMIT
  }

  function TableEntry(f: Pfn): nat {
    f * PAGE_SIZE + TABLE_FLAGS
  }

  lemma TableEntryLeadsOn(f: Pfn)
    requires f < FRAME_LIMIT
    ensures TableEntry(f) != 0 && LeadsOn(TableEntry(f)) && FrameOf(TableEntry(f)) == f
  {
  }

  /** Physical memory, the frame of the top table, and the frame allocator. */
  datatype Paging = Paging(mem: map<Pfn, Table>, root: Pfn, frames: Frames)

  /** The indices that lead to a page: one for each level. */
  type Path = seq<nat>

  predicate ValidPath(path: Path) {
    path != [] && forall k :: 0 <= k < |path| ==> path[k] < ENTRIES
  }

  /** The indices of a page number of 36 bits. */
  function PathOf(n: nat): Path {
    [n / 0x800_0000 % ENTRIES, n / 0x4_0000 % ENTRIES, n / 0x200 % ENTRIES, n % ENTRIES]
  }

  lemma PathOfValid(n: nat)
    ensures ValidPath(PathOf(n)) && |PathOf(n)| == 4
  {
  }

  lemma Recompose(n: nat)
    requires n < 0x10_0000_0000
    ensures n == PathOf(n)[0] * 0x800_0000 + PathOf(n)[1] * 0x4_0000 + PathOf(n)[2] * 0x200 + PathOf(n)[3]
  {
    var a, b := n / 0x200, n / 0x4_0000;
    assert n == a * 0x200 + n % 0x200;
    assert a == b * 0x200 + a % 0x200;
    assert b == n / 0x800_0000 * 0x200 + b % 0x200;
  }

  /** Two pages with the same indices are the same page. */
  lemma PathOfInjective(n: nat, m: nat)
    requires n < 0x10_0000_0000 && m < 0x10_0000_0000 && PathOf(n) == PathOf(m)
    ensures n == m
  {
    Recompose(n);
    Recompose(m);
  }

  predicate IsTable(mem: map<Pfn, Table>, t: Pfn) {
    t in mem && |mem[t]| == ENTRIES
  }

  // --- lookup

  /** The entry at the end of a path, or zero if a table on the way is missing. */
  function LookupFrom(mem: map<Pfn, Table>, t: Pfn, path: Path): nat
    decreases |path|
  {
    if path == [] || path[0] >= ENTRIES || !IsTable(mem, t) then 0
    else
      var e := mem[t][path[0]];
      if |path| == 1 || e == 0 then e else LookupFrom(mem, FrameOf(e), path[1..])
  }

  /** What the tables say about a page. */
  function Lookup(s: Paging, n: nat): nat {
    LookupFrom(s.mem, s.root, PathOf(n))
  }

  // --- mapping a page

  function EmptyTable(): (t: Table)
    ensures |t| == ENTRIES && forall i :: 0 <= i < ENTRIES ==> t[i] == 0
  {
    seq(ENTRIES, i => 0)
  }

  function WithEntry(s: Paging, t: Pfn, i: nat, e: nat): Paging
    requires IsTable(s.mem, t) && i < ENTRIES
  {
    var table: Table := s.mem[t][i := e];
    s.(mem := s.mem[t := table])
  }

  /** Makes sure that entry `i` of a table leads to a table, which is empty if it is new. */
  function Ensure(s: Paging, t: Pfn, i: nat): (Paging, Option<Pfn>)
    requires IsTable(s.mem, t) && i < ENTRIES && PhysicalAllocator.Valid(s.frames)
  {
    if s.mem[t][i] != 0 then (s, Some(FrameOf(s.mem[t][i])))
    else
      match Allocate(s.frames)
      case (frames, Success(f)) =>
        var r := WithEntry(s, t, i, TableEntry(f));
        (Paging(r.mem[f := EmptyTable()], s.root, frames), Some(f))
      case (_, _) => (s, None)
  }

  /** Stores an entry at the end of a path, allocating the tables that are missing. */
  function MapFrom(s: Paging, t: Pfn, path: Path, e: nat): (r: (Paging, bool))
    requires PhysicalAllocator.Valid(s.frames)
    ensures PhysicalAllocator.Valid(r.0.frames)
    decreases |path|
  {
    if path == [] || path[0] >= ENTRIES || !IsTable(s.mem, t) then (s, false)
    else if |path| == 1 then (WithEntry(s, t, path[0], e), true)
    else
      AllocateValid(s.frames);
      match Ensure(s, t, path[0])
      case (r, None) => (r, false)
      case (r, Some(c)) => MapFrom(r, c, path[1..], e)
  }

  /** The entry for a physical address with flags: the two do not overlap. */
  function EntryFor(p: nat, f: nat): nat
    requires f < PAGE_SIZE
  {
    p / PAGE_SIZE * PAGE_SIZE + f
  }

  /** The number of the page of a virtual address; bits 63 to 48 only repeat bit 47. */
  function PageOf(v: nat): (n: nat)
    ensures n < 0x10_0000_0000
  {
    v / PAGE_SIZE % 0x10_0000_0000
  }

  function MapPage(s: Paging, v: nat, p: nat, f: nat): (Paging, bool)
    requires PhysicalAllocator.Valid(s.frames) && f < PAGE_SIZE
  {
    MapFrom(s, s.root, PathOf(PageOf(v)), EntryFor(p, f))
  }

  // --- well-formed trees

  /**
    `owner` gives every table the path that leads to it.  The entries of a table lead to the
    tables one step further down; the slot of the top table for the top table itself is apart.
  */
  ghost predicate Tree(s: Paging, owner: map<Pfn, Path>) {
    && PhysicalAllocator.Valid(s.frames)
    && s.root in owner && owner[s.root] == []
    && (forall t <- owner :: TableOk(s, owner, t))
    && (forall f <- s.frames.free :: f < FRAME_LIMIT && IsTable(s.mem, f) && f !in owner)
  }

  ghost predicate TableOk(s: Paging, owner: map<Pfn, Path>, t: Pfn)
    requires t in owner
  {
    && IsTable(s.mem, t) && |owner[t]| <= 3 && t < FRAME_LIMIT
    && (|owner[t]| < 3 ==> forall i :: 0 <= i < ENTRIES && InTree(owner[t], i) ==> EntryOk(s.mem[t][i], owner, owner[t] + [i]))
  }

  /** Every slot of an upper table belongs to the tree, except the one for the top table itself. */
  predicate InTree(place: Path, i: nat) {
    place == [] ==> i != SELF
  }

  ghost predicate EntryOk(e: nat, owner: map<Pfn, Path>, place: Path) {
    e == 0 || (LeadsOn(e) && FrameOf(e) in owner && owner[FrameOf(e)] == place)
  }

  /** The labels of the tables that were there stay. */
  ghost predicate Grows(owner: map<Pfn, Path>, owner': map<Pfn, Path>) {
    forall t <- owner :: t in owner' && owner'[t] == owner[t]
  }

  /** A lookup that starts in an untouched part of the tree is unchanged. */
  lemma {:induction false} LookupElsewhere(s: Paging, r: Paging, owner: map<Pfn, Path>, x: Pfn, q: Path)
    requires Tree(s, owner) && x in owner && |owner[x]| + |q| == 4 && ValidPath(q) && InTree(owner[x], q[0])
    requires forall y <- owner :: owner[x] <= owner[y] ==> y in r.mem && r.mem[y] == s.mem[y]
    ensures LookupFrom(r.mem, x, q) == LookupFrom(s.mem, x, q)
    decreases |q|
  {
    assert TableOk(s, owner, x);
    if |q| > 1 && s.mem[x][q[0]] != 0 {
      assert EntryOk(s.mem[x][q[0]], owner, owner[x] + [q[0]]);
      var c := FrameOf(s.mem[x][q[0]]);
      forall y | y in owner && owner[c] <= owner[y]
        ensures y in r.mem && r.mem[y] == s.mem[y]
      {
        assert owner[x] <= owner[y];
      }
      LookupElsewhere(s, r, owner, c, q[1..]);
    }
  }

  /** The tree with one more table. */
  lemma EnsureTree(s: Paging, owner: map<Pfn, Path>, t: Pfn, i: nat, f: Pfn)
    requires Tree(s, owner) && t in owner && |owner[t]| < 3 && i < ENTRIES && InTree(owner[t], i)
    requires s.mem[t][i] == 0 && s.frames.free != [] && f == s.frames.free[0]
    ensures f !in owner && f != t && Ensure(s, t, i).1 == Some(f)
    ensures Tree(Ensure(s, t, i).0, owner[f := owner[t] + [i]])
  {
    hide Allocate, PhysicalAllocator.Valid;
    var r := Ensure(s, t, i).0;
    var owner' := owner[f := owner[t] + [i]];
    assert f in s.frames.free;
    AllocateFacts(s.frames);
    TableEntryLeadsOn(f);
    forall x | x in owner'
      ensures TableOk(r, owner', x)
    {
      if x != f {
        assert TableOk(s, owner, x);
        if |owner[x]| < 3 {
          forall j | 0 <= j < ENTRIES && InTree(owner[x], j)
            ensures EntryOk(r.mem[x][j], owner', owner'[x] + [j])
          {
            assert EntryOk(s.mem[x][j], owner, owner[x] + [j]);
          }
        }
      }
    }
  }

  lemma AllocateFacts(frames: Frames)
    requires PhysicalAllocator.Valid(frames) && frames.free != []
    ensures var f := frames.free[0];
      var r := Allocate(frames).0;
      && Allocate(frames).1 == Success(f) && PhysicalAllocator.Valid(r)
      && forall g <- r.free :: g in frames.free && g != f
  {
    AllocateValid(frames);
    var f := frames.free[0];
    var r := Allocate(frames).0;
    assert f in r.working;
    forall g | g in r.free
      ensures g in frames.free && g != f
    {
      FrameInRange(r, g);
    }
  }

  lemma AllocateFails(frames: Frames)
    requires PhysicalAllocator.Valid(frames) && frames.free == []
    ensures Allocate(frames) == (frames, NoMemory)
  {
  }

  // --- a mapping changes one page

  /** The lookup of `q` is what it was, or the new entry if `q` is the mapped path. */
  predicate Shows(s: Paging, r: Paging, t: Pfn, path: Path, q: Path, e: nat, ok: bool) {
    LookupFrom(r.mem, t, q) == if ok && q == path then e else LookupFrom(s.mem, t, q)
  }

  /** Apart from entry `i` of `t`, only tables below that entry differ. */
  ghost predicate ChangesBelow(s: Paging, r: Paging, owner: map<Pfn, Path>, t: Pfn, i: nat)
    requires t in owner
  {
    && r.root == s.root && r.mem.Keys == s.mem.Keys && IsTable(r.mem, t) && IsTable(s.mem, t)
    && (forall x <- owner :: x in s.mem && (x != t && !(owner[t] + [i] <= owner[x]) ==> r.mem[x] == s.mem[x]))
    && (forall j :: 0 <= j < ENTRIES && j != i ==> r.mem[t][j] == s.mem[t][j])
  }

  /** A path that leaves the table by another entry is not affected. */
  lemma OtherEntry(s: Paging, r: Paging, owner: map<Pfn, Path>, t: Pfn, i: nat, q: Path)
    requires Tree(s, owner) && t in owner && |owner[t]| + |q| == 4 && ValidPath(q) && InTree(owner[t], q[0])
    requires ChangesBelow(s, r, owner, t, i) && q[0] != i
    ensures LookupFrom(r.mem, t, q) == LookupFrom(s.mem, t, q)
  {
    assert TableOk(s, owner, t);
    if |q| > 1 && s.mem[t][q[0]] != 0 {
      assert EntryOk(s.mem[t][q[0]], owner, owner[t] + [q[0]]);
      var c := FrameOf(s.mem[t][q[0]]);
      forall y | y in owner && owner[c] <= owner[y]
        ensures y in r.mem && r.mem[y] == s.mem[y]
      {
        assert owner[y][|owner[t]|] == q[0];
      }
      LookupElsewhere(s, r, owner, c, q[1..]);
    }
  }

  ghost predicate Mapped(s: Paging, r: Paging, owner: map<Pfn, Path>, owner': map<Pfn, Path>, t: Pfn, i: nat)
    requires t in owner
  {
    Tree(r, owner') && Grows(owner, owner') && ChangesBelow(s, r, owner, t, i)
  }

  /** Storing an entry in a table of the last level. */
  lemma MapLast(s: Paging, owner: map<Pfn, Path>, t: Pfn, i: nat, e: nat)
    requires Tree(s, owner) && t in owner && |owner[t]| == 3 && i < ENTRIES
    ensures IsTable(s.mem, t) && Mapped(s, WithEntry(s, t, i, e), owner, owner, t, i)
  {
  }

  /** A change below a child of `t` is a change below the entry that leads to it. */
  lemma ChildChanges(s: Paging, m: Paging, r: Paging, owner: map<Pfn, Path>, owner': map<Pfn, Path>, t: Pfn, i: nat,
                     c: Pfn, j: nat)
    requires Tree(s, owner) && t in owner && |owner[t]| < 3 && i < ENTRIES
    requires Grows(owner, owner') && c in owner' && owner'[c] == owner[t] + [i]
    requires ChangesBelow(s, m, owner, t, i) && ChangesBelow(m, r, owner', c, j)
    requires forall x <- owner :: x == c || m.mem[x] == s.mem[x] || x == t
    ensures ChangesBelow(s, r, owner, t, i) && r.mem[t] == m.mem[t]
  {
  }

  lemma {:induction false} MapFromTree(s: Paging, owner: map<Pfn, Path>, t: Pfn, path: Path,
                                       e: nat) returns (owner': map<Pfn, Path>)
    requires Tree(s, owner) && t in owner && |owner[t]| + |path| == 4 && ValidPath(path) && InTree(owner[t], path[0])
    ensures Mapped(s, MapFrom(s, t, path, e).0, owner, owner', t, path[0])
    decreases |path|
  {
    hide PhysicalAllocator.Valid, Allocate;
    assert TableOk(s, owner, t);
    var i := path[0];
    if |path| == 1 {
      MapLast(s, owner, t, i, e);
      owner' := owner;
    } else if s.mem[t][i] != 0 {
      assert EntryOk(s.mem[t][i], owner, owner[t] + [i]);
      var c := FrameOf(s.mem[t][i]);
      owner' := MapFromTree(s, owner, c, path[1..], e);
      ChildChanges(s, s, MapFrom(s, c, path[1..], e).0, owner, owner, t, i, c, path[1]);
    } else if s.frames.free == [] {
      AllocateFails(s.frames);
      owner' := owner;
    } else {
      var f := s.frames.free[0];
      EnsureTree(s, owner, t, i, f);
      var m := Ensure(s, t, i).0;
      var owner1 := owner[f := owner[t] + [i]];
      owner' := MapFromTree(m, owner1, f, path[1..], e);
      ChildChanges(s, m, MapFrom(m, f, path[1..], e).0, owner, owner1, t, i, f, path[1]);
    }
  }

  /** What the next table shows, this one shows; a table that was missing showed nothing. */
  lemma ShowsBelow(s: Paging, m: Paging, r: Paging, t: Pfn, c: Pfn, path: Path, q: Path, e: nat, ok: bool)
    requires 1 < |path| == |q| && path[0] == q[0] < ENTRIES && IsTable(s.mem, t) && IsTable(m.mem, t) && r.mem.Keys == m.mem.Keys
    requires m.mem[t][path[0]] != 0 && FrameOf(m.mem[t][path[0]]) == c && r.mem[t] == m.mem[t]
    requires Shows(m, r, c, path[1..], q[1..], e, ok)
    requires if s.mem[t][path[0]] == 0 then c in m.mem && m.mem[c] == EmptyTable() else s == m
    ensures Shows(s, r, t, path, q, e, ok)
  {
    assert q == [q[0]] + q[1..] && path == [path[0]] + path[1..];
  }

  /** Every path from the table shows the new entry if it is the mapped one, and the old one if not. */
  lemma {:induction false} MapFromShows(s: Paging, owner: map<Pfn, Path>, t: Pfn, path: Path, q: Path, e: nat)
    requires Tree(s, owner) && t in owner && |owner[t]| + |path| == 4
    requires ValidPath(path) && InTree(owner[t], path[0])
    requires ValidPath(q) && |q| == |path| && InTree(owner[t], q[0])
    ensures Shows(s, MapFrom(s, t, path, e).0, t, path, q, e, MapFrom(s, t, path, e).1)
    decreases |path|, 1
  {
    hide PhysicalAllocator.Valid, Grows, LookupFrom, Shows, Allocate;
    assert TableOk(s, owner, t);
    var i := path[0];
    var (r, ok) := MapFrom(s, t, path, e);
    if q[0] != i {
      var owner' := MapFromTree(s, owner, t, path, e);
      OtherEntry(s, r, owner, t, i, q);
      ShowsSame(s, r, t, path, q, e, ok);
    } else if |path| == 1 {
      ShowsLast(s, t, path, q, e);
    } else if s.mem[t][i] != 0 {
      ShowsThrough(s, owner, t, path, q, e);
    } else if s.frames.free == [] {
      AllocateFails(s.frames);
      ShowsSame(s, r, t, path, q, e, ok);
    } else {
      ShowsNew(s, owner, t, path, q, e);
    }
  }

  /** The next table is there already. */
  lemma {:induction false} ShowsThrough(s: Paging, owner: map<Pfn, Path>, t: Pfn, path: Path, q: Path, e: nat)
    requires Tree(s, owner) && t in owner && |owner[t]| + |path| == 4
    requires ValidPath(path) && InTree(owner[t], path[0]) && ValidPath(q) && |q| == |path| > 1 && q[0] == path[0]
    requires IsTable(s.mem, t) && s.mem[t][path[0]] != 0
    ensures Shows(s, MapFrom(s, t, path, e).0, t, path, q, e, MapFrom(s, t, path, e).1)
    decreases |path|, 0
  {
    hide PhysicalAllocator.Valid, Grows, LookupFrom, Shows, Allocate;
    assert TableOk(s, owner, t);
    var i := path[0];
    assert EntryOk(s.mem[t][i], owner, owner[t] + [i]);
    var c := FrameOf(s.mem[t][i]);
    var owner' := MapFromTree(s, owner, c, path[1..], e);
    ChildChanges(s, s, MapFrom(s, t, path, e).0, owner, owner, t, i, c, path[1]);
    MapFromShows(s, owner, c, path[1..], q[1..], e);
    ShowsBelow(s, s, MapFrom(s, t, path, e).0, t, c, path, q, e, MapFrom(s, t, path, e).1);
  }

  /** The next table is new. */
  lemma {:induction false} ShowsNew(s: Paging, owner: map<Pfn, Path>, t: Pfn, path: Path, q: Path, e: nat)
    requires Tree(s, owner) && t in owner && |owner[t]| + |path| == 4
    requires ValidPath(path) && InTree(owner[t], path[0]) && ValidPath(q) && |q| == |path| > 1 && q[0] == path[0]
    requires IsTable(s.mem, t) && s.mem[t][path[0]] == 0 && s.frames.free != []
    ensures Shows(s, MapFrom(s, t, path, e).0, t, path, q, e, MapFrom(s, t, path, e).1)
    decreases |path|, 0
  {
    hide PhysicalAllocator.Valid, Grows, LookupFrom, Shows;
    assert TableOk(s, owner, t);
    var i, f := path[0], s.frames.free[0];
    EnsureTree(s, owner, t, i, f);
    var m := Ensure(s, t, i).0;
    var owner1 := owner[f := owner[t] + [i]];
    var r := MapFrom(m, f, path[1..], e).0;
    var owner' := MapFromTree(m, owner1, f, path[1..], e);
    ChildChanges(s, m, r, owner, owner1, t, i, f, path[1]);
    MapFromShows(m, owner1, f, path[1..], q[1..], e);
    TableEntryLeadsOn(f);
    ShowsBelow(s, m, r, t, f, path, q, e, MapFrom(s, t, path, e).1);
  }

  lemma ShowsSame(s: Paging, r: Paging, t: Pfn, path: Path, q: Path, e: nat, ok: bool)
    requires LookupFrom(r.mem, t, q) == LookupFrom(s.mem, t, q) && (ok ==> q != path)
    ensures Shows(s, r, t, path, q, e, ok)
  {
  }

  lemma ShowsLast(s: Paging, t: Pfn, path: Path, q: Path, e: nat)
    requires |path| == 1 == |q| && path[0] == q[0] < ENTRIES && IsTable(s.mem, t)
    ensures Shows(s, WithEntry(s, t, path[0], e), t, path, q, e, true)
  {
    assert q == path;
  }

  // --- the flat map

  ghost predicate WellFormed(s: Paging) {
    exists owner: map<Pfn, Path> :: Tree(s, owner)
  }

  /** The page is not one of those through which the tables themselves are seen. */
  predicate Ordinary(n: nat) {
    PathOf(n)[0] != SELF
  }

  /**
    Mapping a page makes the lookup of that page return the address with its flags, leaves the
    lookup of every other page as it was, and changes no lookup at all when it fails for lack of
    frames.
  */
  lemma MapPageLookup(s: Paging, v: nat, p: nat, f: nat, n: nat)
    requires WellFormed(s) && f < PAGE_SIZE && Ordinary(PageOf(v)) && n < 0x10_0000_0000 && Ordinary(n)
    ensures PhysicalAllocator.Valid(s.frames)
    ensures var (r, ok) := MapPage(s, v, p, f);
      && WellFormed(r) && r.root == s.root
      && Lookup(r, n) == if ok && n == PageOf(v) then EntryFor(p, f) else Lookup(s, n)
  {
    hide MapFrom, PathOf;
    var owner :| Tree(s, owner);
    PathOfValid(PageOf(v));
    PathOfValid(n);
    if PathOf(n) == PathOf(PageOf(v)) {
      PathOfInjective(n, PageOf(v));
    }
    var path := PathOf(PageOf(v));
    var owner' := MapFromTree(s, owner, s.root, path, EntryFor(p, f));
    MapFromShows(s, owner, s.root, path, PathOf(n), EntryFor(p, f));
  }

  /** How many tables are missing on the way along a path. */
  function Missing(s: Paging, t: Pfn, path: Path): (n: nat)
    ensures path != [] ==> n < |path|
    decreases |path|
  {
    if |path| <= 1 || path[0] >= ENTRIES || !IsTable(s.mem, t) then 0
    else if s.mem[t][path[0]] == 0 then |path| - 1
    else Missing(s, FrameOf(s.mem[t][path[0]]), path[1..])
  }

  lemma NoneAllocated(frames: Frames)
    requires PhysicalAllocator.Valid(frames) && frames.free != []
    ensures Allocate(frames).0.free == frames.free[1..]
  {
  }

  /** In an empty table everything further down is missing. */
  lemma EmptyMisses(s: Paging, t: Pfn, path: Path)
    requires t in s.mem && s.mem[t] == EmptyTable() && path != [] && path[0] < ENTRIES
    ensures Missing(s, t, path) == |path| - 1
  {
  }

  /**
    A mapping succeeds exactly when there is a frame for every missing table, and takes just those;
    when it fails it has taken all frames.  Afterwards no table is missing.
  */
  lemma {:induction false} MapFromExact(s: Paging, owner: map<Pfn, Path>, t: Pfn, path: Path, e: nat)
    requires Tree(s, owner) && t in owner && |owner[t]| + |path| == 4 && ValidPath(path) && InTree(owner[t], path[0])
    ensures PhysicalAllocator.Valid(s.frames)
    ensures var (r, ok) := MapFrom(s, t, path, e);
      && (ok <==> Missing(s, t, path) <= |s.frames.free|)
      && |r.frames.free| == (if ok then |s.frames.free| - Missing(s, t, path) else 0)
      && (ok ==> Missing(r, t, path) == 0)
    decreases |path|
  {
    hide PhysicalAllocator.Valid, Allocate, LeadsOn, FrameOf;
    assert TableOk(s, owner, t);
    var i := path[0];
    if |path| > 1 {
      if s.mem[t][i] != 0 {
        assert EntryOk(s.mem[t][i], owner, owner[t] + [i]);
        var c := FrameOf(s.mem[t][i]);
        MapFromExact(s, owner, c, path[1..], e);
        var owner' := MapFromTree(s, owner, c, path[1..], e);
        ChildChanges(s, s, MapFrom(s, c, path[1..], e).0, owner, owner, t, i, c, path[1]);
      } else if s.frames.free == [] {
        AllocateFails(s.frames);
      } else {
        MapNewExact(s, owner, t, path, e);
      }
    }
  }

  /** The next table is new. */
  lemma {:induction false} MapNewExact(s: Paging, owner: map<Pfn, Path>, t: Pfn, path: Path, e: nat)
    requires Tree(s, owner) && t in owner && |owner[t]| + |path| == 4 && ValidPath(path) && InTree(owner[t], path[0])
    requires |path| > 1 && IsTable(s.mem, t) && s.mem[t][path[0]] == 0 && s.frames.free != []
    ensures PhysicalAllocator.Valid(s.frames)
    ensures var (r, ok) := MapFrom(s, t, path, e);
      && (ok <==> Missing(s, t, path) <= |s.frames.free|)
      && |r.frames.free| == (if ok then |s.frames.free| - Missing(s, t, path) else 0)
      && (ok ==> Missing(r, t, path) == 0)
    decreases |path|, 0
  {
    hide PhysicalAllocator.Valid, LeadsOn, FrameOf;
    var i, f := path[0], s.frames.free[0];
    EnsureTree(s, owner, t, i, f);
    NoneAllocated(s.frames);
    TableEntryLeadsOn(f);
    var m := Ensure(s, t, i).0;
    var owner1 := owner[f := owner[t] + [i]];
    EmptyMisses(m, f, path[1..]);
    MapFromExact(m, owner1, f, path[1..], e);
    var owner' := MapFromTree(m, owner1, f, path[1..], e);
    ChildChanges(s, m, MapFrom(m, f, path[1..], e).0, owner, owner1, t, i, f, path[1]);
  }

  /** Three free frames are enough for any mapping. */
  lemma MapFromSucceeds(s: Paging, owner: map<Pfn, Path>, t: Pfn, path: Path, e: nat)
    requires Tree(s, owner) && t in owner && |owner[t]| + |path| == 4 && ValidPath(path) && InTree(owner[t], path[0])
    requires |path| - 1 <= |s.frames.free|
    ensures MapFrom(s, t, path, e).1
  {
    hide PhysicalAllocator.Valid, MapFrom;
    MapFromExact(s, owner, t, path, e);
  }

  /** What a new table's entry is made of: the frame, present, writable and open to user mode; the table is empty. */
  lemma NewTable(s: Paging, t: Pfn, i: nat)
    requires PhysicalAllocator.Valid(s.frames) && IsTable(s.mem, t) && i < ENTRIES && s.mem[t][i] == 0 && s.frames.free != []
    ensures var f := s.frames.free[0];
      var (r, c) := Ensure(s, t, i);
      && c == Some(f) && (f != t ==> t in r.mem && |r.mem[t]| == 512 && r.mem[t][i] == f * 0x1000 + 7)
      && f in r.mem && |r.mem[f]| == 512 && forall j :: 0 <= j < 512 ==> r.mem[f][j] == 0
  {
    hide PhysicalAllocator.Valid;
  }

  datatype Request = Request(v: nat, p: nat, f: nat)

  /** Requests the code allows: flags below the page size, and no page of the tables themselves. */
  predicate AllOrdinary(requests: seq<Request>) {
    forall k :: 0 <= k < |requests| ==> requests[k].f < PAGE_SIZE && Ordinary(PageOf(requests[k].v))
  }

  function Run(s: Paging, requests: seq<Request>): Paging
    requires PhysicalAllocator.Valid(s.frames) && AllOrdinary(requests)
    decreases |requests|
  {
    if requests == [] then s
    else Run(MapPage(s, requests[0].v, requests[0].p, requests[0].f).0, requests[1..])
  }

  /** What the last successful request for a page stored, or else what was there at first. */
  function LastStored(s: Paging, requests: seq<Request>, n: nat, first: nat): nat
    requires PhysicalAllocator.Valid(s.frames) && AllOrdinary(requests)
    decreases |requests|
  {
    if requests == [] then first
    else
      var q := requests[0];
      var (r, ok) := MapPage(s, q.v, q.p, q.f);
      LastStored(r, requests[1..], n, if ok && PageOf(q.v) == n then EntryFor(q.p, q.f) else first)
  }

  /** After any sequence of mappings, every page shows what was last stored for it. */
  lemma {:induction false} RunLookup(s: Paging, requests: seq<Request>, n: nat)
    requires WellFormed(s) && AllOrdinary(requests) && n < 0x10_0000_0000 && Ordinary(n)
    ensures PhysicalAllocator.Valid(s.frames) && WellFormed(Run(s, requests))
    ensures Lookup(Run(s, requests), n) == LastStored(s, requests, n, Lookup(s, n))
    decreases |requests|
  {
    hide Lookup, MapPage, Ordinary, PageOf, Tree;
    WellFormedFrames(s);
    if requests == [] {
    } else {
      MapPageLookup(s, requests[0].v, requests[0].p, requests[0].f, n);
      RunLookup(MapPage(s, requests[0].v, requests[0].p, requests[0].f).0, requests[1..], n);
    }
  }

  lemma WellFormedFrames(s: Paging)
    requires WellFormed(s)
    ensures PhysicalAllocator.Valid(s.frames)
  {
  }

  /** The table a path leads to, if all the tables on the way are there. */
  function TableAt(mem: map<Pfn, Table>, t: Pfn, path: Path): Option<Pfn>
    decreases |path|
  {
    if path == [] then Some(t)
    else if path[0] >= ENTRIES || !IsTable(mem, t) || mem[t][path[0]] == 0 then None
    else TableAt(mem, FrameOf(mem[t][path[0]]), path[1..])
  }

  /** Two different paths never lead to the same table frame. */
  lemma TablesDistinct(s: Paging, a: Path, b: Path)
    requires WellFormed(s) && |a| <= 3 && |b| <= 3 && (a != [] ==> a[0] != SELF) && (b != [] ==> b[0] != SELF)
    requires TableAt(s.mem, s.root, a).Some? && TableAt(s.mem, s.root, a) == TableAt(s.mem, s.root, b)
    ensures a == b
  {
    hide TableAt, TableOk, PhysicalAllocator.Valid;
    var owner :| Tree(s, owner);
    TableOwned(s, owner, s.root, a);
    TableOwned(s, owner, s.root, b);
    assert owner[s.root] + a == a && owner[s.root] + b == b;
  }

  lemma {:induction false} TableOwned(s: Paging, owner: map<Pfn, Path>, t: Pfn, path: Path)
    requires Tree(s, owner) && t in owner && |owner[t]| + |path| <= 3 && (path != [] ==> InTree(owner[t], path[0]))
    requires TableAt(s.mem, t, path).Some?
    ensures var x := TableAt(s.mem, t, path).value;
      x in owner && owner[x] == owner[t] + path && x !in s.frames.free
    decreases |path|
  {
    assert TableOk(s, owner, t);
    if path != [] {
      assert EntryOk(s.mem[t][path[0]], owner, owner[t] + [path[0]]);
      TableOwned(s, owner, FrameOf(s.mem[t][path[0]]), path[1..]);
      assert owner[t] + [path[0]] + path[1..] == owner[t] + path;
    }
  }

  /** An address space that maps nothing. */
  lemma EmptySpace(s: Paging)
    requires PhysicalAllocator.Valid(s.frames) && IsTable(s.mem, s.root) && s.root < FRAME_LIMIT && s.root !in s.frames.free
    requires forall f <- s.frames.free :: f < FRAME_LIMIT && IsTable(s.mem, f)
    requires forall i :: 0 <= i < ENTRIES && i != SELF ==> s.mem[s.root][i] == 0
    ensures WellFormed(s) && forall n: nat :: Ordinary(n) ==> Lookup(s, n) == 0
  {
    var owner: map<Pfn, Path> := map[s.root := []];
    assert TableOk(s, owner, s.root);
    assert Tree(s, owner);
  }

  // --- pages that are mapped already

  /** Storing an entry where there is one needs no new table and changes one table of the last level. */
  lemma {:induction false} MapFromExisting(s: Paging, owner: map<Pfn, Path>, t: Pfn, path: Path,
                                           e: nat) returns (pt: Pfn)
    requires Tree(s, owner) && t in owner && |owner[t]| + |path| == 4 && ValidPath(path) && InTree(owner[t], path[0])
    requires LookupFrom(s.mem, t, path) != 0
    ensures pt in owner && |owner[pt]| == 3 && IsTable(s.mem, pt)
    ensures MapFrom(s, t, path, e) == (WithEntry(s, pt, path[|path| - 1], e), true)
    decreases |path|
  {
    hide PhysicalAllocator.Valid;
    assert TableOk(s, owner, t);
    if |path| == 1 {
      pt := t;
    } else {
      assert EntryOk(s.mem[t][path[0]], owner, owner[t] + [path[0]]);
      pt := MapFromExisting(s, owner, FrameOf(s.mem[t][path[0]]), path[1..], e);
      assert path[1..][|path| - 2] == path[|path| - 1];
    }
  }

  /** Remapping a page that has an entry keeps the tree, the frames and every frame that is not a table. */
  lemma Remap(s: Paging, owner: map<Pfn, Path>, v: nat, p: nat, f: nat)
    requires Tree(s, owner) && f < PAGE_SIZE && Ordinary(PageOf(v)) && Lookup(s, PageOf(v)) != 0
    ensures var (r, ok) := MapPage(s, v, p, f);
      && ok && Tree(r, owner) && r.root == s.root && r.frames == s.frames && r.mem.Keys == s.mem.Keys
      && forall g <- s.mem :: g !in owner ==> r.mem[g] == s.mem[g]
  {
    hide PhysicalAllocator.Valid, MapFrom, LookupFrom, PathOf;
    var path := PathOf(PageOf(v));
    PathOfValid(PageOf(v));
    var pt := MapFromExisting(s, owner, s.root, path, EntryFor(p, f));
    MapLast(s, owner, pt, path[3], EntryFor(p, f));
  }

  /** The contents of frames that are not tables, and the lists of frames, do not matter to the lookups. */
  lemma SameTables(s: Paging, r: Paging, owner: map<Pfn, Path>)
    requires Tree(s, owner) && r.root == s.root && PhysicalAllocator.Valid(r.frames)
    requires forall x <- owner :: x in r.mem && x in s.mem && r.mem[x] == s.mem[x]
    requires forall f <- r.frames.free :: f < FRAME_LIMIT && IsTable(r.mem, f) && f !in owner
    ensures Tree(r, owner) && forall n: nat :: Ordinary(n) ==> Lookup(r, n) == Lookup(s, n)
  {
    hide PhysicalAllocator.Valid, LookupFrom, PathOf;
    forall x | x in owner
      ensures TableOk(r, owner, x)
    {
      assert TableOk(s, owner, x);
      if |owner[x]| < 3 {
        forall i | 0 <= i < ENTRIES && InTree(owner[x], i)
          ensures EntryOk(r.mem[x][i], owner, owner[x] + [i])
        {
          assert EntryOk(s.mem[x][i], owner, owner[x] + [i]);
        }
      }
    }
    forall n: nat | Ordinary(n)
      ensures Lookup(r, n) == Lookup(s, n)
    {
      PathOfValid(n);
      LookupElsewhere(s, r, owner, s.root, PathOf(n));
    }
  }
}
