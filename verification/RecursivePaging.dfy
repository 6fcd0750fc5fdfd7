/**
  The tables seen through themselves.  With slot 510 of the top table leading back to the top
  table, the entries of all tables appear at fixed virtual addresses; the processor's walk of such
  an address ends at the entry that a direct walk of the tables reaches.
*/
module RecursivePaging {
  import opened Common
  import opened PhysicalAllocator
  import opened PageTables

  const TWO_TO_47: nat := 0x8000_0000_0000
  const TWO_TO_48: nat := 0x1_0000_0000_0000
  const TWO_TO_64: nat := 0x1_0000_0000_0000_0000

  const PDP_COVERED_SIZE: nat := 0x80_0000_0000
  const PD_COVERED_SIZE: nat := 0x4000_0000
  const PT_COVERED_SIZE: nat := 0x20_0000

  /** Bits 63 to 48 of an address repeat bit 47. */
  function ToCanonicalAddress(a: nat): nat {
    if a / TWO_TO_47 % 2 == 1 then a % TWO_TO_48 + (TWO_TO_64 - TWO_TO_48) else a
  }

  /** The processor takes an address of 64 bits only if its upper 17 bits are all alike. */
  predicate Canonical(a: nat) {
    a < 0x8000_0000_0000 || 0xFFFF_8000_0000_0000 <= a <= 0xFFFF_FFFF_FFFF_FFFF
  }

  /** The address of a page is canonical, its first, and the only one that is both. */
  lemma CanonicalPage(i: nat, a: nat)
    requires i < 0x10_0000_0000
    ensures a == ToCanonicalAddress(i * PAGE_SIZE) <==> Canonical(a) && a % 0x1000 == 0 && a / 0x1000 % 0x10_0000_0000 == i
  {
  }

  const PTS_BASE: nat := ToCanonicalAddress(PDP_COVERED_SIZE * SELF)
  const PDS_BASE: nat := ToCanonicalAddress((PTS_BASE + PD_COVERED_SIZE * SELF) % TWO_TO_64)
  const PDPS_BASE: nat := ToCanonicalAddress((PDS_BASE + PT_COVERED_SIZE * SELF) % TWO_TO_64)
  const PML4_BASE: nat := ToCanonicalAddress((PDPS_BASE + PAGE_SIZE * SELF) % TWO_TO_64)

  /** Where the entry number `n` behind a base is seen. */
  function EntryAddress(base: nat, n: nat): nat {
    (base + 8 * n) % TWO_TO_64
  }

  // --- the walk of the processor

  /** A place in physical memory: an entry of a frame. */
  datatype Cell = Cell(frame: Pfn, index: nat)

  /** The entry at the end of a path, when every entry on the way leads on. */
  function WalkFrom(mem: map<Pfn, Table>, t: Pfn, path: Path): Option<Cell>
    decreases |path|
  {
    if path == [] || path[0] >= ENTRIES || !IsTable(mem, t) then None
    else if |path| == 1 then Some(Cell(t, path[0]))
    else if LeadsOn(mem[t][path[0]]) then WalkFrom(mem, FrameOf(mem[t][path[0]]), path[1..])
    else None
  }

  /** The processor goes through four levels by nine bits of the address each, and on to eight bytes of the page. */
  function AddressPath(a: nat): Path {
    PathOf(PageOf(a)) + [a % PAGE_SIZE / 8]
  }

  function HardwareCell(mem: map<Pfn, Table>, root: Pfn, a: nat): Option<Cell> {
    WalkFrom(mem, root, AddressPath(a))
  }

  predicate SelfMapped(s: Paging) {
    IsTable(s.mem, s.root) && LeadsOn(s.mem[s.root][SELF]) && FrameOf(s.mem[s.root][SELF]) == s.root
  }

  // --- the addresses of the entries

  lemma BaseValues()
    ensures PTS_BASE == 0xFFFF_FF00_0000_0000 && PDS_BASE == 0xFFFF_FF7F_8000_0000
    ensures PDPS_BASE == 0xFFFF_FF7F_BFC0_0000 && PML4_BASE == 0xFFFF_FF7F_BFDF_E000
  {
  }

  /** Table entry `d` of the tables below slot 510: one turn through the top table. */
  lemma PtAddress(a: nat, b: nat, c: nat, d: nat)
    requires a < ENTRIES && b < ENTRIES && c < ENTRIES && d < ENTRIES
    ensures AddressPath(EntryAddress(PTS_BASE, a * 0x800_0000 + b * 0x4_0000 + c * 0x200 + d)) == [SELF, a, b, c, d]
  {
    hide ToCanonicalAddress;
    var n := a * 0x800_0000 + b * 0x4_0000 + c * 0x200 + d;
    var page := SELF * 0x800_0000 + a * 0x4_0000 + b * 0x200 + c;
    BaseValues();
    assert EntryAddress(PTS_BASE, n) == (TWO_TO_64 - TWO_TO_48) + page * PAGE_SIZE + 8 * d;
    AddressParts(page, d);
    PathParts(SELF, a, b, c);
  }

  lemma PdAddress(a: nat, b: nat, c: nat)
    requires a < ENTRIES && b < ENTRIES && c < ENTRIES
    ensures AddressPath(EntryAddress(PDS_BASE, a * 0x4_0000 + b * 0x200 + c)) == [SELF, SELF, a, b, c]
  {
    hide ToCanonicalAddress;
    var page := SELF * 0x800_0000 + SELF * 0x4_0000 + a * 0x200 + b;
    BaseValues();
    assert EntryAddress(PDS_BASE, a * 0x4_0000 + b * 0x200 + c) == (TWO_TO_64 - TWO_TO_48) + page * PAGE_SIZE + 8 * c;
    AddressParts(page, c);
    PathParts(SELF, SELF, a, b);
  }

  lemma PdpAddress(a: nat, b: nat)
    requires a < ENTRIES && b < ENTRIES
    ensures AddressPath(EntryAddress(PDPS_BASE, a * 0x200 + b)) == [SELF, SELF, SELF, a, b]
  {
    hide ToCanonicalAddress;
    var page := SELF * 0x800_0000 + SELF * 0x4_0000 + SELF * 0x200 + a;
    BaseValues();
    assert EntryAddress(PDPS_BASE, a * 0x200 + b) == (TWO_TO_64 - TWO_TO_48) + page * PAGE_SIZE + 8 * b;
    AddressParts(page, b);
    PathParts(SELF, SELF, SELF, a);
  }

  lemma Pml4Address(a: nat)
    requires a < ENTRIES
    ensures AddressPath(EntryAddress(PML4_BASE, a)) == [SELF, SELF, SELF, SELF, a]
  {
    hide ToCanonicalAddress;
    var page := SELF * 0x800_0000 + SELF * 0x4_0000 + SELF * 0x200 + SELF;
    BaseValues();
    assert EntryAddress(PML4_BASE, a) == (TWO_TO_64 - TWO_TO_48) + page * PAGE_SIZE + 8 * a;
    AddressParts(page, a);
    PathParts(SELF, SELF, SELF, SELF);
  }

  lemma AddressParts(page: nat, d: nat)
    requires page < 0x10_0000_0000 && d < ENTRIES
    ensures var a := (TWO_TO_64 - TWO_TO_48) + page * PAGE_SIZE + 8 * d;
      PageOf(a) == page && a % PAGE_SIZE / 8 == d
  {
    var a := (TWO_TO_64 - TWO_TO_48) + page * PAGE_SIZE + 8 * d;
    assert TWO_TO_64 - TWO_TO_48 == 0xFFFF * 0x10_0000_0000 * PAGE_SIZE;
    assert a / PAGE_SIZE == 0xFFFF * 0x10_0000_0000 + page;
  }

  lemma BySlots(q: nat, r: nat)
    requires r < ENTRIES
    ensures (q * 0x200 + r) / 0x200 == q && (q * 0x200 + r) % ENTRIES == r
  {
  }

  lemma ByTables(q: nat, r: nat)
    requires r < 0x4_0000
    ensures (q * 0x4_0000 + r) / 0x4_0000 == q
  {
  }

  lemma ByDirectories(q: nat, r: nat)
    requires r < 0x800_0000
    ensures (q * 0x800_0000 + r) / 0x800_0000 == q
  {
  }

  lemma PathParts(a: nat, b: nat, c: nat, d: nat)
    requires a < ENTRIES && b < ENTRIES && c < ENTRIES && d < ENTRIES
    ensures PathOf(a * 0x800_0000 + b * 0x4_0000 + c * 0x200 + d) == [a, b, c, d]
    ensures a * 0x800_0000 + b * 0x4_0000 + c * 0x200 + d < 0x10_0000_0000
  {
    BySlots(a * 0x4_0000 + b * 0x200 + c, d);
    ByTables(a * 0x200 + b, c * 0x200 + d);
    ByDirectories(a, b * 0x4_0000 + c * 0x200 + d);
    BySlots(a * 0x200 + b, c);
    BySlots(a, b);
    BySlots(0, a);
  }

  // --- the entries reached

  /** One turn through the top table changes nothing. */
  lemma Turn(s: Paging, path: Path)
    requires SelfMapped(s) && path != []
    ensures WalkFrom(s.mem, s.root, [SELF] + path) == WalkFrom(s.mem, s.root, path)
  {
    assert ([SELF] + path)[1..] == path;
  }

  /**
    For every page and every level, the entry at the recursive address is the one that a direct
    walk reaches: both are there or neither is.
  */
  lemma RecursiveCells(s: Paging, n: nat)
    requires SelfMapped(s) && n < 0x10_0000_0000
    ensures HardwareCell(s.mem, s.root, EntryAddress(PTS_BASE, n)) == WalkFrom(s.mem, s.root, PathOf(n))
    ensures HardwareCell(s.mem, s.root, EntryAddress(PDS_BASE, n / 0x200)) == WalkFrom(s.mem, s.root, PathOf(n)[..3])
    ensures HardwareCell(s.mem, s.root, EntryAddress(PDPS_BASE, n / 0x4_0000)) == WalkFrom(s.mem, s.root, PathOf(n)[..2])
    ensures HardwareCell(s.mem, s.root, EntryAddress(PML4_BASE, n / 0x800_0000)) == WalkFrom(s.mem, s.root, PathOf(n)[..1])
  {
    hide SelfMapped, WalkFrom, EntryAddress, AddressPath, ToCanonicalAddress;
    var a, b, c, d := n / 0x800_0000, n / 0x4_0000 % 0x200, n / 0x200 % 0x200, n % 0x200;
    PageParts(n);
    PtAddress(a, b, c, d);
    PdAddress(a, b, c);
    PdpAddress(a, b);
    Pml4Address(a);
    Turn(s, [a, b, c, d]);
    Turn(s, [a, b, c]);
    Turn(s, [a, b]);
    Turn(s, [a]);
    Turn(s, [SELF, a, b, c]);
    Turn(s, [SELF, a, b]);
    Turn(s, [SELF, a]);
    Turn(s, [SELF, SELF, a, b]);
    Turn(s, [SELF, SELF, a]);
    Turn(s, [SELF, SELF, SELF, a]);
    assert [SELF] + [a, b, c, d] == [SELF, a, b, c, d];
    assert [SELF] + [a, b, c] == [SELF, a, b, c] && [SELF] + [SELF, a, b, c] == [SELF, SELF, a, b, c];
    assert [SELF] + [a, b] == [SELF, a, b] && [SELF] + [SELF, a, b] == [SELF, SELF, a, b]
        && [SELF] + [SELF, SELF, a, b] == [SELF, SELF, SELF, a, b];
    assert [SELF] + [a] == [SELF, a] && [SELF] + [SELF, a] == [SELF, SELF, a]
        && [SELF] + [SELF, SELF, a] == [SELF, SELF, SELF, a] && [SELF] + [SELF, SELF, SELF, a] == [SELF, SELF, SELF, SELF, a];
    assert PathOf(n)[..3] == [a, b, c] && PathOf(n)[..2] == [a, b] && PathOf(n)[..1] == [a];
  }

  lemma PageParts(n: nat)
    requires n < 0x10_0000_0000
    ensures PathOf(n) == [n / 0x800_0000, n / 0x4_0000 % 0x200, n / 0x200 % 0x200, n % 0x200]
    ensures var a, b, c, d := n / 0x800_0000, n / 0x4_0000 % 0x200, n / 0x200 % 0x200, n % 0x200;
      && a < ENTRIES && n == a * 0x800_0000 + b * 0x4_0000 + c * 0x200 + d
      && n / 0x200 == a * 0x4_0000 + b * 0x200 + c && n / 0x4_0000 == a * 0x200 + b
  {
    Recompose(n);
  }

  // --- walks in a well-formed tree

  /** A walk in the tree goes the way of the lookup, and only reads tables above the last. */
  lemma {:induction false} WalkInTree(s: Paging, owner: map<Pfn, Path>, t: Pfn, path: Path, j: nat, mem: map<Pfn,
                                      Table>)
    requires Tree(s, owner) && t in owner && |owner[t]| + |path| <= 3 && j < ENTRIES
    requires path != [] ==> InTree(owner[t], path[0])
    requires TableAt(s.mem, t, path).Some?
    requires mem.Keys == s.mem.Keys
    requires forall x <- owner :: x in s.mem && |owner[x]| < |owner[t]| + |path| ==> mem[x] == s.mem[x]
    requires IsTable(mem, TableAt(s.mem, t, path).value)
    ensures WalkFrom(mem, t, path + [j]) == Some(Cell(TableAt(s.mem, t, path).value, j))
    decreases |path|
  {
    assert TableOk(s, owner, t);
    if path == [] {
      assert path + [j] == [j];
    } else {
      assert EntryOk(s.mem[t][path[0]], owner, owner[t] + [path[0]]);
      WalkInTree(s, owner, FrameOf(s.mem[t][path[0]]), path[1..], j, mem);
      assert (path + [j])[1..] == path[1..] + [j];
    }
  }

  /** The path stays in the tree. */
  predicate TreePath(path: Path) {
    |path| <= 3 && (path != [] ==> path[0] != SELF) && forall k :: 0 <= k < |path| ==> path[k] < ENTRIES
  }

  lemma WalkReaches(s: Paging, path: Path, j: nat)
    requires WellFormed(s) && TreePath(path) && j < ENTRIES && TableAt(s.mem, s.root, path).Some?
    ensures var x := TableAt(s.mem, s.root, path).value;
      IsTable(s.mem, x) && WalkFrom(s.mem, s.root, path + [j]) == Some(Cell(x, j))
  {
    hide PhysicalAllocator.Valid, TableAt, WalkFrom;
    var owner :| Tree(s, owner);
    assert TableOk(s, owner, s.root);
    TableOwned(s, owner, s.root, path);
    assert TableOk(s, owner, TableAt(s.mem, s.root, path).value);
    assert forall x <- owner :: x in s.mem by {
      forall x | x in owner
        ensures x in s.mem
      {
        assert TableOk(s, owner, x);
      }
    }
    WalkInTree(s, owner, s.root, path, j, s.mem);
  }

  /** The same for paths that begin with turns through the top table: what follows is the way of a shorter path. */
  lemma {:induction false} WalkAnywhere(s: Paging, path: Path, j: nat)
    requires WellFormed(s) && SelfMapped(s) && |path| <= 3 && j < ENTRIES
    requires (forall k :: 0 <= k < |path| ==> path[k] < ENTRIES) && TableAt(s.mem, s.root, path).Some?
    ensures var x := TableAt(s.mem, s.root, path).value;
      IsTable(s.mem, x) && WalkFrom(s.mem, s.root, path + [j]) == Some(Cell(x, j))
    decreases |path|
  {
    hide WellFormed, WalkFrom;
    if path == [] || path[0] != SELF {
      WalkReaches(s, path, j);
    } else {
      WalkAnywhere(s, path[1..], j);
      Turn(s, path[1..] + [j]);
      assert [SELF] + (path[1..] + [j]) == path + [j];
    }
  }
}
