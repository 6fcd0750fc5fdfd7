/**
  What the tables mean to the processor: the translation of a virtual address, read off the bits of
  the address and of the entries as the Intel 64 manual lays them out (volume 3A, section 4.5), and
  what mapping a page does to the translation of every address.
*/
module Translation {
  import opened Common
  import opened PhysicalAllocator
  import opened PageTables

  /** An entry of a table, if its bit 0 says that it is present. */
  function PresentEntry(mem: map<Pfn, Table>, t: Pfn, i: nat): Option<nat> {
    if t in mem && i < |mem[t]| && mem[t][i] % 2 == 1 then Some(mem[t][i]) else None
  }

  /** The frame in bits 51 to 12 of an entry. */
  function FrameBits(e: nat): nat {
    e / 0x1000 % 0x100_0000_0000
  }

  /** The next table down; an entry with bit 7 set would map a large page, which the kernel never does. */
  function Down(mem: map<Pfn, Table>, t: Option<Pfn>, i: nat): Option<Pfn> {
    match t
    case None => None
    case Some(table) =>
      match PresentEntry(mem, table, i)
      case None => None
      case Some(e) => if e / 0x80 % 2 == 1 then None else Some(FrameBits(e))
  }

  /** The physical address of a virtual one: bits 47 to 39, 38 to 30, 29 to 21 and 20 to 12 choose the entries. */
  function Translate(mem: map<Pfn, Table>, root: Pfn, v: nat): Option<nat> {
    var pdp := Down(mem, Some(root), v / 0x80_0000_0000 % 0x200);
    var pd := Down(mem, pdp, v / 0x4000_0000 % 0x200);
    match Down(mem, pd, v / 0x20_0000 % 0x200)
    case None => None
    case Some(pt) =>
      match PresentEntry(mem, pt, v / 0x1000 % 0x200)
      case None => None
      case Some(e) => Some(FrameBits(e) * 0x1000 + v % 0x1000)
  }

  /** An address outside the 512 gigabytes in which the tables are seen. */
  predicate OutsideTables(v: nat) {
    v / 0x80_0000_0000 % 0x200 != 510
  }

  /** What an entry of the last level makes of an address. */
  function ThroughEntry(e: nat, v: nat): Option<nat> {
    if e % 2 == 1 then Some(FrameBits(e) * 0x1000 + v % 0x1000) else None
  }

  /** Cutting a page number to 36 bits keeps its four indices. */
  lemma CutIndices(n: nat)
    ensures n % 0x10_0000_0000 / 0x800_0000 % 0x200 == n / 0x800_0000 % 0x200
    ensures n % 0x10_0000_0000 / 0x4_0000 % 0x200 == n / 0x4_0000 % 0x200
    ensures n % 0x10_0000_0000 / 0x200 % 0x200 == n / 0x200 % 0x200
    ensures n % 0x10_0000_0000 % 0x200 == n % 0x200
  {
    var q, m := n / 0x10_0000_0000, n % 0x10_0000_0000;
    assert n == q * 0x10_0000_0000 + m;
    Shifted(m, 0x800_0000, q);
    Shifted(m, 0x4_0000, q * 0x200);
    Shifted(m, 0x200, q * 0x4_0000);
    Shifted(m, 1, q * 0x800_0000);
  }

  /** Adding a multiple of 512 units leaves the index among 512 units. */
  lemma Shifted(m: nat, unit: nat, q: nat)
    requires unit > 0
    ensures (m + q * 0x200 * unit) / unit % 0x200 == m / unit % 0x200
  {
    Quotient(m, unit, q * 0x200);
    assert (m / unit + q * 0x200) % 0x200 == m / unit % 0x200;
  }

  lemma Quotient(m: nat, unit: nat, k: nat)
    requires unit > 0
    ensures (m + k * unit) / unit == m / unit + k
  {
    SameQuotient((m + k * unit) / unit, m / unit + k, unit, (m + k * unit) % unit, m % unit);
  }

  lemma SameQuotient(a: int, b: int, unit: nat, r: nat, q: nat)
    requires a * unit + r == b * unit + q && r < unit && q < unit
    ensures a == b
  {
    Whole(a - b, unit);
    Whole(b - a, unit);
    assert (a - b) * unit == a * unit - b * unit && (b - a) * unit == b * unit - a * unit;
  }

  lemma Whole(k: int, unit: nat)
    ensures k >= 1 ==> k * unit >= unit
  {
    if k >= 1 {
      assert k * unit == (k - 1) * unit + unit && (k - 1) * unit >= 0;
    }
  }

  lemma AddressIndices(v: nat)
    ensures PathOf(PageOf(v)) == [v / 0x80_0000_0000 % 0x200, v / 0x4000_0000 % 0x200, v / 0x20_0000 % 0x200, v / 0x1000 % 0x200]
  {
    var n := v / 0x1000;
    CutIndices(n);
    assert v / 0x20_0000 == n / 0x200;
    assert v / 0x4000_0000 == n / 0x4_0000;
    assert v / 0x80_0000_0000 == n / 0x800_0000;
  }

  /** One level of the tree is one step of the processor. */
  lemma LevelDown(s: Paging, owner: map<Pfn, Path>, t: Pfn, i: nat)
    requires Tree(s, owner) && t in owner && |owner[t]| < 3 && i < ENTRIES && InTree(owner[t], i)
    ensures IsTable(s.mem, t)
    ensures Down(s.mem, Some(t), i) == if s.mem[t][i] == 0 then None else Some(FrameOf(s.mem[t][i]))
    ensures s.mem[t][i] != 0 ==> FrameOf(s.mem[t][i]) in owner && owner[FrameOf(s.mem[t][i])] == owner[t] + [i]
  {
    hide PhysicalAllocator.Valid;
    assert TableOk(s, owner, t);
    assert EntryOk(s.mem[t][i], owner, owner[t] + [i]);
  }

  lemma LookupStep(mem: map<Pfn, Table>, t: Pfn, path: Path)
    requires IsTable(mem, t) && |path| > 1 && path[0] < ENTRIES
    ensures LookupFrom(mem, t, path) == if mem[t][path[0]] == 0 then 0 else LookupFrom(mem, FrameOf(mem[t][path[0]]), path[1..])
  {
  }

  lemma LookupEnd(mem: map<Pfn, Table>, t: Pfn, d: nat)
    requires IsTable(mem, t) && d < ENTRIES
    ensures LookupFrom(mem, t, [d]) == mem[t][d]
  {
  }

  /** In a well-formed space the processor finds what the lookup finds. */
  lemma TranslateLookup(s: Paging, v: nat)
    requires WellFormed(s) && OutsideTables(v)
    ensures Translate(s.mem, s.root, v) == ThroughEntry(Lookup(s, PageOf(v)), v)
  {
    hide PhysicalAllocator.Valid, Tree, Down, PathOf, PageOf, LookupFrom, FrameOf;
    var owner := TreeOf(s);
    AddressIndices(v);
    var a, b, c, d := v / 0x80_0000_0000 % 0x200, v / 0x4000_0000 % 0x200, v / 0x20_0000 % 0x200, v / 0x1000 % 0x200;
    assert [a, b, c, d][1..] == [b, c, d] && [b, c, d][1..] == [c, d] && [c, d][1..] == [d];
    NothingDown(s.mem, b);
    NothingDown(s.mem, c);
    LevelDown(s, owner, s.root, a);
    LookupStep(s.mem, s.root, [a, b, c, d]);
    if s.mem[s.root][a] != 0 {
      var pdp := FrameOf(s.mem[s.root][a]);
      LevelDown(s, owner, pdp, b);
      LookupStep(s.mem, pdp, [b, c, d]);
      if s.mem[pdp][b] != 0 {
        var pd := FrameOf(s.mem[pdp][b]);
        LevelDown(s, owner, pd, c);
        LookupStep(s.mem, pd, [c, d]);
        if s.mem[pd][c] != 0 {
          LastTable(s, owner, FrameOf(s.mem[pd][c]));
          LookupEnd(s.mem, FrameOf(s.mem[pd][c]), d);
        }
      }
    }
  }

  lemma NothingDown(mem: map<Pfn, Table>, i: nat)
    ensures Down(mem, None, i) == None
  {
  }

  lemma TreeOf(s: Paging) returns (owner: map<Pfn, Path>)
    requires WellFormed(s)
    ensures Tree(s, owner) && s.root in owner && owner[s.root] == []
  {
    owner :| Tree(s, owner);
  }

  lemma LastTable(s: Paging, owner: map<Pfn, Path>, t: Pfn)
    requires Tree(s, owner) && t in owner
    ensures IsTable(s.mem, t)
  {
    assert TableOk(s, owner, t);
  }

  /**
    A page mapped as present is translated to the frame it was mapped to, byte by byte; every other
    address is translated as before.
  */
  lemma MappingTranslates(s: Paging, v: nat, p: nat, f: nat, w: nat)
    requires WellFormed(s) && f < 0x1000 && OutsideTables(v) && OutsideTables(w) && p < 0x10_0000_0000_0000
    ensures PhysicalAllocator.Valid(s.frames)
    ensures var (r, ok) := MapPage(s, v, p, f);
      Translate(r.mem, r.root, w) ==
        if !ok || w / 0x1000 % 0x10_0000_0000 != v / 0x1000 % 0x10_0000_0000 then Translate(s.mem, s.root, w)
        else if f % 2 == 1 then Some(p / 0x1000 * 0x1000 + w % 0x1000)
        else None
  {
    hide PhysicalAllocator.Valid, WellFormed, Lookup, MapPage, Translate, PathOf;
    AddressIndices(v);
    AddressIndices(w);
    MapPageLookup(s, v, p, f, PageOf(w));
    TranslateLookup(s, w);
    TranslateLookup(MapPage(s, v, p, f).0, w);
    EntryBits(p, f);
  }

  lemma EntryBits(p: nat, f: nat)
    requires f < 0x1000 && p < 0x10_0000_0000_0000
    ensures EntryFor(p, f) % 2 == f % 2 && FrameBits(EntryFor(p, f)) == p / 0x1000
  {
  }
}
