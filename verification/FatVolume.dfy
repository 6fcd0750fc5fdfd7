/**
  A FAT volume in place: the table and the data sectors on the disk, and the one-sector cache
  through which chains are followed.  Writing an entry goes to the disk past the cache, so that the
  cache can be stale; the contracts say which entries must not be.
*/
module FatVolume {
  import opened FatChains

  type Byte = bv8
  type Sector = seq<Byte>

  function EmptySector(): (s: Sector)
    ensures |s| == SECTOR_SIZE && forall i :: 0 <= i < SECTOR_SIZE ==> s[i] == 0
  {
    seq(SECTOR_SIZE, i => 0 as Byte)
  }

  /** Where a sector of a cluster lies among the data sectors. */
  function SectorIndex(g: Geometry, c: Cluster, j: nat): nat
    requires g.IsCluster(c)
  {
    (c - 2) * g.sectorsPerCluster + j
  }

  lemma ClusterStart(g: Geometry, c: Cluster)
    requires g.IsCluster(c)
    ensures g.sectorsPerCluster * c - 2 * g.sectorsPerCluster == (c - 2) * g.sectorsPerCluster >= 0
  {
  }

  /**
    The data sectors are those of cluster two from its first to its last, then those of cluster
    three, and so on.
  */
  lemma SectorLayout(g: Geometry, c: Cluster, j: nat)
    requires g.Valid() && g.IsCluster(c) && j < g.sectorsPerCluster
    ensures c == 2 && j == 0 ==> SectorIndex(g, c, j) == 0
    ensures j + 1 < g.sectorsPerCluster ==> SectorIndex(g, c, j + 1) == SectorIndex(g, c, j) + 1
    ensures j + 1 == g.sectorsPerCluster && g.IsCluster(c + 1) ==> SectorIndex(g, c + 1, 0) == SectorIndex(g, c, j) + 1
  {
    Multiples(c - 2, c - 1, g.sectorsPerCluster);
  }

  lemma Multiples(a: nat, b: nat, s: nat)
    requires a <= b
    ensures a * s <= b * s && (a + 1) * s == a * s + s
  {
    assert b * s == a * s + (b - a) * s;
  }

  lemma SectorIndexBound(g: Geometry, c: Cluster, j: nat)
    requires g.IsCluster(c) && j < g.sectorsPerCluster
    ensures SectorIndex(g, c, j) < g.clusterCount * g.sectorsPerCluster
  {
    Multiples(c - 1, g.clusterCount, g.sectorsPerCluster);
    Multiples(c - 2, g.clusterCount, g.sectorsPerCluster);
  }

  lemma LaterSector(g: Geometry, c: Cluster, j: nat, c': Cluster, j': nat)
    requires g.IsCluster(c) && j < g.sectorsPerCluster && g.IsCluster(c') && j' < g.sectorsPerCluster && c < c'
    ensures SectorIndex(g, c, j) < SectorIndex(g, c', j')
  {
    Multiples(c - 1, c' - 2, g.sectorsPerCluster);
    Multiples(c - 2, c' - 2, g.sectorsPerCluster);
  }

  /** Different sectors of clusters are different data sectors. */
  lemma SectorIndexInjective(g: Geometry, c: Cluster, j: nat, c': Cluster, j': nat)
    requires g.IsCluster(c) && j < g.sectorsPerCluster && g.IsCluster(c') && j' < g.sectorsPerCluster
    ensures SectorIndex(g, c, j) == SectorIndex(g, c', j') <==> c == c' && j == j'
  {
    hide SectorIndex;
    if c < c' {
      LaterSector(g, c, j, c', j');
    } else if c' < c {
      LaterSector(g, c', j', c, j);
    } else {
      SameCluster(g, c, j, j');
    }
  }

  lemma SameCluster(g: Geometry, c: Cluster, j: nat, j': nat)
    requires g.IsCluster(c)
    ensures SectorIndex(g, c, j) == SectorIndex(g, c, j') <==> j == j'
  {
  }

  // --- entries and sectors of the table

  /** The FAT sector of an entry, its place there, and where a sector starts in the table. */
  function SectorOf(g: Geometry, n: nat): nat
    requires g.perSector > 0
  {
    n / g.perSector
  }

  function PlaceOf(g: Geometry, n: nat): (k: nat)
    requires g.perSector > 0
    ensures k < g.perSector
  {
    n % g.perSector
  }

  function StartOf(g: Geometry, sector: nat): nat {
    sector * g.perSector
  }

  lemma InSector(g: Geometry, n: nat)
    requires g.perSector > 0
    ensures StartOf(g, SectorOf(g, n)) + PlaceOf(g, n) == n
  {
  }

  lemma SectorInTable(g: Geometry, n: nat, sectors: nat)
    requires g.perSector > 0 && n < StartOf(g, sectors)
    ensures StartOf(g, SectorOf(g, n)) + g.perSector <= StartOf(g, sectors)
  {
    InSector(g, n);
    var k := SectorOf(g, n);
    if k >= sectors {
      Multiples(sectors, k, g.perSector);
    } else {
      Multiples(k + 1, sectors, g.perSector);
      Multiples(k, sectors, g.perSector);
    }
  }

  lemma SectorEntry(g: Geometry, sector: nat, i: nat)
    requires i < g.perSector
    ensures SectorOf(g, StartOf(g, sector) + i) == sector && PlaceOf(g, StartOf(g, sector) + i) == i
  {
    var p, m := g.perSector, sector * g.perSector + i;
    var a := m / p;
    assert m == a * p + m % p;
    if a < sector {
      Multiples(a + 1, sector, p);
      Multiples(a, sector, p);
    } else if a > sector {
      Multiples(sector + 1, a, p);
      Multiples(sector, a, p);
    }
  }

  class Volume {
    const g: Geometry
    const fat: array<nat>
    const data: array<Sector>
    ghost const fatSectors: nat
    var cache: seq<nat>
    var cached: int

    constructor (g: Geometry, fat: array<nat>, data: array<Sector>, ghost fatSectors: nat)
      ensures this.g == g && this.fat == fat && this.data == data && this.fatSectors == fatSectors
      ensures cached == -1 && cache == []
    {
      this.g, this.fat, this.data, this.fatSectors := g, fat, data, fatSectors;
      cache, cached := [], -1;
    }

    /** The shape of the volume; no sector is cached while the number is minus one. */
    ghost predicate Ok()
      reads this, data
    {
      && g.Valid() && fat.Length == StartOf(g, fatSectors) && g.clusterCount + 2 <= fat.Length
      && data.Length == g.clusterCount * g.sectorsPerCluster
      && (forall k :: 0 <= k < data.Length ==> |data[k]| == SECTOR_SIZE)
      && (cached != -1 ==> |cache| == g.perSector)
    }

    /** What following a chain sees at an entry: the cached sector hides the disk. */
    function Seen(n: nat): nat
      requires n < fat.Length && g.perSector > 0 && (cached != -1 ==> |cache| == g.perSector)
      reads this, fat
    {
      if cached == SectorOf(g, n) then cache[PlaceOf(g, n)] else fat[n]
    }

    /** The cache does not lie about an entry. */
    predicate Agrees(n: nat)
      requires g.perSector > 0 && (cached != -1 ==> |cache| == g.perSector)
      reads this, fat
    {
      n < fat.Length ==> Seen(n) == fat[n]
    }

    /** The cache does not lie at all. */
    ghost predicate Coherent()
      requires g.perSector > 0 && (cached != -1 ==> |cache| == g.perSector)
      reads this, fat
    {
      forall n :: 0 <= n < fat.Length ==> Agrees(n)
    }

    predicate IsEof(c: nat) {
      c >= g.eof
    }
  }

  /** Reads an entry through a one-sector buffer, filling it first if it holds another sector. */
  method Fat16Or32ReadFatEntry(v: Volume, n: nat, buffer: seq<nat>, current: int) returns (e: nat, buffer': seq<nat>,
                               current': int)
    requires v.Ok() && n < v.fat.Length && (current != -1 ==> |buffer| == v.g.perSector)
    ensures current' == SectorOf(v.g, n) && |buffer'| == v.g.perSector
    ensures e == if current == SectorOf(v.g, n) then buffer[PlaceOf(v.g, n)] else v.fat[n]
    ensures current == current' ==> buffer' == buffer
    ensures current != current' ==>
      forall m :: 0 <= m < v.fat.Length && SectorOf(v.g, m) == current' ==> buffer'[PlaceOf(v.g, m)] == v.fat[m]
  {
    hide SectorOf, PlaceOf, StartOf;
    buffer', current' := buffer, current;
    if current' != SectorOf(v.g, n) {
      var start := StartOf(v.g, SectorOf(v.g, n));
      SectorInTable(v.g, n, v.fatSectors);
      buffer' := v.fat[start..start + v.g.perSector];
      current' := SectorOf(v.g, n);
      forall m | 0 <= m < v.fat.Length && SectorOf(v.g, m) == current'
        ensures buffer'[PlaceOf(v.g, m)] == v.fat[m]
      {
        InSector(v.g, m);
      }
    }
    e := buffer'[PlaceOf(v.g, n)];
  }

  /** The next cluster of a chain, through the cache of the volume. */
  method FatFollowClusterChain(v: Volume, n: nat) returns (e: nat)
    requires v.Ok() && n < v.fat.Length
    modifies v`cache, v`cached
    ensures v.Ok() && e == old(v.Seen(n))
    ensures v.cached == SectorOf(v.g, n)
    ensures v.cached == old(v.cached) ==> v.cache == old(v.cache)
    ensures v.cached != old(v.cached) ==> v.Coherent()
    ensures forall m :: 0 <= m < v.fat.Length && old(v.Agrees(m)) ==> v.Agrees(m)
  {
    hide SectorOf, PlaceOf, StartOf;
    var buffer, current;
    e, buffer, current := Fat16Or32ReadFatEntry(v, n, v.cache, v.cached);
    v.cache, v.cached := buffer, current;
  }

  /** Changes an entry on the disk, leaving the cache as it is. */
  method FatWriteFatEntry(v: Volume, n: nat, value: nat)
    requires v.Ok() && n < v.fat.Length
    modifies v.fat
    ensures v.Ok() && v.fat[..] == old(v.fat[..])[n := value]
    ensures forall m :: 0 <= m < v.fat.Length && m != n && old(v.Agrees(m)) ==> v.Agrees(m)
  {
    hide SectorOf, PlaceOf, StartOf;
    ghost var before := v.fat[..];
    var e, buffer, current := Fat16Or32ReadFatEntry(v, n, [], -1);
    var start, place := StartOf(v.g, SectorOf(v.g, n)), PlaceOf(v.g, n);
    SectorInTable(v.g, n, v.fatSectors);
    InSector(v.g, n);
    WholeSector(v, SectorOf(v.g, n), buffer);
    buffer := buffer[place := value];
    for i := 0 to v.g.perSector
      invariant forall m :: 0 <= m < |before| ==> v.fat[m] == if m == n && place < i then value else before[m]
    {
      v.fat[start + i] := buffer[i];
    }
    assert v.fat[..] == before[n := value];
  }

  lemma WholeSector(v: Volume, sector: nat, buffer: seq<nat>)
    requires v.Ok() && StartOf(v.g, sector) + v.g.perSector <= v.fat.Length && |buffer| == v.g.perSector
    requires forall m :: 0 <= m < v.fat.Length && SectorOf(v.g, m) == sector ==> buffer[PlaceOf(v.g, m)] == v.fat[m]
    ensures forall i :: 0 <= i < v.g.perSector ==> buffer[i] == v.fat[StartOf(v.g, sector) + i]
  {
    hide SectorOf, PlaceOf, StartOf;
    forall i | 0 <= i < v.g.perSector
      ensures buffer[i] == v.fat[StartOf(v.g, sector) + i]
    {
      SectorEntry(v.g, sector, i);
    }
  }

  /** The first free cluster, counting entry one as well, or all ones. */
  method FatFindFreeCluster(v: Volume) returns (c: nat)
    requires v.Ok()
    ensures var f := FirstFree(v.fat[..], 1, v.g.clusterCount + 2);
      c == if f < v.g.clusterCount + 2 then f else 0xFFFF_FFFF
  {
    hide SectorOf, PlaceOf, StartOf;
    var buffer: seq<nat>, current := [], -1;
    c := 1;
    while c < v.g.clusterCount + 2
      invariant 1 <= c <= v.g.clusterCount + 2
      invariant FirstFree(v.fat[..], c, v.g.clusterCount + 2) == FirstFree(v.fat[..], 1, v.g.clusterCount + 2)
      invariant current != -1 ==> |buffer| == v.g.perSector
      invariant forall m :: 0 <= m < v.fat.Length && SectorOf(v.g, m) == current ==> buffer[PlaceOf(v.g, m)] == v.fat[m]
    {
      var e;
      e, buffer, current := Fat16Or32ReadFatEntry(v, c, buffer, current);
      if e == 0 {
        return;
      }
      c := c + 1;
    }
    c := 0xFFFF_FFFF;
  }

  /** The chain of a file, as the disk and the cache both show it. */
  ghost predicate Followable(v: Volume, start: Cluster, chain: seq<Cluster>)
    requires v.Ok()
    reads v, v.data, v.fat
  {
    IsChain(v.g, v.fat[..], chain) && chain[0] == start && forall c <- chain :: v.Agrees(c)
  }

  /** The cluster number `k` of a chain, or the end mark behind it. */
  ghost function At(entries: seq<nat>, chain: seq<Cluster>, k: nat): nat
    requires chain != [] && chain[|chain| - 1] < |entries|
  {
    if k < |chain| then chain[k] else entries[chain[|chain| - 1]]
  }

  /**
    The chain has grown behind the back of the cache, which still shows the sector of its old last
    cluster as it was.
  */
  ghost predicate GrownUnseen(v: Volume, start: Cluster, chain: seq<Cluster>, added: seq<Cluster>)
    requires v.Ok()
    reads v, v.data, v.fat
  {
    && chain != [] && added != [] && IsChain(v.g, v.fat[..], chain + added) && chain[0] == start
    && chain[|chain| - 1] < v.fat.Length && v.cached == SectorOf(v.g, chain[|chain| - 1])
    && v.Seen(chain[|chain| - 1]) >= v.g.eof
    && forall i :: 0 <= i < |chain| - 1 && chain[i] < v.fat.Length ==> v.Seen(chain[i]) == chain[i + 1]
  }

  /** The table has the entries of all these clusters in the sector of the last one. */
  predicate InOneSector(g: Geometry, chain: seq<Cluster>)
    requires g.perSector > 0 && chain != []
  {
    forall i :: 0 <= i < |chain| ==> SectorOf(g, chain[i]) == SectorOf(g, chain[|chain| - 1])
  }

  /**
    The cluster number `endIndex` of a chain, or its end mark.  With a chain that has grown behind
    the back of the cache the old end is taken for the end, unless the way there leads through
    another sector of the table, so that the cache is filled anew.
  */
  method FatFollowClusterChainToAPoint(v: Volume, start: Cluster, endIndex: nat, ghost chain: seq<Cluster>,
                                       ghost added: seq<Cluster> := []) returns (c: nat)
    requires v.Ok() && (Followable(v, start, chain) || GrownUnseen(v, start, chain, added))
    modifies v`cache, v`cached
    ensures v.Ok()
    ensures old(Followable(v, start, chain)) ==> c == At(v.fat[..], chain, endIndex)
    ensures old(GrownUnseen(v, start, chain, added)) ==>
      if endIndex < |chain| then c == chain[endIndex]
      else if InOneSector(v.g, chain) then c >= v.g.eof
      else c == At(v.fat[..], chain + added, endIndex)
    ensures forall m :: 0 <= m < v.fat.Length && old(v.Agrees(m)) ==> v.Agrees(m)
  {
    hide SectorOf, PlaceOf, StartOf;
    ghost var good, unseen := Followable(v, start, chain), GrownUnseen(v, start, chain, added);
    ghost var loaded, sector := false, v.cached;
    c := start;
    var scanned := 0;
    while !v.IsEof(c) && scanned < endIndex
      invariant v.Ok() && scanned <= endIndex
      invariant good ==> scanned <= |chain| && c == At(v.fat[..], chain, scanned)
      invariant unseen && !loaded ==>
        && v.cached == sector && v.cache == old(v.cache) && scanned <= |chain|
        && (if scanned < |chain| then c == chain[scanned] else c >= v.g.eof)
        && forall i :: 0 <= i < scanned ==> SectorOf(v.g, chain[i]) == sector
      invariant unseen && loaded ==>
        && v.Coherent() && scanned <= |chain + added| && c == At(v.fat[..], chain + added, scanned)
        && exists i :: 0 <= i < |chain| && SectorOf(v.g, chain[i]) != sector
      invariant forall m :: 0 <= m < v.fat.Length && old(v.Agrees(m)) ==> v.Agrees(m)
    {
      if good {
        assert scanned < |chain| && chain[scanned] in chain;
      } else {
        GrownStep(v.g, v.fat[..], chain, added, scanned);
        if !loaded {
          assert v.Seen(c) == old(v.Seen(chain[scanned]));
        }
        assert loaded || v.cached != SectorOf(v.g, c) ==> v.Agrees(c);
      }
      ghost var before := v.cached;
      c := FatFollowClusterChain(v, c);
      loaded := loaded || v.cached != before;
      scanned := scanned + 1;
    }
    if unseen {
      GrownStep(v.g, v.fat[..], chain, added, scanned);
    }
  }

  /** One more cluster of a chain and what was added to it. */
  lemma GrownStep(g: Geometry, entries: seq<nat>, chain: seq<Cluster>, added: seq<Cluster>, k: nat)
    requires IsChain(g, entries, chain + added) && chain != []
    ensures (chain + added)[|chain + added| - 1] < |entries|
    ensures k < |chain| ==> (chain + added)[k] == chain[k]
    ensures k < |chain + added| ==>
      && (chain + added)[k] < |entries| && (chain + added)[k] < g.eof
      && entries[(chain + added)[k]] == At(entries, chain + added, k + 1)
    ensures k >= |chain + added| ==> At(entries, chain + added, k) >= g.eof
  {
    if k < |chain + added| {
      NextOnChain(g, entries, chain + added, k);
      assert g.IsCluster((chain + added)[k]);
    }
    EndIsEof(g, entries, chain + added, k);
  }

  // --- truncation

  /**
    Cuts a chain to its first `removeFrom` clusters.  Every entry is read through the cache before
    it is overwritten on the disk, so that it does not matter that the cache gets stale.
  */
  method FatDecreaseClusterChainLengthTo(v: Volume, start: Cluster, removeFrom: nat, ghost chain: seq<Cluster>)
    requires v.Ok() && Followable(v, start, chain) && removeFrom <= |chain|
    modifies v`cache, v`cached, v.fat
    ensures v.Ok() && IsTruncated(v.g, old(v.fat[..]), v.fat[..], chain, removeFrom)
  {
    hide IsChain, IsCut, SectorOf, PlaceOf, StartOf;
    ghost var before := v.fat[..];
    CutBegins(v.g, before, chain, removeFrom);
    FollowFrom(v, start, chain, removeFrom);
    var end := FatFollowClusterChainToAPoint(v, start, if removeFrom != 0 then removeFrom - 1 else 0, chain);
    var next := end;
    if removeFrom != 0 {
      next := FatFollowClusterChain(v, end);
      FatWriteFatEntry(v, end, v.g.eof);
    }
    ghost var i := removeFrom;
    while !v.IsEof(next)
      invariant v.Ok() && removeFrom <= i <= |chain| && next == At(before, chain, i)
      invariant forall j :: i <= j < |chain| ==> v.Agrees(chain[j])
      invariant IsCut(v.g, before, v.fat[..], chain, removeFrom, i) && v.fat.Length == |before|
      decreases |chain| - i
    {
      var current := next;
      EndIsEof(v.g, before, chain, i);
      CutUntouched(v.g, before, v.fat[..], chain, removeFrom, i, i);
      next := FatFollowClusterChain(v, current);
      NextOnChain(v.g, before, chain, i);
      CutStep(v.g, before, v.fat[..], chain, removeFrom, i);
      FatWriteFatEntry(v, current, 0);
      i := i + 1;
    }
    EndIsEof(v.g, before, chain, i);
  }

  /** Behind the chain is the mark, and on the chain there is none. */
  lemma EndIsEof(g: Geometry, entries: seq<nat>, chain: seq<Cluster>, k: nat)
    requires IsChain(g, entries, chain)
    ensures chain[|chain| - 1] < |entries| && (At(entries, chain, k) >= g.eof <==> k >= |chain|)
    ensures k < |chain| ==> chain[k] < |entries|
  {
    assert k < |chain| ==> g.IsCluster(chain[k]);
  }

  /** The entry of a cluster of the chain is the next one, and the clusters behind it are others. */
  lemma NextOnChain(g: Geometry, entries: seq<nat>, chain: seq<Cluster>, k: nat)
    requires IsChain(g, entries, chain) && k < |chain|
    ensures chain[|chain| - 1] < |entries| && chain[k] < |entries| && entries[chain[k]] == At(entries, chain, k + 1)
    ensures forall j :: k < j < |chain| ==> chain[j] != chain[k]
  {
    forall j | k < j < |chain|
      ensures chain[j] != chain[k]
    {
      ChainDistinct(g, entries, chain, k, j);
    }
  }

  /** What a truncation reads before its first write. */
  lemma FollowFrom(v: Volume, start: Cluster, chain: seq<Cluster>, k: nat)
    requires v.Ok() && Followable(v, start, chain) && k <= |chain|
    ensures chain != [] && chain[|chain| - 1] < v.fat.Length
    ensures forall j :: 0 <= j < |chain| ==> v.Agrees(chain[j]) && chain[j] < v.fat.Length
    ensures k > 0 ==> v.fat[chain[k - 1]] == At(v.fat[..], chain, k) && forall j :: k <= j < |chain| ==> chain[j] != chain[k - 1]
  {
    assert forall j :: 0 <= j < |chain| ==> chain[j] in chain && v.g.IsCluster(chain[j]);
    if k > 0 {
      NextOnChain(v.g, v.fat[..], chain, k - 1);
    }
  }

  // --- growth

  /**
    The cache still shows the first cluster of the file as free, while the reserved entry zero is
    seen as it is.
  */
  ghost predicate StaleStart(v: Volume, start: Cluster)
    requires v.Ok()
    reads v, v.data, v.fat
  {
    && 0 < start < v.fat.Length && !v.IsEof(start) && v.Seen(start) == 0
    && v.Agrees(0) && v.fat[0] >= v.g.eof
  }

  /** The last cluster of a chain; misled by a stale cache, the reserved entry zero. */
  method FatFollowClusterChainToEnd(v: Volume, start: Cluster, ghost chain: seq<Cluster>) returns (last: Cluster)
    requires v.Ok() && (Followable(v, start, chain) || StaleStart(v, start))
    modifies v`cache, v`cached
    ensures v.Ok()
    ensures old(Followable(v, start, chain)) ==> last == chain[|chain| - 1] && v.cached == SectorOf(v.g, last)
    ensures old(v.Coherent()) ==> v.Coherent()
    ensures old(StaleStart(v, start)) ==> last == 0
  {
    hide SectorOf, PlaceOf, StartOf;
    ghost var good := Followable(v, start, chain);
    ghost var i := 0;
    if good {
      FollowFrom(v, start, chain, 0);
      ChainNotFree(v.g, v.fat[..], chain, 0);
    }
    var c := start;
    last := 0;
    while !v.IsEof(c)
      invariant v.Ok()
      invariant good ==> i <= |chain| && c == At(v.fat[..], chain, i)
      invariant good && i > 0 ==> last == chain[i - 1] && v.cached == SectorOf(v.g, last)
      invariant old(v.Coherent()) ==> v.Coherent()
      invariant good ==> forall j :: 0 <= j < |chain| ==> v.Agrees(chain[j])
      invariant !good ==> v.Agrees(0) && ((i == 0 && c == start && v.Seen(start) == 0) || (i == 1 && c == 0) || (i == 2 && v.IsEof(c) && last == 0))
      decreases if good then |chain| - i else 2 - i
    {
      last := c;
      if good {
        EndIsEof(v.g, v.fat[..], chain, i);
        NextOnChain(v.g, v.fat[..], chain, i);
      }
      c := FatFollowClusterChain(v, c);
      i := i + 1;
    }
    if good {
      EndIsEof(v.g, v.fat[..], chain, i);
    }
  }

  method FatWriteSectorOfCluster(v: Volume, c: Cluster, j: nat, sector: Sector)
    requires v.Ok() && v.g.IsCluster(c) && j < v.g.sectorsPerCluster && |sector| == SECTOR_SIZE
    modifies v.data
    ensures v.Ok() && (c - 2) * v.g.sectorsPerCluster + j < v.data.Length
    ensures v.data[..] == old(v.data[..])[(c - 2) * v.g.sectorsPerCluster + j := sector]
    ensures SectorIndex(v.g, c, j) == (c - 2) * v.g.sectorsPerCluster + j
  {
    hide SectorOf, PlaceOf, StartOf;
    SectorIndexBound(v.g, c, j);
    ClusterStart(v.g, c);
    var firstSectorOfCluster := v.g.sectorsPerCluster * c - 2 * v.g.sectorsPerCluster;
    v.data[firstSectorOfCluster + j] := sector;
  }

  /** The sectors of the listed clusters are empty, and those of all others as they were. */
  ghost predicate Cleared(g: Geometry, before: seq<Sector>, after: seq<Sector>, clusters: seq<Cluster>) {
    && |after| == |before|
    && forall c, j :: g.IsCluster(c) && 0 <= j < g.sectorsPerCluster && SectorIndex(g, c, j) < |before| ==>
      after[SectorIndex(g, c, j)] == if c in clusters then EmptySector() else before[SectorIndex(g, c, j)]
  }

  method ClearCluster(v: Volume, c: Cluster, ghost before: seq<Sector>, ghost clusters: seq<Cluster>)
    requires v.Ok() && v.g.IsCluster(c) && Cleared(v.g, before, v.data[..], clusters)
    modifies v.data
    ensures v.Ok() && Cleared(v.g, before, v.data[..], clusters + [c])
  {
    hide SectorOf, PlaceOf, StartOf, SectorIndex;
    for j := 0 to v.g.sectorsPerCluster
      invariant v.Ok() && v.data.Length == |before|
      invariant forall x, y :: v.g.IsCluster(x) && 0 <= y < v.g.sectorsPerCluster && SectorIndex(v.g, x, y) < |before| ==>
        v.data[SectorIndex(v.g, x, y)] ==
          if x in clusters || (x == c && y < j) then EmptySector() else before[SectorIndex(v.g, x, y)]
    {
      forall x, y | v.g.IsCluster(x) && 0 <= y < v.g.sectorsPerCluster
        ensures SectorIndex(v.g, x, y) == SectorIndex(v.g, c, j) <==> x == c && y == j
      {
        SectorIndexInjective(v.g, x, y, c, j);
      }
      FatWriteSectorOfCluster(v, c, j, EmptySector());
    }
  }

  /** The cache shows the table's sector of the last cluster of a chain, as it was before. */
  ghost predicate ShowsOld(g: Geometry, cache: seq<nat>, cached: int, before: seq<nat>, chain: seq<Cluster>) {
    && g.perSector > 0 && |cache| == g.perSector && chain != [] && cached == SectorOf(g, chain[|chain| - 1])
    && forall m :: 0 <= m < |before| && SectorOf(g, m) == cached ==> cache[PlaceOf(g, m)] == before[m]
  }

  lemma CoherentShows(v: Volume, chain: seq<Cluster>)
    requires v.Ok() && v.Coherent() && chain != [] && v.cached == SectorOf(v.g, chain[|chain| - 1])
    ensures ShowsOld(v.g, v.cache, v.cached, v.fat[..], chain)
  {
    hide SectorOf, PlaceOf, StartOf;
    forall m | 0 <= m < v.fat.Length && SectorOf(v.g, m) == v.cached
      ensures v.cache[PlaceOf(v.g, m)] == v.fat[m]
    {
      assert v.Agrees(m);
    }
  }

  /** The next free cluster, when there is one. */
  lemma NextFree(entries: seq<nat>, limit: nat)
    requires 2 <= limit <= |entries| && entries[1] != 0 && FreeCount(entries, 2, limit) > 0
    ensures var c := FirstFree(entries, 1, limit); 2 <= c < limit && entries[c] == 0
  {
    NoneFree(entries, 2, limit);
  }

  /** Takes `c` for the chain that ends at `last`. */
  lemma LinkTakesOne(entries: seq<nat>, limit: nat, c: Cluster, last: Cluster, eof: nat)
    requires 2 <= c < limit <= |entries| && entries[c] == 0 && last < |entries| && entries[last] != 0 && eof != 0
    ensures FreeCount(entries[c := eof][last := c], 2, limit) == FreeCount(entries, 2, limit) - 1
  {
    FreeCountTaken(entries, entries[c := eof][last := c], 2, limit, c);
  }

  /**
    Appends free clusters to a chain and clears their sectors.  With a stale start the clusters are
    linked to the reserved entry zero instead, which is overwritten, and the file stays as it was.
  */
  method FatIncreaseClusterChainLengthBy(v: Volume, start: Cluster, n: nat,
                                         ghost chain: seq<Cluster>) returns (ghost added: seq<Cluster>)
    requires v.Ok() && IsChain(v.g, v.fat[..], chain) && chain[0] == start
    requires Followable(v, start, chain) || (chain == [start] && StaleStart(v, start))
    requires v.fat[1] != 0 && FreeCount(v.fat[..], 2, v.g.clusterCount + 2) >= n
    modifies v`cache, v`cached, v.fat, v.data
    ensures v.Ok() && |added| == n && Cleared(v.g, old(v.data[..]), v.data[..], added)
    ensures old(Followable(v, start, chain)) ==> IsExtended(v.g, old(v.fat[..]), v.fat[..], chain, added)
    ensures old(StaleStart(v, start)) ==> IsStrayed(v.g, old(v.fat[..]), v.fat[..], added)
    ensures old(Followable(v, start, chain) && v.Coherent()) ==> ShowsOld(v.g, v.cache, v.cached, old(v.fat[..]), chain)
  {
    hide SectorOf, PlaceOf, StartOf, IsChain, FreeCount, FirstFree, Cleared, IsExtended, IsStrayed, ShowsOld;
    ghost var before, sectors := v.fat[..], v.data[..];
    ghost var good := Followable(v, start, chain);
    ghost var limit := v.g.clusterCount + 2;
    added := [];
    StartFacts(v, start, chain);
    NothingAdded(v.g, before, chain);
    NothingLost(v.g, before);
    NothingCleared(v.g, sectors);
    assert chain + added == chain;
    var lastCluster: Cluster := FatFollowClusterChainToEnd(v, start, chain);
    ghost var cache, cached := v.cache, v.cached;
    if good && v.Coherent() {
      CoherentShows(v, chain);
    }
    for i := 0 to n
      invariant v.cache == cache && v.cached == cached
      invariant v.Ok() && |added| == i && v.fat.Length == |before| && v.data.Length == |sectors|
      invariant v.fat[1] != 0 && FreeCount(v.fat[..], 2, limit) >= n - i
      invariant lastCluster < v.fat.Length && v.fat[lastCluster] != 0
      invariant good ==> chain != [] && lastCluster == (chain + added)[|chain + added| - 1] && IsExtended(v.g, before, v.fat[..], chain, added)
      invariant !good ==> lastCluster == (if added == [] then 0 else added[|added| - 1])
      invariant !good ==> IsStrayed(v.g, before, v.fat[..], added)
      invariant Cleared(v.g, sectors, v.data[..], added)
    {
      ghost var m := v.fat[..];
      NextFree(m, limit);
      var cluster := FatFindFreeCluster(v);
      if good {
        AppendOne(v.g, before, m, chain, added, cluster);
      } else {
        StrayOne(v.g, before, m, added, cluster);
      }
      LinkTakesOne(m, limit, cluster, lastCluster, v.g.eof);
      FatWriteFatEntry(v, cluster, v.g.eof);
      FatWriteFatEntry(v, lastCluster, cluster);
      assert v.fat[..] == m[cluster := v.g.eof][lastCluster := cluster];
      ClearCluster(v, cluster, sectors, added);
      lastCluster := cluster;
      assert chain + (added + [cluster]) == chain + added + [cluster];
      added := added + [cluster];
    }
  }

  lemma StartFacts(v: Volume, start: Cluster, chain: seq<Cluster>)
    requires v.Ok() && IsChain(v.g, v.fat[..], chain) && chain[0] == start
    ensures var last := chain[|chain| - 1]; last < v.fat.Length && v.fat[last] >= v.g.eof && v.fat[last] != 0
    ensures start < v.fat.Length && start != 0 && (chain == [start] ==> v.fat[start] >= v.g.eof)
    ensures chain != [] && v.fat[start] != 0 && v.g.eof != 0
    ensures Followable(v, start, chain) ==> !StaleStart(v, start)
  {
    ChainNotFree(v.g, v.fat[..], chain, 0);
    assert chain[0] in chain;
  }

  lemma NothingLost(g: Geometry, entries: seq<nat>)
    requires g.Valid() && g.clusterCount + 2 <= |entries|
    ensures IsStrayed(g, entries, entries, [])
  {
  }

  lemma NothingCleared(g: Geometry, sectors: seq<Sector>)
    ensures Cleared(g, sectors, sectors, [])
  {
  }

  // --- resizing

  const RESIZED: nat := 0
  const END_OF_FILE: nat := 1

  /** The clusters of a file: none when it is empty, and then its first cluster is zero. */
  ghost predicate FileChain(g: Geometry, entries: seq<nat>, first: Cluster, chain: seq<Cluster>) {
    if chain == [] then first == 0 else IsChain(g, entries, chain) && chain[0] == first
  }

  /**
    Growing an empty file by two clusters or more goes wrong when the sector of the first free
    entry is the cached one: the entry is marked on the disk and then followed through the cache.
  */
  ghost predicate Hazard(v: Volume, oldClusters: nat, newClusters: nat)
    requires v.Ok()
    reads v, v.data, v.fat
  {
    oldClusters == 0 && newClusters >= 2 && v.cached == SectorOf(v.g, FirstFree(v.fat[..], 1, v.g.clusterCount + 2))
  }

  /** Another file is one whose chain shares no cluster with this one. */
  ghost predicate OthersKept(g: Geometry, entries: seq<nat>, entries': seq<nat>, chain: seq<Cluster>,
                             chain': seq<Cluster>) {
    forall other: seq<Cluster> :: IsChain(g, entries, other) && Disjoint(other, chain) ==>
      IsChain(g, entries', other) && Disjoint(other, chain')
  }

  /** The clusters that a file has gained were free, and those it has lost are. */
  ghost predicate Accounted(entries: seq<nat>, entries': seq<nat>, chain: seq<Cluster>, chain': seq<Cluster>) {
    && |entries'| == |entries|
    && (chain <= chain' || chain' <= chain)
    && (forall c <- chain' :: c !in chain ==> c < |entries| && entries[c] == 0)
    && (forall c <- chain :: c !in chain' ==> c < |entries| && entries'[c] == 0)
    && (forall n :: 0 <= n < |entries| && n !in chain && n !in chain' ==> entries'[n] == entries[n])
  }

  lemma ShrunkFile(g: Geometry, entries: seq<nat>, entries': seq<nat>, chain: seq<Cluster>, k: nat)
    requires IsChain(g, entries, chain) && k < |chain| && IsTruncated(g, entries, entries', chain, k)
    ensures FileChain(g, entries', if k == 0 then 0 else chain[0], chain[..k])
    ensures OthersKept(g, entries, entries', chain, chain[..k]) && Accounted(entries, entries', chain, chain[..k])
  {
    TruncatedChain(g, entries, entries', chain, k);
    assert chain[k..|chain|] == chain[k..];
    assert forall i :: 0 <= i < k ==> chain[i] in chain[..k];
    forall other: seq<Cluster> | IsChain(g, entries, other) && Disjoint(other, chain)
      ensures IsChain(g, entries', other) && Disjoint(other, chain[..k])
    {
      TruncatedOthers(g, entries, entries', chain, k, other);
    }
    forall c | c in chain && c !in chain[..k]
      ensures c < |entries| && entries'[c] == 0
    {
      var i :| 0 <= i < |chain| && chain[i] == c;
    }
    forall n | 0 <= n < |entries| && n !in chain
      ensures entries'[n] == entries[n]
    {
      assert k > 0 ==> chain[k - 1] in chain;
    }
  }

  lemma GrownFile(g: Geometry, entries: seq<nat>, entries': seq<nat>, chain: seq<Cluster>, added: seq<Cluster>)
    requires IsExtended(g, entries, entries', chain, added)
    ensures FileChain(g, entries', chain[0], chain + added)
    ensures OthersKept(g, entries, entries', chain, chain + added) && Accounted(entries, entries', chain, chain + added)
  {
    forall other: seq<Cluster> | IsChain(g, entries, other) && Disjoint(other, chain)
      ensures IsChain(g, entries', other) && Disjoint(other, chain + added)
    {
      ExtendedOthers(g, entries, entries', chain, added, other);
    }
    assert chain[|chain| - 1] in chain;
  }

  /** The first cluster of an empty file. */
  lemma FirstCluster(g: Geometry, entries: seq<nat>, c: Cluster)
    requires g.Valid() && g.clusterCount + 2 <= |entries| && g.IsCluster(c) && entries[c] == 0
    ensures IsChain(g, entries[c := g.eof], [c])
    ensures OthersKept(g, entries, entries[c := g.eof], [], [c]) && Accounted(entries, entries[c := g.eof], [], [c])
  {
    forall other: seq<Cluster> | IsChain(g, entries, other)
      ensures IsChain(g, entries[c := g.eof], other) && Disjoint(other, [c])
    {
      forall i | 0 <= i < |other|
        ensures other[i] != c
      {
        ChainNotFree(g, entries, other, i);
      }
      ChainUntouched(g, entries, entries[c := g.eof], other);
    }
  }

  lemma KeptTwice(g: Geometry, a: seq<nat>, b: seq<nat>, c: seq<nat>, x: seq<Cluster>, y: seq<Cluster>, z: seq<Cluster>)
    requires OthersKept(g, a, b, x, y) && OthersKept(g, b, c, y, z)
    ensures OthersKept(g, a, c, x, z)
  {
    hide IsChain, Disjoint;
  }

  /** The part of a directory entry that resizing changes. */
  datatype FileEntry = FileEntry(cluster: Cluster, size: nat)

  function ClusterSize(g: Geometry): nat {
    SECTOR_SIZE * g.sectorsPerCluster
  }

  /** The marked first cluster of a file that was empty: followed rightly, or through a stale cache. */
  lemma MarkedFirst(v: Volume, before: seq<nat>, c: Cluster)
    requires v.Ok() && v.g.IsCluster(c) && |before| == v.fat.Length && before[c] == 0 && v.fat[..] == before[c := v.g.eof]
    requires v.cached == SectorOf(v.g, c) ==> v.Seen(c) == 0
    requires v.Agrees(0) && before[0] >= v.g.eof
    ensures IsChain(v.g, v.fat[..], [c])
    ensures v.cached != SectorOf(v.g, c) ==> Followable(v, c, [c])
    ensures v.cached == SectorOf(v.g, c) ==> StaleStart(v, c)
  {
  }

  /**
    What the hazard does: the file has its first cluster alone, the others that were taken for it
    hang on the reserved entry zero, and the sectors of those are cleared; no other file is touched.
  */
  ghost predicate FellShort(g: Geometry, entries: seq<nat>, entries': seq<nat>, first: Cluster, lost: seq<Cluster>) {
    && g.IsCluster(first) && first < |entries| && entries[first] == 0
    && IsStrayed(g, entries[first := g.eof], entries', lost) && IsChain(g, entries', [first])
    && OthersKept(g, entries, entries', [], [first] + lost)
  }

  lemma ShortFile(g: Geometry, entries: seq<nat>, entries': seq<nat>, first: Cluster, lost: seq<Cluster>)
    requires g.Valid() && g.IsCluster(first) && g.clusterCount + 2 <= |entries| && entries[first] == 0
    requires IsStrayed(g, entries[first := g.eof], entries', lost)
    ensures FellShort(g, entries, entries', first, lost)
  {
    FirstCluster(g, entries, first);
    StrayedOthers(g, entries[first := g.eof], entries', lost, [first]);
    forall other: seq<Cluster> | IsChain(g, entries, other)
      ensures IsChain(g, entries', other) && Disjoint(other, [first] + lost)
    {
      assert Disjoint(other, []);
      StrayedOthers(g, entries[first := g.eof], entries', lost, other);
    }
  }

  /**
    The chain part of resizing a file.  Unless the hazard is there the file then has exactly the
    clusters computed for its new size: a prefix of the old ones, or all of them and ones that were
    free; and no other file has changed.  With the hazard it is left with a single cluster, and the
    others are lost.
  */
  method FatResizeFile(v: Volume, file: FileEntry, newSize: nat, ghost chain: seq<Cluster>)
    returns (status: nat, file': FileEntry, ghost chain': seq<Cluster>, ghost lost: seq<Cluster>)
    requires v.Ok() && v.Coherent() && FileChain(v.g, v.fat[..], file.cluster, chain)
    requires ClusterSize(v.g) > 0 && |chain| == ClustersFor(file.size, ClusterSize(v.g))
    requires v.fat[0] >= v.g.eof && v.fat[1] != 0
    requires FreeCount(v.fat[..], 2, v.g.clusterCount + 2) >= ClustersFor(newSize % TWO_TO_32, ClusterSize(v.g)) - |chain|
    modifies v`cache, v`cached, v.fat, v.data
    ensures v.Ok() && status == RESIZED && file'.size == newSize % TWO_TO_32
    ensures var newClusters := ClustersFor(newSize % TWO_TO_32, ClusterSize(v.g));
      if old(Hazard(v, |chain|, newClusters)) then
        && newClusters >= 2 && chain' == [file'.cluster] && |lost| == newClusters - 1
        && FellShort(v.g, old(v.fat[..]), v.fat[..], file'.cluster, lost)
        && Cleared(v.g, old(v.data[..]), v.data[..], lost)
      else
        && lost == []
        && |chain'| == newClusters && FileChain(v.g, v.fat[..], file'.cluster, chain')
        && OthersKept(v.g, old(v.fat[..]), v.fat[..], chain, chain')
        && Accounted(old(v.fat[..]), v.fat[..], chain, chain')
        && Cleared(v.g, old(v.data[..]), v.data[..], if |chain'| <= |chain| then [] else chain'[if chain == [] then 1 else |chain|..])
    ensures chain != [] && ClustersFor(newSize % TWO_TO_32, ClusterSize(v.g)) > |chain| ==>
      ShowsOld(v.g, v.cache, v.cached, old(v.fat[..]), chain) && file'.cluster == file.cluster && chain < chain'
  {
    hide SectorOf, PlaceOf, StartOf, IsChain, FreeCount, FirstFree, Cleared, IsExtended, IsTruncated, OthersKept,
         Accounted, Disjoint, ClustersFor, IsStrayed, FellShort;
    lost := [];
    ghost var before := v.fat[..];
    var clusterSize := ClusterSize(v.g);
    var oldClusters, newClusters := ClustersFor(file.size, clusterSize), ClustersFor(newSize % TWO_TO_32, clusterSize);
    var first: Cluster := file.cluster;
    FileFirst(v, first, chain);
    if v.IsEof(first) {
      return END_OF_FILE, file, chain, [];
    }
    chain' := chain;
    NothingChanged(v.g, before, chain);
    NothingCleared(v.g, v.data[..]);
    if newClusters > oldClusters {
      var change := newClusters - oldClusters;
      if oldClusters == 0 && first == 0 {
        NextFree(before, v.g.clusterCount + 2);
        first := FatFindFreeCluster(v);
        FirstCluster(v.g, before, first);
        FreeCountTaken(before, before[first := v.g.eof], 2, v.g.clusterCount + 2, first);
        assert v.Agrees(first);
        FatWriteFatEntry(v, first, v.g.eof);
        MarkedFirst(v, before, first);
        chain' := [first];
        assert chain'[1..] == [];
        change := change - 1;
      }
      if change > 0 {
        ghost var m, short := v.fat[..], chain';
        ghost var added := FatIncreaseClusterChainLengthBy(v, first, change, chain');
        if old(Hazard(v, |chain|, newClusters)) {
          ShortFile(v.g, before, v.fat[..], first, added);
          lost := added;
        } else {
          GrownFile(v.g, m, v.fat[..], short, added);
          chain' := short + added;
          assert chain'[|short|..] == added;
          KeptTwice(v.g, before, m, v.fat[..], chain, short, chain');
          AccountedTwice(before, m, v.fat[..], chain, short, chain');
        }
      }
    } else if newClusters < oldClusters {
      FatDecreaseClusterChainLengthTo(v, first, newClusters, chain);
      ShrunkFile(v.g, before, v.fat[..], chain, newClusters);
      chain' := chain[..newClusters];
      if newClusters == 0 {
        FreedFirst(v.g, before, v.fat[..], chain);
        ghost var m := v.fat[..];
        FatWriteFatEntry(v, first, 0);
        assert v.fat[..] == m;
        first := 0;
      }
    }
    status, file' := RESIZED, FileEntry(first, newSize % TWO_TO_32);
  }

  lemma FileFirst(v: Volume, first: Cluster, chain: seq<Cluster>)
    requires v.Ok() && v.Coherent() && FileChain(v.g, v.fat[..], first, chain)
    ensures first < v.g.eof && 0 < v.g.eof
    ensures chain != [] ==> Followable(v, first, chain) && first != 0
  {
  }

  lemma NothingChanged(g: Geometry, entries: seq<nat>, chain: seq<Cluster>)
    ensures OthersKept(g, entries, entries, chain, chain)
    ensures Accounted(entries, entries, chain, chain)
  {
  }

  lemma AccountedTwice(a: seq<nat>, b: seq<nat>, c: seq<nat>, x: seq<Cluster>, y: seq<Cluster>, z: seq<Cluster>)
    requires Accounted(a, b, x, y) && Accounted(b, c, y, z) && x <= y <= z
    ensures Accounted(a, c, x, z)
  {
  }

  lemma FreedFirst(g: Geometry, entries: seq<nat>, entries': seq<nat>, chain: seq<Cluster>)
    requires IsChain(g, entries, chain) && IsTruncated(g, entries, entries', chain, 0)
    ensures chain[0] < |entries'| && entries'[chain[0]] == 0 && entries'[chain[0] := 0] == entries'
  {
    TruncatedChain(g, entries, entries', chain, 0);
  }

  lemma ShownAsUngrown(v: Volume, before: seq<nat>, start: Cluster, chain: seq<Cluster>, chain': seq<Cluster>)
    requires v.Ok() && IsChain(v.g, before, chain) && chain[0] == start && |before| == v.fat.Length
    requires IsChain(v.g, v.fat[..], chain') && chain < chain' && ShowsOld(v.g, v.cache, v.cached, before, chain)
    ensures chain' == chain + chain'[|chain|..] && GrownUnseen(v, start, chain, chain'[|chain|..])
  {
    hide SectorOf, PlaceOf, StartOf;
    forall i | 0 <= i < |chain|
      ensures chain[i] < v.fat.Length && before[chain[i]] == At(before, chain, i + 1)
      ensures v.fat[chain[i]] == At(v.fat[..], chain', i + 1)
    {
      NextOnChain(v.g, before, chain, i);
      NextOnChain(v.g, v.fat[..], chain', i);
      assert chain[i] == chain'[i];
    }
    EndIsEof(v.g, before, chain, |chain|);
  }

  /**
    Growing a file that has clusters and then following its chain, as an append does.  The file looks
    as short as before exactly when the table has the entries of all its old clusters in one sector.
  */
  method ResizeThenFollow(v: Volume, file: FileEntry, newSize: nat, k: nat, ghost chain: seq<Cluster>)
    returns (file': FileEntry, c: nat, ghost chain': seq<Cluster>)
    requires v.Ok() && v.Coherent() && chain != [] && FileChain(v.g, v.fat[..], file.cluster, chain)
    requires ClusterSize(v.g) > 0 && |chain| == ClustersFor(file.size, ClusterSize(v.g))
    requires |chain| < ClustersFor(newSize % TWO_TO_32, ClusterSize(v.g))
    requires v.fat[0] >= v.g.eof && v.fat[1] != 0
    requires FreeCount(v.fat[..], 2, v.g.clusterCount + 2) >= ClustersFor(newSize % TWO_TO_32, ClusterSize(v.g)) - |chain|
    modifies v`cache, v`cached, v.fat, v.data
    ensures v.Ok() && IsChain(v.g, v.fat[..], chain') && chain < chain' && chain'[0] == file'.cluster
    ensures |chain'| == ClustersFor(newSize % TWO_TO_32, ClusterSize(v.g)) && file'.size == newSize % TWO_TO_32
    ensures c >= v.g.eof <==> k >= |chain'| || (k >= |chain| && InOneSector(v.g, chain))
    ensures c < v.g.eof ==> k < |chain'| && c == chain'[k]
  {
    hide SectorOf, PlaceOf, StartOf, FreeCount, ClustersFor, Cleared, OthersKept, Accounted, FellShort, Hazard, InOneSector,
         GrownUnseen, ShowsOld, IsChain;
    NeverHazard(v, |chain|, ClustersFor(newSize % TWO_TO_32, ClusterSize(v.g)));
    ghost var before := v.fat[..];
    ghost var lost;
    var status;
    status, file', chain', lost := FatResizeFile(v, file, newSize, chain);
    ShownAsUngrown(v, before, file.cluster, chain, chain');
    EndIsEof(v.g, v.fat[..], chain', k);
    c := FatFollowClusterChainToAPoint(v, file'.cluster, k, chain, chain'[|chain|..]);
  }

  lemma NeverHazard(v: Volume, oldClusters: nat, newClusters: nat)
    requires v.Ok() && oldClusters > 0
    ensures !Hazard(v, oldClusters, newClusters)
  {
  }

  /** A volume with clusters of one sector, all of them free, and the first FAT sector in its cache. */
  method FreshVolume(wide: bool, clusters: nat) returns (v: Volume)
    requires if wide then 2 <= clusters <= 0xFFF_FFF6 else 4084 < clusters <= 0xFFF6
    ensures fresh(v) && fresh(v.fat) && fresh(v.data) && v.Ok() && v.Coherent() && v.cached == 0
    ensures v.g == (if wide then Fat32(clusters, 1) else Fat16(clusters, 1))
    ensures forall i :: 0 <= i < v.fat.Length ==> v.fat[i] == if i == 0 then v.g.eof else if i == 1 then v.g.eof + 7 else 0
  {
    var g := if wide then Fat32(clusters, 1) else Fat16(clusters, 1);
    var sectors := SectorOf(g, clusters + 1) + 1;
    var fat := new nat[StartOf(g, sectors)](i => if i == 0 then g.eof else if i == 1 then g.eof + 7 else 0);
    var data := new Sector[clusters](i => EmptySector());
    v := new Volume(g, fat, data, sectors);
    var e := FatFollowClusterChain(v, 1);
  }

  /**
    A file of no clusters, resized to two, on a fresh volume of any size: it gets one, and the
    other is lost to entry zero.
  */
  method GrowingEmptyFileFallsShort(wide: bool, clusters: nat)
    returns (v: Volume, file': FileEntry, ghost chain': seq<Cluster>, ghost lost: seq<Cluster>)
    requires if wide then 2 <= clusters <= 0xFFF_FFF6 else 4084 < clusters <= 0xFFF6
    ensures fresh(v) && v.Ok()
    ensures v.g == if wide then Geometry(128, 0xFFF_FFF8, clusters, 1) else Geometry(256, 0xFFF8, clusters, 1)
    ensures file'.size == 1024 && ClustersFor(file'.size, ClusterSize(v.g)) == 2
    ensures IsChain(v.g, v.fat[..], chain') && chain' == [file'.cluster]
    ensures IsChain(v.g, v.fat[..], lost) && v.fat[0] == lost[0] && |lost| == 1
  {
    hide SectorOf, PlaceOf, StartOf, FreeCount, FirstFree, Cleared, OthersKept, Accounted, ClustersFor, IsStrayed, IsChain;
    v := FreshVolume(wide, clusters);
    AllFree(v.fat[..], 2, clusters + 2);
    FirstFreeTwo(v.fat[..], clusters + 2);
    TwoSectors(v.g);
    ghost var before := v.fat[..];
    var status;
    status, file', chain', lost := FatResizeFile(v, FileEntry(0, 0), 1024, []);
    HangOnZero(v.g, before[file'.cluster := v.g.eof], v.fat[..], lost);
  }

  lemma HangOnZero(g: Geometry, entries: seq<nat>, entries': seq<nat>, lost: seq<Cluster>)
    requires IsStrayed(g, entries, entries', lost) && lost != []
    ensures IsChain(g, entries', lost) && entries' != [] && entries'[0] == lost[0]
  {
  }

  lemma TwoSectors(g: Geometry)
    requires g.perSector > 2 && g.sectorsPerCluster == 1
    ensures SectorOf(g, 2) == 0 && ClustersFor(0, ClusterSize(g)) == 0
    ensures ClustersFor(1024, ClusterSize(g)) == 2 && ClustersFor(1024 % TWO_TO_32, ClusterSize(g)) == 2
  {
  }

  lemma FirstFreeTwo(entries: seq<nat>, limit: nat)
    requires 2 < limit <= |entries| && entries[1] != 0 && entries[2] == 0
    ensures FirstFree(entries, 1, limit) == 2
  {
    assert FirstFree(entries, 2, limit) == 2;
  }
}
