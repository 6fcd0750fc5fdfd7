/**
  Reading and writing files on a FAT volume: a range of bytes is split over partial and whole
  sectors, and the sectors over the clusters of the file's chain.
*/
module FatFiles {
  import opened Common
  import opened FatChains
  import opened FatVolume

  // --- the sectors and bytes of a file

  /** The clusters of a file are data clusters and their sectors are there. */
  predicate Backed(g: Geometry, data: seq<Sector>, chain: seq<Cluster>) {
    && g.Valid() && |data| == g.clusterCount * g.sectorsPerCluster
    && (forall k :: 0 <= k < |data| ==> |data[k]| == SECTOR_SIZE)
    && forall i :: 0 <= i < |chain| ==> g.IsCluster(chain[i])
  }

  /** The number of sectors in `k` clusters. */
  function SectorsIn(g: Geometry, k: nat): nat {
    k * g.sectorsPerCluster
  }

  function SectorCount(g: Geometry, chain: seq<Cluster>): nat {
    SectorsIn(g, |chain|)
  }

  function ClusterOf(g: Geometry, s: nat): nat
    requires g.Valid()
  {
    s / g.sectorsPerCluster
  }

  function PlaceIn(g: Geometry, s: nat): (j: nat)
    requires g.Valid()
    ensures j < g.sectorsPerCluster
  {
    s % g.sectorsPerCluster
  }

  lemma SectorOnChain(g: Geometry, chain: seq<Cluster>, s: nat)
    requires g.Valid()
    ensures s < SectorCount(g, chain) <==> ClusterOf(g, s) < |chain|
    ensures SectorsIn(g, ClusterOf(g, s)) + PlaceIn(g, s) == s < SectorsIn(g, ClusterOf(g, s)) + g.sectorsPerCluster
  {
    var k := ClusterOf(g, s);
    assert s == k * g.sectorsPerCluster + PlaceIn(g, s);
    if k < |chain| {
      Multiples(k + 1, |chain|, g.sectorsPerCluster);
      Multiples(k, |chain|, g.sectorsPerCluster);
    } else {
      Multiples(|chain|, k, g.sectorsPerCluster);
    }
  }

  /** A sector is found again by its cluster and its place. */
  lemma SectorFound(g: Geometry, k: nat, j: nat)
    requires g.Valid() && j < g.sectorsPerCluster
    ensures ClusterOf(g, SectorsIn(g, k) + j) == k && PlaceIn(g, SectorsIn(g, k) + j) == j
  {
    var p := g.sectorsPerCluster;
    var m := k * p + j;
    var a := m / p;
    assert m == a * p + m % p;
    if a < k {
      Multiples(a + 1, k, p);
      Multiples(a, k, p);
    } else if a > k {
      Multiples(k + 1, a, p);
      Multiples(k, a, p);
    }
  }

  lemma LaterCluster(g: Geometry, s: nat, t: nat)
    requires g.Valid() && s <= t
    ensures ClusterOf(g, s) <= ClusterOf(g, t)
  {
    var a, b := ClusterOf(g, s), ClusterOf(g, t);
    assert s == a * g.sectorsPerCluster + PlaceIn(g, s) && t == b * g.sectorsPerCluster + PlaceIn(g, t);
    if b < a {
      Multiples(b + 1, a, g.sectorsPerCluster);
      Multiples(b, a, g.sectorsPerCluster);
    }
  }

  lemma MoreClusters(g: Geometry, a: nat, b: nat)
    requires a <= b
    ensures SectorsIn(g, a) <= SectorsIn(g, b) && SectorsIn(g, a + 1) == SectorsIn(g, a) + g.sectorsPerCluster
  {
    Multiples(a, b, g.sectorsPerCluster);
  }

  /** Sector number `s` of a file. */
  function FileSector(g: Geometry, data: seq<Sector>, chain: seq<Cluster>, s: nat): (r: Sector)
    requires Backed(g, data, chain) && s < SectorCount(g, chain)
    ensures |r| == SECTOR_SIZE
  {
    SectorOnChain(g, chain, s);
    SectorIndexBound(g, chain[ClusterOf(g, s)], PlaceIn(g, s));
    data[SectorIndex(g, chain[ClusterOf(g, s)], PlaceIn(g, s))]
  }

  /** The contents of a file: the clusters of its chain one after the other. */
  function FileBytes(g: Geometry, data: seq<Sector>, chain: seq<Cluster>): (bytes: seq<Byte>)
    requires Backed(g, data, chain)
    ensures |bytes| == SECTOR_SIZE * SectorCount(g, chain)
  {
    seq(SECTOR_SIZE * SectorCount(g, chain), k requires 0 <= k < SECTOR_SIZE * SectorCount(g, chain) =>
      FileSector(g, data, chain, k / SECTOR_SIZE)[k % SECTOR_SIZE])
  }

  lemma ByteOfSector(g: Geometry, data: seq<Sector>, chain: seq<Cluster>, s: nat, j: nat)
    requires Backed(g, data, chain) && s < SectorCount(g, chain) && j < SECTOR_SIZE
    ensures SECTOR_SIZE * s + j < |FileBytes(g, data, chain)|
    ensures FileBytes(g, data, chain)[SECTOR_SIZE * s + j] == FileSector(g, data, chain, s)[j]
  {
  }

  /** Where every byte of a file is: byte `b` of sector `j` of its cluster number `i`. */
  lemma ByteOnDisk(g: Geometry, data: seq<Sector>, chain: seq<Cluster>, i: nat, j: nat, b: nat)
    requires Backed(g, data, chain) && i < |chain| && j < g.sectorsPerCluster && b < 512
    ensures 512 * (i * g.sectorsPerCluster + j) + b < |FileBytes(g, data, chain)|
    ensures 0 <= (chain[i] - 2) * g.sectorsPerCluster + j < |data|
    ensures b < |data[(chain[i] - 2) * g.sectorsPerCluster + j]|
    ensures FileBytes(g, data, chain)[512 * (i * g.sectorsPerCluster + j) + b] == data[(chain[i] - 2) * g.sectorsPerCluster + j][b]
  {
    hide ClusterOf, PlaceIn, FileBytes;
    SectorFound(g, i, j);
    SectorOnChain(g, chain, i * g.sectorsPerCluster + j);
    SectorIndexBound(g, chain[i], j);
    ByteOfSector(g, data, chain, i * g.sectorsPerCluster + j, b);
  }

  /** A file whose clusters follow each other is one stretch of the disk. */
  lemma OneStretch(g: Geometry, data: seq<Sector>, chain: seq<Cluster>, k: nat)
    requires Backed(g, data, chain) && chain != [] && k < |FileBytes(g, data, chain)|
    requires forall i :: 0 <= i < |chain| ==> chain[i] == chain[0] + i
    ensures 0 <= (chain[0] - 2) * g.sectorsPerCluster + k / 512 < |data|
    ensures |data[(chain[0] - 2) * g.sectorsPerCluster + k / 512]| == 512
    ensures FileBytes(g, data, chain)[k] == data[(chain[0] - 2) * g.sectorsPerCluster + k / 512][k % 512]
  {
    hide ClusterOf, PlaceIn, FileBytes;
    var s := k / 512;
    SectorOnChain(g, chain, s);
    var i, j := ClusterOf(g, s), PlaceIn(g, s);
    ByteOnDisk(g, data, chain, i, j, k % 512);
    assert (chain[i] - 2) * g.sectorsPerCluster == (chain[0] - 2) * g.sectorsPerCluster + i * g.sectorsPerCluster;
  }

  /**
    With the number of clusters computed for a size a file has room for that size and for less than
    one cluster more, exactly when the rounding does not leave 32 bits.
  */
  lemma RoomForSize(g: Geometry, data: seq<Sector>, chain: seq<Cluster>, size: nat)
    requires Backed(g, data, chain) && size < 0x1_0000_0000 && 512 * g.sectorsPerCluster <= 0x1_0000_0000
    requires ClusterSize(g) > 0 && |chain| == ClustersFor(size, ClusterSize(g))
    ensures size + 512 * g.sectorsPerCluster - 1 < 0x1_0000_0000 <==>
      size <= |FileBytes(g, data, chain)| < size + 512 * g.sectorsPerCluster
  {
    hide FileBytes, ClustersFor;
    ClustersExact(size, ClusterSize(g));
    var n, p := |chain|, g.sectorsPerCluster;
    assert |FileBytes(g, data, chain)| == n * ClusterSize(g);
    if n > 0 {
      assert (n - 1) * ClusterSize(g) == n * ClusterSize(g) - ClusterSize(g);
    }
  }

  /** The clusters that are not those of a file have the same sectors as before. */
  ghost predicate OtherSectorsKept(g: Geometry, before: seq<Sector>, after: seq<Sector>, chain: seq<Cluster>) {
    && |after| == |before|
    && forall c, j :: g.IsCluster(c) && c !in chain && 0 <= j < g.sectorsPerCluster && SectorIndex(g, c, j) < |before| ==>
      after[SectorIndex(g, c, j)] == before[SectorIndex(g, c, j)]
  }

  /** Other files keep their bytes. */
  lemma OtherFileKept(g: Geometry, before: seq<Sector>, after: seq<Sector>, chain: seq<Cluster>, other: seq<Cluster>)
    requires OtherSectorsKept(g, before, after, chain) && Disjoint(other, chain)
    requires Backed(g, before, other) && Backed(g, after, other)
    ensures FileBytes(g, after, other) == FileBytes(g, before, other)
  {
    hide SectorIndex, SectorCount, ClusterOf, PlaceIn;
    forall s | 0 <= s < SectorCount(g, other)
      ensures FileSector(g, after, other, s) == FileSector(g, before, other, s)
    {
      SectorOnChain(g, other, s);
      var c := other[ClusterOf(g, s)];
      assert c in other;
      SectorIndexBound(g, c, PlaceIn(g, s));
    }
    forall k | 0 <= k < SECTOR_SIZE * SectorCount(g, other)
      ensures FileBytes(g, after, other)[k] == FileBytes(g, before, other)[k]
    {
      ByteOfSector(g, before, other, k / SECTOR_SIZE, k % SECTOR_SIZE);
      ByteOfSector(g, after, other, k / SECTOR_SIZE, k % SECTOR_SIZE);
    }
  }

  /** A file whose chain the table holds, on a volume whose cache does not lie. */
  ghost predicate Opened(v: Volume, first: Cluster, chain: seq<Cluster>)
    reads v, v.data, v.fat
  {
    v.Ok() && v.Coherent() && IsChain(v.g, v.fat[..], chain) && chain[0] == first
  }

  lemma OpenedBacked(v: Volume, first: Cluster, chain: seq<Cluster>)
    requires Opened(v, first, chain)
    ensures Backed(v.g, v.data[..], chain) && IsChain(v.g, v.fat[..], chain) && chain != []
  {
    hide StartOf;
  }

  /** A coherent cache follows every chain of the table rightly. */
  lemma OpenedFollowable(v: Volume, first: Cluster, chain: seq<Cluster>)
    requires Opened(v, first, chain)
    ensures v.Ok() && Followable(v, first, chain)
  {
  }

  /** The cluster behind one on the chain. */
  method FollowOpened(v: Volume, first: Cluster, c: Cluster, ghost k: nat,
                      ghost chain: seq<Cluster>) returns (next: Cluster)
    requires Opened(v, first, chain) && k < |chain| && c == chain[k]
    modifies v`cache, v`cached
    ensures Opened(v, first, chain) && chain[|chain| - 1] < v.fat.Length && next == At(v.fat[..], chain, k + 1)
  {
    hide SectorOf, PlaceOf, StartOf;
    NextOnChain(v.g, v.fat[..], chain, k);
    assert v.Agrees(c);
    next := FatFollowClusterChain(v, c);
  }

  method FollowOpenedToAPoint(v: Volume, first: Cluster, endIndex: nat, ghost chain: seq<Cluster>) returns (c: Cluster)
    requires Opened(v, first, chain)
    modifies v`cache, v`cached
    ensures Opened(v, first, chain) && chain[|chain| - 1] < v.fat.Length && c == At(v.fat[..], chain, endIndex)
  {
    hide SectorOf, PlaceOf, StartOf;
    OpenedFollowable(v, first, chain);
    c := FatFollowClusterChainToAPoint(v, first, endIndex, chain);
  }

  // --- reading

  /** Sector `j` of a cluster; the data sectors start with the first sector of cluster two. */
  method FatReadSectorOfCluster(v: Volume, c: Cluster, j: nat) returns (sector: Sector)
    requires v.Ok() && v.g.IsCluster(c) && j < v.g.sectorsPerCluster
    ensures (c - 2) * v.g.sectorsPerCluster + j < v.data.Length
    ensures sector == v.data[(c - 2) * v.g.sectorsPerCluster + j] && |sector| == 512
    ensures SectorIndex(v.g, c, j) == (c - 2) * v.g.sectorsPerCluster + j
  {
    hide StartOf;
    SectorIndexBound(v.g, c, j);
    ClusterStart(v.g, c);
    var firstSectorOfCluster := v.g.sectorsPerCluster * c - 2 * v.g.sectorsPerCluster;
    sector := v.data[firstSectorOfCluster + j];
  }

  /** What the disk shows at the places of the cluster that an end mark stands for, or that it refuses. */
  predicate Shown(g: Geometry, beyond: seq<Option<Sector>>) {
    && |beyond| == g.sectorsPerCluster
    && forall j :: 0 <= j < |beyond| && beyond[j].Some? ==> |beyond[j].value| == SECTOR_SIZE
  }

  /** What it shows for sector `s` of a file whose chain ends before. */
  function ShownAt(g: Geometry, beyond: seq<Option<Sector>>, s: nat): (r: Option<Sector>)
    requires g.Valid() && Shown(g, beyond)
    ensures r == beyond[s % g.sectorsPerCluster] && (r.Some? ==> |r.value| == SECTOR_SIZE)
  {
    beyond[PlaceIn(g, s)]
  }

  /**
    Reads a sector of a file.  Behind the end of its chain the end mark is taken for a cluster, and
    the sector at the same place there is read.
  */
  method FatReadSectorFromFile(v: Volume, first: Cluster, offsetSector: nat, beyond: seq<Option<Sector>>,
                               ghost chain: seq<Cluster>) returns (sector: Option<Sector>)
    requires Opened(v, first, chain) && Shown(v.g, beyond)
    modifies v`cache, v`cached
    ensures Opened(v, first, chain) && Backed(v.g, v.data[..], chain)
    ensures sector == if offsetSector < SectorCount(v.g, chain) then Some(FileSector(v.g, v.data[..], chain, offsetSector))
                      else ShownAt(v.g, beyond, offsetSector)
  {
    hide SectorOf, PlaceOf, StartOf, ClusterOf, PlaceIn, SectorCount;
    OpenedBacked(v, first, chain);
    SectorOnChain(v.g, chain, offsetSector);
    EndIsEof(v.g, v.fat[..], chain, ClusterOf(v.g, offsetSector));
    var c := FollowOpenedToAPoint(v, first, ClusterOf(v.g, offsetSector), chain);
    if v.g.IsCluster(c) {
      var found := FatReadSectorOfCluster(v, c, PlaceIn(v.g, offsetSector));
      sector := Some(found);
    } else {
      sector := beyond[PlaceIn(v.g, offsetSector)];
    }
  }

  /** What a read takes sector `s` behind the chain for, as far as the disk shows it. */
  function Filler(g: Geometry, beyond: seq<Option<Sector>>, s: nat): (r: Sector)
    requires g.Valid() && Shown(g, beyond)
    ensures |r| == SECTOR_SIZE && (ShownAt(g, beyond, s).Some? ==> r == ShownAt(g, beyond, s).value)
  {
    if ShownAt(g, beyond, s).Some? then ShownAt(g, beyond, s).value else EmptySector()
  }

  /** The bytes of a file up to `n`, followed by what the disk shows behind its chain. */
  function Beyond(g: Geometry, bytes: seq<Byte>, beyond: seq<Option<Sector>>, n: nat): (r: seq<Byte>)
    requires g.Valid() && Shown(g, beyond)
    ensures |r| == n
    ensures n <= |bytes| ==> r == bytes[..n]
    ensures |bytes| <= n ==> r[..|bytes|] == bytes
  {
    seq(n, k requires 0 <= k < n => if k < |bytes| then bytes[k] else Filler(g, beyond, k / SECTOR_SIZE)[k % SECTOR_SIZE])
  }

  lemma BeyondSector(g: Geometry, bytes: seq<Byte>, beyond: seq<Option<Sector>>, n: nat, sectors: nat, i: nat)
    requires g.Valid() && Shown(g, beyond) && |bytes| == SECTOR_SIZE * sectors && SECTOR_SIZE * i + SECTOR_SIZE <= n
    ensures Beyond(g, bytes, beyond, n)[SECTOR_SIZE * i..SECTOR_SIZE * i + SECTOR_SIZE] ==
      if i < sectors then bytes[SECTOR_SIZE * i..SECTOR_SIZE * i + SECTOR_SIZE] else Filler(g, beyond, i)
  {
    hide Filler, ShownAt, Shown;
    var r := Beyond(g, bytes, beyond, n)[SECTOR_SIZE * i..SECTOR_SIZE * i + SECTOR_SIZE];
    if i >= sectors {
      forall k | 0 <= k < SECTOR_SIZE
        ensures r[k] == Filler(g, beyond, i)[k]
      {
        SectorOfByte(i, k);
      }
    }
  }

  lemma SectorOfByte(i: nat, k: nat)
    requires k < SECTOR_SIZE
    ensures (SECTOR_SIZE * i + k) / SECTOR_SIZE == i && (SECTOR_SIZE * i + k) % SECTOR_SIZE == k
  {
  }

  /** A shorter read sees the same. */
  lemma BeyondPrefix(g: Geometry, bytes: seq<Byte>, beyond: seq<Option<Sector>>, m: nat, n: nat)
    requires g.Valid() && Shown(g, beyond) && m <= n
    ensures Beyond(g, bytes, beyond, n)[..m] == Beyond(g, bytes, beyond, m)
  {
    hide Filler, Shown;
  }

  /** The part of sector `i` that belongs to a range of bytes: from `low` up to `high`. */
  method ReadLimits(offset: nat, size: nat, i: nat) returns (low: nat, high: nat)
    requires 0 < size && offset + size <= TWO_TO_32
    requires offset / SECTOR_SIZE <= i <= (offset + size - 1) / SECTOR_SIZE
    ensures low < high <= SECTOR_SIZE
    ensures SECTOR_SIZE * i + low == Next(offset, SECTOR_SIZE * i) && offset <= SECTOR_SIZE * i + low
    ensures SECTOR_SIZE * i + high == if i == (offset + size - 1) / SECTOR_SIZE then offset + size else Next(offset, SECTOR_SIZE * (i + 1))
    ensures SECTOR_SIZE * i < offset + size
  {
    low, high := 0, SECTOR_SIZE;
    RangeStart(offset, i);
    RangeEnd(offset + size, i);
    if i == offset / SECTOR_SIZE {
      low := offset % SECTOR_SIZE;
    }
    if i == (offset + size - 1) / SECTOR_SIZE {
      high := (offset + size) % TWO_TO_32 % SECTOR_SIZE;
      WordModulo(offset + size);
      if high == 0 {
        high := SECTOR_SIZE;
      }
    }
  }

  lemma RangeStart(x: nat, i: nat)
    requires x / SECTOR_SIZE <= i
    ensures if i == x / SECTOR_SIZE then x == SECTOR_SIZE * i + x % SECTOR_SIZE else x < SECTOR_SIZE * i
  {
  }

  lemma RangeEnd(x: nat, i: nat)
    requires 0 < x && i <= (x - 1) / SECTOR_SIZE
    ensures if i < (x - 1) / SECTOR_SIZE then SECTOR_SIZE * (i + 1) < x
            else x == SECTOR_SIZE * i + if x % SECTOR_SIZE == 0 then SECTOR_SIZE else x % SECTOR_SIZE
  {
  }

  lemma WordModulo(x: nat)
    ensures x % TWO_TO_32 % SECTOR_SIZE == x % SECTOR_SIZE
  {
  }

  /** The later of two positions. */
  function Next(index: nat, position: nat): nat {
    if position < index then index else position
  }

  /** Appends part of a sector to the output. */
  method TakePart(output: seq<Byte>, buffer: Sector, low: nat, high: nat) returns (r: seq<Byte>)
    requires low <= high <= |buffer|
    ensures r == output + buffer[low..high]
  {
    r := output;
    for j := low to high
      invariant r == output + buffer[low..j]
    {
      r := r + [buffer[j]];
    }
  }

  lemma SliceOn(bytes: seq<Byte>, offset: nat, at: nat, low: nat, high: nat)
    requires offset <= at + low && low <= high <= SECTOR_SIZE && at + SECTOR_SIZE <= |bytes|
    ensures bytes[offset..at + low] + bytes[at..at + SECTOR_SIZE][low..high] == bytes[offset..at + high]
    ensures low == 0 && high == SECTOR_SIZE ==> bytes[at..at + SECTOR_SIZE][low..high] == bytes[at..at + SECTOR_SIZE]
  {
    var a, b := bytes[at..at + SECTOR_SIZE][low..high], bytes[at + low..at + high];
    assert |a| == |b| && forall k :: 0 <= k < |a| ==> a[k] == b[k];
  }

  /** Reads a part of sector `i`, whole sectors without the detour over a buffer. */
  method ReadPiece(v: Volume, first: Cluster, i: nat, low: nat, high: nat, output: seq<Byte>, beyond: seq<Option<Sector>>,
                   ghost chain: seq<Cluster>, ghost seen: seq<Byte>, ghost offset: nat) returns (r: Option<seq<Byte>>)
    requires Opened(v, first, chain) && low < high <= SECTOR_SIZE && Shown(v.g, beyond)
    requires offset <= SECTOR_SIZE * i + low && SECTOR_SIZE * i + SECTOR_SIZE <= |seen|
    requires Backed(v.g, v.data[..], chain) && seen == Beyond(v.g, FileBytes(v.g, v.data[..], chain), beyond, |seen|)
    requires output == seen[offset..SECTOR_SIZE * i + low]
    modifies v`cache, v`cached
    ensures Opened(v, first, chain)
    ensures r.None? <==> SectorCount(v.g, chain) <= i && ShownAt(v.g, beyond, i).None?
    ensures r.Some? ==> r.value == seen[offset..SECTOR_SIZE * i + high]
  {
    hide Opened, Backed, SectorCount, FileSector, FileBytes, IsChain, Beyond, Filler, EmptySector, Shown, ShownAt;
    SeenSector(v.g, v.data[..], chain, beyond, |seen|, i);
    SliceOn(seen, offset, SECTOR_SIZE * i, low, high);
    var buffer := FatReadSectorFromFile(v, first, i, beyond, chain);
    if buffer.None? {
      return None;
    }
    if low != 0 || high != SECTOR_SIZE {
      var taken := TakePart(output, buffer.value, low, high);
      r := Some(taken);
    } else {
      r := Some(output + buffer.value);
    }
  }

  /** Sector `s` is the first that a read from sector `start` on is refused. */
  ghost predicate RefusedAt(g: Geometry, beyond: seq<Option<Sector>>, sectors: nat, start: nat, s: nat)
    requires g.Valid() && Shown(g, beyond)
  {
    && start <= s && sectors <= s && ShownAt(g, beyond, s).None?
    && forall t: nat :: start <= t < s && sectors <= t ==> ShownAt(g, beyond, t).Some?
  }

  /**
    Reads a range of bytes, sector by sector.  That the range leaves the chain is noticed only if
    the disk refuses a sector that the end mark stands for; otherwise bytes that are none of the
    file's are returned as read.
  */
  method FatReadFile(v: Volume, first: Cluster, offset: nat, size: nat, beyond: seq<Option<Sector>>,
                     ghost chain: seq<Cluster>) returns (output: seq<Byte>, failed: bool)
    requires Opened(v, first, chain) && offset + size <= TWO_TO_32 && Shown(v.g, beyond)
    modifies v`cache, v`cached
    ensures Opened(v, first, chain) && Backed(v.g, v.data[..], chain)
    ensures failed <==> 0 < size && exists s: nat :: s <= (offset + size - 1) / SECTOR_SIZE
                                           && RefusedAt(v.g, beyond, SectorCount(v.g, chain), offset / SECTOR_SIZE, s)
    ensures var bytes := FileBytes(v.g, v.data[..], chain);
      && (offset + size <= |bytes| ==> !failed && output == bytes[offset..offset + size])
      && (!failed ==> output == Beyond(v.g, bytes, beyond, offset + size)[offset..])
      && (failed ==> forall s: nat :: RefusedAt(v.g, beyond, SectorCount(v.g, chain), offset / SECTOR_SIZE, s) ==>
           output == Beyond(v.g, bytes, beyond, Next(offset, SECTOR_SIZE * s))[offset..])
  {
    hide Opened, Backed, SectorCount, FileSector, FileBytes, IsChain, Beyond, Filler, EmptySector, Next, Shown, ShownAt;
    OpenedBacked(v, first, chain);
    OpenedGeometry(v, first, chain);
    ghost var data := v.data[..];
    ghost var bytes, sectors := FileBytes(v.g, data, chain), SectorCount(v.g, chain);
    output, failed := [], false;
    if size == 0 {
      return;
    }
    var startSector, endSector := offset / SECTOR_SIZE, (offset + size - 1) / SECTOR_SIZE;
    ghost var end := SECTOR_SIZE * endSector + SECTOR_SIZE;
    ghost var seen := Beyond(v.g, bytes, beyond, end);
    ReadDone(v.g, bytes, beyond, end, offset, size, sectors);
    ghost var at := offset;
    var i := startSector;
    while i <= endSector
      invariant Opened(v, first, chain) && v.data[..] == data && startSector <= i <= endSector + 1
      invariant forall t: nat :: startSector <= t < i && sectors <= t ==> ShownAt(v.g, beyond, t).Some?
      invariant at == if i <= endSector then Next(offset, SECTOR_SIZE * i) else offset + size
      invariant offset <= at <= end && output == seen[offset..at]
    {
      var low, high := ReadLimits(offset, size, i);
      var r := ReadPiece(v, first, i, low, high, output, beyond, chain, seen, offset);
      if r.None? {
        assert RefusedAt(v.g, beyond, sectors, startSector, i);
        BeyondPrefix(v.g, bytes, beyond, at, end);
        return output, true;
      }
      output := r.value;
      at := SECTOR_SIZE * i + high;
      i := i + 1;
    }
  }

  /** What a read is shown at a sector. */
  lemma SeenSector(g: Geometry, data: seq<Sector>, chain: seq<Cluster>, beyond: seq<Option<Sector>>, end: nat, i: nat)
    requires Backed(g, data, chain) && Shown(g, beyond) && SECTOR_SIZE * i + SECTOR_SIZE <= end
    ensures Beyond(g, FileBytes(g, data, chain), beyond, end)[SECTOR_SIZE * i..SECTOR_SIZE * i + SECTOR_SIZE] ==
      if i < SectorCount(g, chain) then FileSector(g, data, chain, i) else Filler(g, beyond, i)
  {
    hide FileBytes, FileSector, SectorCount, Beyond, Filler;
    BeyondSector(g, FileBytes(g, data, chain), beyond, end, SectorCount(g, chain), i);
    if i < SectorCount(g, chain) {
      SectorBytes(g, data, chain, i);
    }
  }

  /** What a read to the end of the range has returned. */
  lemma ReadDone(g: Geometry, bytes: seq<Byte>, beyond: seq<Option<Sector>>, end: nat, offset: nat, size: nat, sectors: nat)
    requires g.Valid() && Shown(g, beyond) && |bytes| == SECTOR_SIZE * sectors && 0 < size
    requires end == SECTOR_SIZE * ((offset + size - 1) / SECTOR_SIZE) + SECTOR_SIZE
    ensures offset + size <= end
    ensures Beyond(g, bytes, beyond, end)[offset..offset + size] == Beyond(g, bytes, beyond, offset + size)[offset..]
    ensures offset + size <= |bytes| ==> Beyond(g, bytes, beyond, end)[offset..offset + size] == bytes[offset..offset + size]
    ensures offset + size <= |bytes| <==> (offset + size - 1) / SECTOR_SIZE + 1 <= sectors
    ensures Next(offset, SECTOR_SIZE * (offset / SECTOR_SIZE)) == offset && offset / SECTOR_SIZE <= (offset + size - 1) / SECTOR_SIZE
  {
    hide Beyond, Shown;
    BeyondPrefix(g, bytes, beyond, offset + size, end);
    var seen := Beyond(g, bytes, beyond, end);
    assert seen[offset..offset + size] == seen[..offset + size][offset..];
  }

  /** A sector of a file is a slice of its bytes. */
  lemma SectorBytes(g: Geometry, data: seq<Sector>, chain: seq<Cluster>, s: nat)
    requires Backed(g, data, chain) && s < SectorCount(g, chain)
    ensures SECTOR_SIZE * s + SECTOR_SIZE <= |FileBytes(g, data, chain)|
    ensures FileSector(g, data, chain, s) == FileBytes(g, data, chain)[SECTOR_SIZE * s..SECTOR_SIZE * s + SECTOR_SIZE]
  {
  }

  // --- writing

  /** Sectors `index` up to `end` of a file hold the input, and nothing else has changed. */
  ghost predicate SectorsWritten(g: Geometry, before: seq<Sector>, after: seq<Sector>, chain: seq<Cluster>,
                                 index: nat, end: nat, input: seq<Byte>)
    requires Backed(g, before, chain) && Backed(g, after, chain)
  {
    && OtherSectorsKept(g, before, after, chain)
    && forall s :: 0 <= s < SectorCount(g, chain) ==>
      FileSector(g, after, chain, s) == SectorAfter(FileSector(g, before, chain, s), index, end, input, s)
  }

  function SectorAfter(before: Sector, index: nat, end: nat, input: seq<Byte>, s: nat): Sector {
    if index <= s < end && SECTOR_SIZE * (s - index + 1) <= |input| then InputSector(input, s - index) else before
  }

  function InputSector(input: seq<Byte>, k: nat): (r: Sector)
    requires SECTOR_SIZE * (k + 1) <= |input|
    ensures |r| == SECTOR_SIZE
  {
    input[SECTOR_SIZE * k..SECTOR_SIZE * (k + 1)]
  }

  lemma NothingWritten(g: Geometry, data: seq<Sector>, chain: seq<Cluster>, index: nat, input: seq<Byte>)
    requires Backed(g, data, chain)
    ensures SectorsWritten(g, data, data, chain, index, index, input)
  {
  }

  /** Two sectors of a file are the same data sector only if they are the same. */
  lemma FileSectorPlace(g: Geometry, entries: seq<nat>, chain: seq<Cluster>, s: nat, t: nat)
    requires IsChain(g, entries, chain) && s < SectorCount(g, chain) && t < SectorCount(g, chain)
    ensures ClusterOf(g, s) < |chain| && ClusterOf(g, t) < |chain|
    ensures SectorIndex(g, chain[ClusterOf(g, s)], PlaceIn(g, s)) == SectorIndex(g, chain[ClusterOf(g, t)], PlaceIn(g, t)) <==> s == t
  {
    hide SectorIndex, SectorCount, ClusterOf, PlaceIn;
    SectorOnChain(g, chain, s);
    SectorOnChain(g, chain, t);
    var a, b := ClusterOf(g, s), ClusterOf(g, t);
    SectorIndexInjective(g, chain[a], PlaceIn(g, s), chain[b], PlaceIn(g, t));
    if a < b {
      ChainDistinct(g, entries, chain, a, b);
    } else if b < a {
      ChainDistinct(g, entries, chain, b, a);
    }
  }

  /** Writing one sector of a file changes that sector and no other. */
  lemma OneSectorWritten(g: Geometry, entries: seq<nat>, m: seq<Sector>, chain: seq<Cluster>, t: nat, sector: Sector)
    requires IsChain(g, entries, chain) && Backed(g, m, chain) && t < SectorCount(g, chain) && |sector| == SECTOR_SIZE
    ensures ClusterOf(g, t) < |chain| && SectorIndex(g, chain[ClusterOf(g, t)], PlaceIn(g, t)) < |m|
    ensures var r := m[SectorIndex(g, chain[ClusterOf(g, t)], PlaceIn(g, t)) := sector];
      && Backed(g, r, chain) && OtherSectorsKept(g, m, r, chain)
      && forall s :: 0 <= s < SectorCount(g, chain) ==>
        FileSector(g, r, chain, s) == if s == t then sector else FileSector(g, m, chain, s)
  {
    hide SectorIndex, SectorCount, ClusterOf, PlaceIn;
    SectorOnChain(g, chain, t);
    var c, place := chain[ClusterOf(g, t)], PlaceIn(g, t);
    SectorIndexBound(g, c, place);
    var r := m[SectorIndex(g, c, place) := sector];
    forall s | 0 <= s < SectorCount(g, chain)
      ensures FileSector(g, r, chain, s) == if s == t then sector else FileSector(g, m, chain, s)
    {
      SectorOnChain(g, chain, s);
      SectorIndexBound(g, chain[ClusterOf(g, s)], PlaceIn(g, s));
      FileSectorPlace(g, entries, chain, s, t);
    }
    forall x, j | g.IsCluster(x) && x !in chain && 0 <= j < g.sectorsPerCluster && SectorIndex(g, x, j) < |m|
      ensures r[SectorIndex(g, x, j)] == m[SectorIndex(g, x, j)]
    {
      assert x != c;
      SectorIndexInjective(g, x, j, c, place);
    }
  }

  /** Writing one more sector. */
  lemma WriteOneMore(g: Geometry, before: seq<Sector>, m: seq<Sector>, r: seq<Sector>, chain: seq<Cluster>,
                     index: nat, t: nat, input: seq<Byte>)
    requires Backed(g, before, chain) && Backed(g, m, chain) && Backed(g, r, chain)
    requires index <= t && SECTOR_SIZE * (t - index + 1) <= |input|
    requires SectorsWritten(g, before, m, chain, index, t, input) && OtherSectorsKept(g, m, r, chain)
    requires forall s :: 0 <= s < SectorCount(g, chain) ==>
      FileSector(g, r, chain, s) == if s == t then InputSector(input, t - index) else FileSector(g, m, chain, s)
    ensures SectorsWritten(g, before, r, chain, index, t + 1, input)
  {
  }

  const WRITTEN: nat := 0

  /** Written up to the end of the chain is written as far as it goes. */
  lemma WrittenToTheEnd(g: Geometry, before: seq<Sector>, after: seq<Sector>, chain: seq<Cluster>, index: nat,
                        next: nat, end: nat, input: seq<Byte>)
    requires Backed(g, before, chain) && Backed(g, after, chain)
    requires SectorsWritten(g, before, after, chain, index, next, input) && SectorCount(g, chain) <= next <= end
    ensures SectorsWritten(g, before, after, chain, index, end, input)
  {
    hide FileSector, SectorCount;
  }

  /** Writes the part of the input that belongs to one cluster. */
  method FatWriteSectorsOfOneCluster(v: Volume, first: Cluster, c: Cluster, k: nat, firstSector: nat, lastSector: nat,
                                     input: seq<Byte>, inputOffset: nat,
                                     ghost before: seq<Sector>, ghost chain: seq<Cluster>)
    returns (finished: bool, newOffset: nat)
    requires Opened(v, first, chain) && k < |chain| && c == chain[k]
    requires firstSector <= lastSector && |input| == SECTOR_SIZE * (lastSector - firstSector + 1)
    requires SectorsIn(v.g, k) <= lastSector
    requires inputOffset == SECTOR_SIZE * (Next(firstSector, SectorsIn(v.g, k)) - firstSector)
    requires Backed(v.g, before, chain) && Backed(v.g, v.data[..], chain)
    requires SectorsWritten(v.g, before, v.data[..], chain, firstSector, Next(firstSector, SectorsIn(v.g, k)), input)
    modifies v.data
    ensures Opened(v, first, chain) && Backed(v.g, v.data[..], chain)
    ensures finished <==> lastSector < SectorsIn(v.g, k) + v.g.sectorsPerCluster - 1
    ensures !finished ==>
      && newOffset == SECTOR_SIZE * (Next(firstSector, SectorsIn(v.g, k) + v.g.sectorsPerCluster) - firstSector)
      && SectorsWritten(v.g, before, v.data[..], chain, firstSector, Next(firstSector, SectorsIn(v.g, k) + v.g.sectorsPerCluster), input)
    ensures finished ==> SectorsWritten(v.g, before, v.data[..], chain, firstSector, lastSector + 1, input)
  {
    hide SectorOf, PlaceOf, StartOf, FileSector, IsChain, SectorsWritten, SectorAfter, SectorIndex, ClusterOf,
         PlaceIn, SectorsIn, OtherSectorsKept;
    newOffset := inputOffset;
    for i := 0 to v.g.sectorsPerCluster
      invariant v.Ok() && Backed(v.g, v.data[..], chain)
      invariant SectorsIn(v.g, k) + i <= lastSector + 1
      invariant newOffset == SECTOR_SIZE * (Next(firstSector, SectorsIn(v.g, k) + i) - firstSector)
      invariant SectorsWritten(v.g, before, v.data[..], chain, firstSector, Next(firstSector, SectorsIn(v.g, k) + i), input)
    {
      ghost var s := SectorsIn(v.g, k) + i;
      if i + SectorsIn(v.g, k) > lastSector {
        return true, newOffset;
      }
      if i + SectorsIn(v.g, k) >= firstSector {
        ghost var m := v.data[..];
        SectorFound(v.g, k, i);
        SectorOnChain(v.g, chain, s);
        var sector := input[newOffset..newOffset + SECTOR_SIZE];
        assert sector == InputSector(input, s - firstSector);
        ClusterInRange(v.g, v.fat[..], chain, k);
        OneSectorWritten(v.g, v.fat[..], m, chain, s, sector);
        FatWriteSectorOfCluster(v, c, i, sector);
        WriteOneMore(v.g, before, m, v.data[..], chain, firstSector, s, input);
        newOffset := newOffset + SECTOR_SIZE;
      }
    }
    finished := false;
  }

  lemma ClusterInRange(g: Geometry, entries: seq<nat>, chain: seq<Cluster>, k: nat)
    requires IsChain(g, entries, chain) && k < |chain|
    ensures g.IsCluster(chain[k])
  {
  }

  /** The input is where it belongs, as far as there is room, and the other bytes are as they were. */
  predicate BytesWritten(before: seq<Byte>, after: seq<Byte>, at: nat, input: seq<Byte>) {
    && |after| == |before|
    && forall k :: 0 <= k < |before| ==> after[k] == if at <= k < at + |input| then input[k - at] else before[k]
  }

  lemma SectorsAreBytes(g: Geometry, before: seq<Sector>, after: seq<Sector>, chain: seq<Cluster>, index: nat, count: nat,
                        input: seq<Byte>)
    requires Backed(g, before, chain) && Backed(g, after, chain) && |input| == SECTOR_SIZE * count
    requires SectorsWritten(g, before, after, chain, index, index + count, input)
    ensures BytesWritten(FileBytes(g, before, chain), FileBytes(g, after, chain), 512 * index, input)
  {
    hide FileSector, SectorCount, OtherSectorsKept;
    forall k | 0 <= k < |FileBytes(g, before, chain)|
      ensures FileBytes(g, after, chain)[k] ==
        if 512 * index <= k < 512 * index + |input| then input[k - 512 * index] else FileBytes(g, before, chain)[k]
    {
      var s := k / SECTOR_SIZE;
      assert FileSector(g, after, chain, s) == SectorAfter(FileSector(g, before, chain, s), index, index + count, input, s);
    }
  }

  /**
    Writes whole sectors, cluster by cluster, until they are all written or the chain ends; only
    in the first case does it report success.
  */
  method FatWriteSectorsToFile(v: Volume, first: Cluster, index: nat, input: seq<Byte>, sectorsCount: nat,
                               ghost chain: seq<Cluster>)
    returns (status: nat)
    requires Opened(v, first, chain)
    requires 0 < sectorsCount && |input| == SECTOR_SIZE * sectorsCount && index + sectorsCount <= TWO_TO_32
    modifies v`cache, v`cached, v.data
    ensures Opened(v, first, chain) && Backed(v.g, old(v.data[..]), chain) && Backed(v.g, v.data[..], chain)
    ensures status == WRITTEN <==> index + sectorsCount <= SectorCount(v.g, chain)
    ensures SectorsWritten(v.g, old(v.data[..]), v.data[..], chain, index, index + sectorsCount, input)
    ensures BytesWritten(FileBytes(v.g, old(v.data[..]), chain), FileBytes(v.g, v.data[..], chain), 512 * index, input)
  {
    hide Opened, FileSector, FileBytes, IsChain, SectorsWritten, BytesWritten, ClusterOf, PlaceIn, SectorsIn, Backed;
    ghost var before := v.data[..];
    OpenedBacked(v, first, chain);
    NothingWritten(v.g, before, chain, index, input);
    var firstSector, lastSector := index, index + sectorsCount - 1;
    OpenedGeometry(v, first, chain);
    SectorOnChain(v.g, chain, firstSector);
    SectorOnChain(v.g, chain, lastSector);
    LaterCluster(v.g, firstSector, lastSector);
    var currentClusterIndex, lastCluster := ClusterOf(v.g, firstSector), ClusterOf(v.g, lastSector);
    var c := FollowOpenedToAPoint(v, first, currentClusterIndex, chain);
    var inputOffset := 0;
    while currentClusterIndex <= lastCluster
      invariant Opened(v, first, chain) && Backed(v.g, v.data[..], chain)
      invariant ClusterOf(v.g, firstSector) < currentClusterIndex ==> currentClusterIndex <= |chain|
      invariant currentClusterIndex <= lastCluster + 1 && SectorsIn(v.g, currentClusterIndex) <= lastSector + 1
      invariant chain[|chain| - 1] < v.fat.Length && c == At(v.fat[..], chain, currentClusterIndex)
      invariant inputOffset == SECTOR_SIZE * (Next(index, SectorsIn(v.g, currentClusterIndex)) - index)
      invariant SectorsWritten(v.g, before, v.data[..], chain, index, Next(index, SectorsIn(v.g, currentClusterIndex)), input)
      decreases lastCluster + 1 - currentClusterIndex
    {
      OpenedBacked(v, first, chain);
      EndIsEof(v.g, v.fat[..], chain, currentClusterIndex);
      MoreClusters(v.g, currentClusterIndex, lastCluster);
      if v.IsEof(c) {
        MoreClusters(v.g, |chain|, currentClusterIndex);
        WrittenToTheEnd(v.g, before, v.data[..], chain, index, Next(index, SectorsIn(v.g, currentClusterIndex)),
                        index + sectorsCount, input);
        SectorsAreBytes(v.g, before, v.data[..], chain, index, sectorsCount, input);
        return END_OF_FILE;
      }
      MoreClusters(v.g, currentClusterIndex + 1, |chain|);
      var finished;
      finished, inputOffset := FatWriteSectorsOfOneCluster(v, first, c, currentClusterIndex, firstSector, lastSector,
          input, inputOffset, before, chain);
      if finished {
        SectorsAreBytes(v.g, before, v.data[..], chain, index, sectorsCount, input);
        return WRITTEN;
      }
      c := FollowOpened(v, first, c, currentClusterIndex, chain);
      currentClusterIndex := currentClusterIndex + 1;
    }
    MoreClusters(v.g, lastCluster + 1, |chain|);
    MoreClusters(v.g, lastCluster, lastCluster);
    SectorsAreBytes(v.g, before, v.data[..], chain, index, sectorsCount, input);
    status := WRITTEN;
  }

  lemma OpenedGeometry(v: Volume, first: Cluster, chain: seq<Cluster>)
    requires Opened(v, first, chain)
    ensures v.g.Valid()
  {
  }

  // --- writing bytes

  /** How many bytes a write of `size` bytes takes from its input. */
  function WriteCount(offset: nat, size: nat): (n: nat)
    requires 0 < size
    ensures n >= size
  {
    if (offset + size - 1) % SECTOR_SIZE == 0 then size + SECTOR_SIZE - 1 else size
  }

  /** Bytes with others written over them. */
  function Overwritten(bytes: seq<Byte>, offset: nat, input: seq<Byte>): (r: seq<Byte>)
    requires offset + |input| <= |bytes|
    ensures |r| == |bytes|
  {
    bytes[..offset] + input + bytes[offset + |input|..]
  }

  /** Writing the next piece of the input behind what has been written. */
  lemma OverwriteMore(bytes: seq<Byte>, offset: nat, input: seq<Byte>, written: nat, more: nat)
    requires written + more <= |input| && offset + written + more <= |bytes|
    ensures var b := Overwritten(bytes, offset, input[..written]);
      Overwritten(b, offset + written, input[written..written + more]) == Overwritten(bytes, offset, input[..written + more])
  {
    assert input[..written] + input[written..written + more] == input[..written + more];
  }

  /**
    The bytes behind the range of a write are kept exactly when the last byte written is not the
    first of its sector, or the memory behind the input happens to hold those very bytes.
  */
  lemma BytesBehindKept(bytes: seq<Byte>, offset: nat, size: nat, input: seq<Byte>)
    requires 0 < size && WriteCount(offset, size) <= |input| && offset + WriteCount(offset, size) <= |bytes|
    ensures var n := WriteCount(offset, size);
      Overwritten(bytes, offset, input[..n])[offset + size..] == bytes[offset + size..]
      <==> (offset + size - 1) % SECTOR_SIZE != 0 || input[size..n] == bytes[offset + size..offset + n]
  {
    var n := WriteCount(offset, size);
    var r := Overwritten(bytes, offset, input[..n]);
    assert r[offset + size..offset + n] == input[size..n];
    assert r[offset + size..] == r[offset + size..offset + n] + r[offset + n..];
    assert bytes[offset + size..] == bytes[offset + size..offset + n] + bytes[offset + n..];
    assert r[offset + n..] == bytes[offset + n..];
    if r[offset + size..] == bytes[offset + size..] {
      assert r[offset + size..][..n - size] == r[offset + size..offset + n];
      assert bytes[offset + size..][..n - size] == bytes[offset + size..offset + n];
    }
  }

  /** One sector written is one slice of the bytes overwritten. */
  lemma SectorOverwritten(g: Geometry, before: seq<Sector>, after: seq<Sector>, chain: seq<Cluster>, i: nat,
                          sector: Sector)
    requires Backed(g, before, chain) && Backed(g, after, chain) && i < SectorCount(g, chain) && |sector| == SECTOR_SIZE
    requires SectorsWritten(g, before, after, chain, i, i + 1, sector)
    ensures SECTOR_SIZE * i + SECTOR_SIZE <= |FileBytes(g, before, chain)|
    ensures FileBytes(g, after, chain) == Overwritten(FileBytes(g, before, chain), SECTOR_SIZE * i, sector)
  {
  }

  /** A sector with a piece put into it, as a slice of the bytes overwritten by the piece. */
  lemma PieceOverwritten(bytes: seq<Byte>, at: nat, low: nat, piece: seq<Byte>, sector: Sector)
    requires at + SECTOR_SIZE <= |bytes| && low + |piece| <= SECTOR_SIZE
    requires sector == bytes[at..at + low] + piece + bytes[at + low + |piece|..at + SECTOR_SIZE]
    ensures |sector| == SECTOR_SIZE && Overwritten(bytes, at, sector) == Overwritten(bytes, at + low, piece)
  {
  }

  /** What a write that fails at sector `i` reports as written: that sector is counted in. */
  function CountedIn(offset: nat, size: nat, i: nat): nat
    requires 0 < size && offset / SECTOR_SIZE <= i
  {
    if i == (offset + size - 1) / SECTOR_SIZE then WriteCount(offset, size) else SECTOR_SIZE * (i + 1) - offset
  }

  /** The part of sector `i` that a write reaches: from `low` up to `high`. */
  method WriteLimits(offset: nat, size: nat, i: nat) returns (low: nat, high: nat)
    requires 0 < size && offset / SECTOR_SIZE <= i <= (offset + size - 1) / SECTOR_SIZE
    ensures low < high <= SECTOR_SIZE && SECTOR_SIZE * i + low == Next(offset, SECTOR_SIZE * i)
    ensures i < (offset + size - 1) / SECTOR_SIZE && !(i == offset / SECTOR_SIZE && offset % SECTOR_SIZE != 0) ==> low == 0 && high == SECTOR_SIZE
    ensures SECTOR_SIZE * i + high == offset + CountedIn(offset, size, i) && CountedIn(offset, size, i) <= WriteCount(offset, size)
    ensures SECTOR_SIZE * i + high ==
      if i == (offset + size - 1) / SECTOR_SIZE then offset + WriteCount(offset, size) else Next(offset, SECTOR_SIZE * (i + 1))
  {
    var lastSectorEndOffset := (offset + size - 1) % SECTOR_SIZE;
    if lastSectorEndOffset == 0 {
      lastSectorEndOffset := SECTOR_SIZE - 1;
    }
    low := if i == offset / SECTOR_SIZE then offset % SECTOR_SIZE else 0;
    high := if i == (offset + size - 1) / SECTOR_SIZE then lastSectorEndOffset + 1 else SECTOR_SIZE;
  }

  /** Puts a piece of the input into a sector. */
  method PutInput(sector: Sector, low: nat, high: nat, input: seq<Byte>, written: nat) returns (r: Sector)
    requires low <= high <= |sector| && written + (high - low) <= |input|
    ensures r == sector[..low] + input[written..written + (high - low)] + sector[high..]
  {
    r := sector;
    for j := 0 to high - low
      invariant r == sector[..low] + input[written..written + j] + sector[low + j..]
    {
      r := r[j + low := input[written + j]];
    }
  }

  lemma SectorSlices(bytes: seq<Byte>, at: nat, low: nat, high: nat, sector: Sector)
    requires at + SECTOR_SIZE <= |bytes| && low <= high <= SECTOR_SIZE && sector == bytes[at..at + SECTOR_SIZE]
    ensures sector[..low] == bytes[at..at + low] && sector[high..] == bytes[at + high..at + SECTOR_SIZE]
  {
  }

  /** Bytes with as many of others written over them as there is room for. */
  function Clipped(bytes: seq<Byte>, offset: nat, input: seq<Byte>): (r: seq<Byte>)
    ensures |r| == |bytes|
    ensures offset + |input| <= |bytes| ==> r == Overwritten(bytes, offset, input)
  {
    if offset + |input| <= |bytes| then Overwritten(bytes, offset, input)
    else if offset <= |bytes| then Overwritten(bytes, offset, input[..|bytes| - offset])
    else bytes
  }

  /** A write that fits into its sectors fits with what it takes from the input behind the range. */
  lemma WriteFits(offset: nat, size: nat, sectors: nat)
    requires 0 < size
    ensures offset + size <= SECTOR_SIZE * sectors <==> (offset + size - 1) / SECTOR_SIZE < sectors
    ensures offset + size <= SECTOR_SIZE * sectors ==> offset + WriteCount(offset, size) <= SECTOR_SIZE * sectors
    ensures offset / SECTOR_SIZE <= (offset + size - 1) / SECTOR_SIZE
    ensures Next(offset, SECTOR_SIZE * (offset / SECTOR_SIZE)) == offset && size <= WriteCount(offset, size)
  {
  }

  /** At the first sector behind the chain the write has put down what there is room for. */
  lemma WrittenWhatFits(bytes: seq<Byte>, offset: nat, size: nat, input: seq<Byte>, written: nat, sectors: nat, i: nat)
    requires 0 < size && |bytes| == SECTOR_SIZE * sectors && WriteCount(offset, size) <= |input|
    requires offset / SECTOR_SIZE <= i <= (offset + size - 1) / SECTOR_SIZE && sectors <= i
    requires written == Next(offset, SECTOR_SIZE * i) - offset
    requires offset / SECTOR_SIZE < i ==> i == sectors
    ensures SECTOR_SIZE * i < offset + size && Next(offset / SECTOR_SIZE, sectors) == i
    ensures Clipped(bytes, offset, input[..WriteCount(offset, size)]) ==
      if offset / SECTOR_SIZE == i then bytes else Overwritten(bytes, offset, input[..written])
  {
    hide Overwritten;
    if offset / SECTOR_SIZE == i {
      assert offset >= |bytes|;
      if offset == |bytes| {
        assert input[..WriteCount(offset, size)][..0] == input[..0];
        NothingIn(bytes, offset, input);
      }
    } else {
      assert offset + written == |bytes|;
      assert input[..WriteCount(offset, size)][..written] == input[..written];
    }
  }

  lemma NothingIn(bytes: seq<Byte>, offset: nat, input: seq<Byte>)
    requires offset <= |bytes|
    ensures Overwritten(bytes, offset, input[..0]) == bytes
  {
  }

  lemma NoSectorWritten(g: Geometry, before: seq<Sector>, after: seq<Sector>, chain: seq<Cluster>, i: nat, sector: Sector)
    requires Backed(g, before, chain) && Backed(g, after, chain) && SectorCount(g, chain) <= i
    requires SectorsWritten(g, before, after, chain, i, i + 1, sector)
    ensures FileBytes(g, after, chain) == FileBytes(g, before, chain)
  {
    hide FileSector, SectorCount, OtherSectorsKept;
  }

  /** Writes a piece of the input into sector `i`, which is read first unless the piece fills it. */
  method WritePiece(v: Volume, first: Cluster, i: nat, low: nat, high: nat, filled: bool, input: seq<Byte>, written: nat,
                    beyond: seq<Option<Sector>>, ghost chain: seq<Cluster>) returns (status: nat)
    requires Opened(v, first, chain) && i < TWO_TO_32 && Shown(v.g, beyond)
    requires low < high <= SECTOR_SIZE && written + (high - low) <= |input| && (filled ==> low == 0 && high == SECTOR_SIZE)
    modifies v`cache, v`cached, v.data
    ensures Opened(v, first, chain) && Backed(v.g, old(v.data[..]), chain) && Backed(v.g, v.data[..], chain)
    ensures OtherSectorsKept(v.g, old(v.data[..]), v.data[..], chain)
    ensures status == WRITTEN <==> i < SectorCount(v.g, chain)
    ensures var bytes := FileBytes(v.g, old(v.data[..]), chain);
      if status == WRITTEN then
        && SECTOR_SIZE * i + SECTOR_SIZE <= |bytes|
        && FileBytes(v.g, v.data[..], chain) == Overwritten(bytes, SECTOR_SIZE * i + low, input[written..written + (high - low)])
      else FileBytes(v.g, v.data[..], chain) == bytes
  {
    hide Opened, FileSector, FileBytes, IsChain, SectorsWritten, SectorCount, Backed, Overwritten, OtherSectorsKept, Shown;
    OpenedBacked(v, first, chain);
    ghost var m := v.data[..];
    ghost var bytes := FileBytes(v.g, m, chain);
    var sector: Sector;
    if filled {
      sector := input[written..written + SECTOR_SIZE];
    } else {
      var found := FatReadSectorFromFile(v, first, i, beyond, chain);
      sector := if found.Some? then found.value else EmptySector();
      if i < SectorCount(v.g, chain) {
        SectorBytes(v.g, m, chain, i);
        SectorSlices(bytes, SECTOR_SIZE * i, low, high, sector);
      }
      sector := PutInput(sector, low, high, input, written);
    }
    status := FatWriteSectorsToFile(v, first, i, sector, 1, chain);
    SectorsKept(v.g, m, v.data[..], chain, i, sector);
    if i < SectorCount(v.g, chain) {
      SectorBytes(v.g, m, chain, i);
      PieceOverwritten(bytes, SECTOR_SIZE * i, low, input[written..written + (high - low)], sector);
      SectorOverwritten(v.g, m, v.data[..], chain, i, sector);
    } else {
      NoSectorWritten(v.g, m, v.data[..], chain, i, sector);
    }
  }

  lemma SectorsKept(g: Geometry, before: seq<Sector>, after: seq<Sector>, chain: seq<Cluster>, i: nat, sector: Sector)
    requires Backed(g, before, chain) && Backed(g, after, chain) && SectorsWritten(g, before, after, chain, i, i + 1, sector)
    ensures OtherSectorsKept(g, before, after, chain)
  {
  }

  lemma KeptTwice(g: Geometry, a: seq<Sector>, b: seq<Sector>, c: seq<Sector>, chain: seq<Cluster>)
    requires OtherSectorsKept(g, a, b, chain) && OtherSectorsKept(g, b, c, chain)
    ensures OtherSectorsKept(g, a, c, chain)
  {
    hide SectorIndex;
  }

  lemma NothingChangedYet(g: Geometry, data: seq<Sector>, chain: seq<Cluster>)
    ensures OtherSectorsKept(g, data, data, chain)
  {
  }

  /** Byte by byte: the input is in the range, and in the rest of the last sector if the range ends with its first byte. */
  predicate WrittenAs(before: seq<Byte>, after: seq<Byte>, offset: nat, size: nat, input: seq<Byte>) {
    var n := if (offset + size - 1) % 512 == 0 then size + 511 else size;
    && n <= |input| && |after| == |before|
    && forall k :: 0 <= k < |before| ==> after[k] == if offset <= k < offset + n then input[k - offset] else before[k]
  }

  /** What the caller is told: all that was written, or everything up to the end of the first sector without room. */
  predicate CountedAs(room: nat, offset: nat, size: nat, writtenBytes: nat)
    requires 0 < size
  {
    var n := if (offset + size - 1) % 512 == 0 then size + 511 else size;
    var failed := if offset < room then room / 512 else offset / 512;
    writtenBytes == if offset + size <= room || failed == (offset + size - 1) / 512 then n else 512 * (failed + 1) - offset
  }

  lemma WriteReadsAs(bytes: seq<Byte>, offset: nat, size: nat, input: seq<Byte>, sectors: nat)
    requires 0 < size && WriteCount(offset, size) <= |input| && |bytes| == SECTOR_SIZE * sectors
    ensures WrittenAs(bytes, Clipped(bytes, offset, input[..WriteCount(offset, size)]), offset, size, input)
    ensures offset + size <= |bytes| ==> CountedAs(|bytes|, offset, size, WriteCount(offset, size))
    ensures |bytes| < offset + size ==> offset / SECTOR_SIZE <= Next(offset / SECTOR_SIZE, sectors)
    ensures |bytes| < offset + size ==>
      CountedAs(|bytes|, offset, size, CountedIn(offset, size, Next(offset / SECTOR_SIZE, sectors)))
  {
  }

  /**
    Writes a range of bytes: the sectors that are not written whole are read first.  When the last
    byte of the range is the first of its sector the rest of that sector is written as well.  A
    write that comes to the end of the chain leaves what fitted, and counts in the sector that it
    could not write; so the count exceeds the room exactly when the write has failed.
  */
  method FatWriteFile(v: Volume, first: Cluster, offset: nat, size: nat, input: seq<Byte>, beyond: seq<Option<Sector>>,
                      ghost chain: seq<Cluster>)
    returns (status: nat, writtenBytes: nat)
    requires Opened(v, first, chain) && 0 < size && offset + size <= TWO_TO_32
    requires WriteCount(offset, size) <= |input| && Shown(v.g, beyond)
    modifies v`cache, v`cached, v.data
    ensures Opened(v, first, chain) && Backed(v.g, old(v.data[..]), chain) && Backed(v.g, v.data[..], chain)
    ensures var bytes := FileBytes(v.g, old(v.data[..]), chain);
      && (status == WRITTEN <==> offset + size <= |bytes|)
      && (status == WRITTEN <==> offset + writtenBytes <= |bytes|)
      && writtenBytes == (if status == WRITTEN then WriteCount(offset, size)
                          else CountedIn(offset, size, Next(offset / SECTOR_SIZE, SectorCount(v.g, chain))))
      && FileBytes(v.g, v.data[..], chain) == Clipped(bytes, offset, input[..WriteCount(offset, size)])
    ensures WrittenAs(FileBytes(v.g, old(v.data[..]), chain), FileBytes(v.g, v.data[..], chain), offset, size, input)
    ensures CountedAs(|FileBytes(v.g, v.data[..], chain)|, offset, size, writtenBytes)
    ensures OtherSectorsKept(v.g, old(v.data[..]), v.data[..], chain)
  {
    hide Opened, FileSector, FileBytes, IsChain, SectorsWritten, SectorCount, Backed, OtherSectorsKept, Overwritten, Clipped,
         CountedIn, WriteCount, Next, Shown, WrittenAs, CountedAs;
    OpenedBacked(v, first, chain);
    ghost var before := v.data[..];
    ghost var bytes := FileBytes(v.g, before, chain);
    var startSector, endSector := offset / SECTOR_SIZE, (offset + size - 1) / SECTOR_SIZE;
    WriteFits(offset, size, SectorCount(v.g, chain));
    WriteReadsAs(bytes, offset, size, input, SectorCount(v.g, chain));
    writtenBytes := 0;
    NothingChangedYet(v.g, before, chain);
    var i := startSector;
    while i <= endSector
      invariant Opened(v, first, chain) && Backed(v.g, v.data[..], chain) && startSector <= i <= endSector + 1
      invariant writtenBytes == if i <= endSector then Next(offset, SECTOR_SIZE * i) - offset else WriteCount(offset, size)
      invariant writtenBytes <= WriteCount(offset, size)
      invariant startSector < i ==> i <= SectorCount(v.g, chain) && offset + writtenBytes <= |bytes|
      invariant FileBytes(v.g, v.data[..], chain) == if startSector == i then bytes else Overwritten(bytes, offset, input[..writtenBytes])
      invariant OtherSectorsKept(v.g, before, v.data[..], chain)
    {
      ghost var m := v.data[..];
      var low, high := WriteLimits(offset, size, i);
      ghost var written := writtenBytes;
      var filled := i != endSector && !(i == startSector && offset % SECTOR_SIZE != 0);
      status := WritePiece(v, first, i, low, high, filled, input, writtenBytes, beyond, chain);
      writtenBytes := writtenBytes + (high - low);
      KeptTwice(v.g, before, m, v.data[..], chain);
      if status != WRITTEN {
        WrittenWhatFits(bytes, offset, size, input, written, SectorCount(v.g, chain), i);
        return;
      }
      if i == startSector {
        NothingIn(bytes, offset, input);
      }
      OverwriteMore(bytes, offset, input, written, high - low);
      i := i + 1;
    }
    status := WRITTEN;
    WholeWrite(bytes, offset, input[..writtenBytes]);
  }

  lemma WholeWrite(bytes: seq<Byte>, offset: nat, input: seq<Byte>)
    requires offset + |input| <= |bytes|
    ensures Clipped(bytes, offset, input) == Overwritten(bytes, offset, input)
  {
  }

  /** A write followed by a read of the same range returns what was written; the read sees it through the same chain. */
  method WriteThenRead(v: Volume, first: Cluster, offset: nat, size: nat, input: seq<Byte>, beyond: seq<Option<Sector>>,
                       ghost chain: seq<Cluster>)
    returns (output: seq<Byte>)
    requires Opened(v, first, chain) && 0 < size && Shown(v.g, beyond)
    requires offset + size <= SECTOR_SIZE * SectorCount(v.g, chain) && offset + size <= TWO_TO_32
    requires WriteCount(offset, size) <= |input|
    modifies v`cache, v`cached, v.data
    ensures Opened(v, first, chain) && output == input[..size]
    ensures Backed(v.g, old(v.data[..]), chain) && Backed(v.g, v.data[..], chain)
    ensures var before, after := FileBytes(v.g, old(v.data[..]), chain), FileBytes(v.g, v.data[..], chain);
      && |after| == |before| && offset + size <= |before|
      && after[..offset] == before[..offset]
      && ((offset + size - 1) % SECTOR_SIZE != 0 ==> after[offset + size..] == before[offset + size..])
    ensures OtherSectorsKept(v.g, old(v.data[..]), v.data[..], chain)
  {
    hide Opened, Backed, FileBytes, SectorCount, OtherSectorsKept, Shown;
    var status, written := FatWriteFile(v, first, offset, size, input, beyond, chain);
    WriteFits(offset, size, SectorCount(v.g, chain));
    var failed;
    output, failed := FatReadFile(v, first, offset, size, beyond, chain);
  }
}
