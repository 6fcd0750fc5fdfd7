/**
  Cluster chains in a file allocation table: each entry holds the next cluster of its file, a value
  from the end-of-file mark on at the end, or zero when the cluster is free (section "FAT Data
  Structure" of the FAT32 File System Specification, version 1.03).  FAT16 and FAT32 differ only in
  the mark and in the number of entries in a sector.
*/
module FatChains {

  type Cluster = nat

  /** Entries per FAT sector, end-of-file mark, number of data clusters and sectors in a cluster. */
  datatype Geometry = Geometry(perSector: nat, eof: nat, clusterCount: nat, sectorsPerCluster: nat)
  {
    predicate Valid() {
      perSector > 0 && sectorsPerCluster > 0 && clusterCount + 2 <= eof
    }

    /** Data clusters are numbered from two. */
    predicate IsCluster(c: nat) {
      2 <= c < clusterCount + 2
    }
  }

  const SECTOR_SIZE: nat := 512

  /** A volume with a root directory of its own is FAT16 above 4084 clusters, and FAT12 up to there. */
  function Fat16(clusterCount: nat, sectorsPerCluster: nat): Geometry
    requires clusterCount > 4084
  {
    Geometry(SECTOR_SIZE / 2, 0xFFF8, clusterCount, sectorsPerCluster)
  }

  function Fat32(clusterCount: nat, sectorsPerCluster: nat): Geometry {
    Geometry(SECTOR_SIZE / 4, 0xFFF_FFF8, clusterCount, sectorsPerCluster)
  }

  /** The clusters of a file in order, from its first to the one with the mark. */
  predicate IsChain(g: Geometry, entries: seq<nat>, chain: seq<Cluster>) {
    && chain != [] && g.Valid() && g.clusterCount + 2 <= |entries|
    && (forall i :: 0 <= i < |chain| ==> g.IsCluster(chain[i]))
    && (forall i :: 0 <= i < |chain| - 1 ==> entries[chain[i]] == chain[i + 1])
    && entries[chain[|chain| - 1]] >= g.eof
  }

  /** A chain that ends has no cycle. */
  lemma {:induction false} ChainDistinct(g: Geometry, entries: seq<nat>, chain: seq<Cluster>, i: nat, j: nat)
    requires IsChain(g, entries, chain) && i < j < |chain|
    ensures chain[i] != chain[j]
    decreases |chain| - j
  {
    assert entries[chain[i]] == chain[i + 1];
    if j + 1 < |chain| {
      assert entries[chain[j]] == chain[j + 1];
      ChainDistinct(g, entries, chain, i + 1, j + 1);
    } else {
      assert g.IsCluster(chain[i + 1]);
    }
  }

  /** The clusters of a chain are not free. */
  lemma ChainNotFree(g: Geometry, entries: seq<nat>, chain: seq<Cluster>, i: nat)
    requires IsChain(g, entries, chain) && i < |chain|
    ensures entries[chain[i]] != 0
  {
    if i + 1 < |chain| {
      assert entries[chain[i]] == chain[i + 1] && g.IsCluster(chain[i + 1]);
    }
  }

  predicate Disjoint(a: seq<Cluster>, b: seq<Cluster>) {
    forall c <- a :: c !in b
  }

  /** Chains whose entries are untouched are still chains. */
  lemma ChainUntouched(g: Geometry, entries: seq<nat>, entries': seq<nat>, chain: seq<Cluster>)
    requires IsChain(g, entries, chain) && |entries'| == |entries|
    requires forall c <- chain :: c < |entries| ==> entries'[c] == entries[c]
    ensures IsChain(g, entries', chain)
  {
    assert forall i :: 0 <= i < |chain| ==> chain[i] in chain;
  }

  // --- truncation

  /** The table when a chain is being cut to its first `k` clusters and those up to `i` have been freed. */
  predicate IsCut(g: Geometry, entries: seq<nat>, entries': seq<nat>, chain: seq<Cluster>, k: nat, i: nat)
    requires k <= i <= |chain|
  {
    && |entries'| == |entries|
    && forall n :: 0 <= n < |entries| ==>
      entries'[n] == if n in chain[k..i] then 0 else if k > 0 && n == chain[k - 1] then g.eof else entries[n]
  }

  /** The table after a chain has been cut to its first `k` clusters. */
  predicate IsTruncated(g: Geometry, entries: seq<nat>, entries': seq<nat>, chain: seq<Cluster>, k: nat)
    requires k <= |chain|
  {
    IsCut(g, entries, entries', chain, k, |chain|)
  }

  lemma CutBegins(g: Geometry, entries: seq<nat>, chain: seq<Cluster>, k: nat)
    requires IsChain(g, entries, chain) && k <= |chain|
    ensures k == 0 ==> IsCut(g, entries, entries, chain, 0, 0)
    ensures k > 0 ==> IsCut(g, entries, entries[chain[k - 1] := g.eof], chain, k, k)
  {
  }

  lemma CutStep(g: Geometry, entries: seq<nat>, m: seq<nat>, chain: seq<Cluster>, k: nat, i: nat)
    requires IsChain(g, entries, chain) && k <= i < |chain| && IsCut(g, entries, m, chain, k, i)
    ensures IsCut(g, entries, m[chain[i] := 0], chain, k, i + 1)
  {
    assert chain[k..i + 1] == chain[k..i] + [chain[i]];
  }

  /** The clusters that have not been freed yet still have their entries. */
  lemma CutUntouched(g: Geometry, entries: seq<nat>, m: seq<nat>, chain: seq<Cluster>, k: nat, i: nat, j: nat)
    requires IsChain(g, entries, chain) && k <= i <= j < |chain| && IsCut(g, entries, m, chain, k, i)
    ensures m[chain[j]] == entries[chain[j]]
  {
    forall x | k <= x < i
      ensures chain[x] != chain[j]
    {
      ChainDistinct(g, entries, chain, x, j);
    }
    if k > 0 {
      ChainDistinct(g, entries, chain, k - 1, j);
    }
  }

  /** The entry of one cluster of a truncated chain. */
  lemma TruncatedEntry(g: Geometry, entries: seq<nat>, entries': seq<nat>, chain: seq<Cluster>, k: nat, i: nat)
    requires IsChain(g, entries, chain) && k <= |chain| && IsTruncated(g, entries, entries', chain, k) && i < |chain|
    ensures g.IsCluster(chain[i]) && chain[i] < |entries'|
    ensures entries'[chain[i]] == if i >= k then 0 else if i == k - 1 then g.eof else entries[chain[i]]
  {
    if i < k {
      forall j | k <= j < |chain|
        ensures chain[i] != chain[j]
      {
        ChainDistinct(g, entries, chain, i, j);
      }
      if i < k - 1 {
        ChainDistinct(g, entries, chain, i, k - 1);
      }
      assert forall x <- chain[k..|chain|] :: chain[i] != x;
    } else {
      assert chain[i] == chain[k..|chain|][i - k];
    }
  }

  /** What is left is the prefix, marked at its end; the rest is free. */
  lemma TruncatedChain(g: Geometry, entries: seq<nat>, entries': seq<nat>, chain: seq<Cluster>, k: nat)
    requires IsChain(g, entries, chain) && k <= |chain| && IsTruncated(g, entries, entries', chain, k)
    ensures k > 0 ==> IsChain(g, entries', chain[..k])
    ensures forall i :: k <= i < |chain| ==> entries'[chain[i]] == 0
  {
    assert |entries'| == |entries|;
    hide IsTruncated;
    forall i | 0 <= i < |chain|
      ensures g.IsCluster(chain[i]) && chain[i] < |entries'|
      ensures entries'[chain[i]] == if i >= k then 0 else if i == k - 1 then g.eof else entries[chain[i]]
    {
      TruncatedEntry(g, entries, entries', chain, k, i);
    }
  }

  /** Truncating one file leaves every other file as it is. */
  lemma TruncatedOthers(g: Geometry, entries: seq<nat>, entries': seq<nat>, chain: seq<Cluster>, k: nat,
                        other: seq<Cluster>)
    requires IsChain(g, entries, chain) && k <= |chain| && IsTruncated(g, entries, entries', chain, k)
    requires IsChain(g, entries, other) && Disjoint(other, chain)
    ensures IsChain(g, entries', other)
  {
    forall c | c in other
      ensures c < |entries| ==> entries'[c] == entries[c]
    {
      assert c !in chain;
      assert k > 0 ==> chain[k - 1] in chain;
    }
    ChainUntouched(g, entries, entries', other);
  }

  // --- growth

  /** The number of free entries from `lo` up to `hi`. */
  function FreeCount(entries: seq<nat>, lo: nat, hi: nat): (n: nat)
    requires lo <= hi <= |entries|
    ensures n <= hi - lo
  {
    if lo == hi then 0 else FreeCount(entries, lo, hi - 1) + if entries[hi - 1] == 0 then 1 else 0
  }

  /** The first free entry from `n` up to `limit`. */
  function FirstFree(entries: seq<nat>, n: nat, limit: nat): (c: nat)
    requires n <= limit <= |entries|
    ensures n <= c <= limit && (c < limit ==> entries[c] == 0)
    ensures forall m :: n <= m < c ==> entries[m] != 0
    decreases limit - n
  {
    if n == limit || entries[n] == 0 then n else FirstFree(entries, n + 1, limit)
  }

  lemma {:induction false} AllFree(entries: seq<nat>, lo: nat, hi: nat)
    requires lo <= hi <= |entries| && forall m :: lo <= m < hi ==> entries[m] == 0
    ensures FreeCount(entries, lo, hi) == hi - lo
  {
    if lo < hi {
      AllFree(entries, lo, hi - 1);
    }
  }

  lemma {:induction false} NoneFree(entries: seq<nat>, lo: nat, hi: nat)
    requires lo <= hi <= |entries|
    ensures (forall m :: lo <= m < hi ==> entries[m] != 0) ==> FreeCount(entries, lo, hi) == 0
  {
    if lo < hi {
      NoneFree(entries, lo, hi - 1);
    }
  }

  /** Taking a free cluster and relinking a used one leaves one free cluster less. */
  lemma {:induction false} FreeCountTaken(entries: seq<nat>, entries': seq<nat>, lo: nat, hi: nat, c: nat)
    requires lo <= hi <= |entries| == |entries'| && c < |entries|
    requires entries[c] == 0 && entries'[c] != 0
    requires forall n :: 0 <= n < |entries| && n != c ==> (entries'[n] == 0 <==> entries[n] == 0)
    ensures FreeCount(entries', lo, hi) == FreeCount(entries, lo, hi) - if lo <= c < hi then 1 else 0
  {
    if lo < hi {
      FreeCountTaken(entries, entries', lo, hi - 1, c);
    }
  }

  /** The table after free clusters have been appended to a chain. */
  predicate IsExtended(g: Geometry, entries: seq<nat>, entries': seq<nat>, chain: seq<Cluster>, added: seq<Cluster>) {
    && IsChain(g, entries, chain) && |entries'| == |entries|
    && IsChain(g, entries', chain + added)
    && (forall c <- added :: c < |entries| && entries[c] == 0)
    && (forall n :: 0 <= n < |entries| && n !in added && n != chain[|chain| - 1] ==> entries'[n] == entries[n])
  }

  lemma NothingAdded(g: Geometry, entries: seq<nat>, chain: seq<Cluster>)
    requires IsChain(g, entries, chain)
    ensures IsExtended(g, entries, entries, chain, [])
  {
    assert chain + [] == chain;
  }

  /** Appending one more free cluster. */
  lemma AppendOne(g: Geometry, entries: seq<nat>, m: seq<nat>, chain: seq<Cluster>, added: seq<Cluster>, c: Cluster)
    requires IsExtended(g, entries, m, chain, added) && g.IsCluster(c) && m[c] == 0
    ensures var last := (chain + added)[|chain + added| - 1];
      && last < |m| && last != c && m[last] != 0
      && IsExtended(g, entries, m[c := g.eof][last := c], chain, added + [c])
  {
    var whole := chain + added;
    var last := whole[|whole| - 1];
    var m' := m[c := g.eof][last := c];
    forall i | 0 <= i < |whole|
      ensures whole[i] != c && (i < |whole| - 1 ==> whole[i] != last)
    {
      ChainNotFree(g, m, whole, i);
      if i < |whole| - 1 {
        ChainDistinct(g, m, whole, i, |whole| - 1);
      }
    }
    assert chain + (added + [c]) == whole + [c];
    assert whole[|chain| - 1] == chain[|chain| - 1];
    assert c !in added by {
      forall k | 0 <= k < |added|
        ensures added[k] != c
      {
        assert whole[|chain| + k] == added[k];
      }
    }
    assert entries[c] == 0;
    forall n | 0 <= n < |entries| && n !in added + [c] && n != chain[|chain| - 1]
      ensures m'[n] == entries[n]
    {
      assert n !in added && n != c;
      assert last == chain[|chain| - 1] || last in added;
    }
  }

  /** Growing one file leaves every other file as it is: what it takes was free. */
  lemma ExtendedOthers(g: Geometry, entries: seq<nat>, entries': seq<nat>, chain: seq<Cluster>, added: seq<Cluster>,
                       other: seq<Cluster>)
    requires IsExtended(g, entries, entries', chain, added)
    requires IsChain(g, entries, other) && Disjoint(other, chain)
    ensures IsChain(g, entries', other) && Disjoint(other, chain + added)
  {
    forall c | c in other
      ensures c < |entries| ==> entries'[c] == entries[c]
      ensures c !in chain + added
    {
      var i :| 0 <= i < |other| && other[i] == c;
      ChainNotFree(g, entries, other, i);
      assert c !in chain;
    }
    ChainUntouched(g, entries, entries', other);
  }

  /**
    The table after free clusters have been linked to the reserved entry zero, which no file's chain
    leads to: they are lost.
  */
  predicate IsStrayed(g: Geometry, entries: seq<nat>, entries': seq<nat>, lost: seq<Cluster>) {
    && g.Valid() && |entries'| == |entries| && g.clusterCount + 2 <= |entries|
    && (if lost == [] then entries' == entries else IsChain(g, entries', lost) && entries'[0] == lost[0])
    && (forall c <- lost :: c < |entries| && entries[c] == 0)
    && (forall n :: 0 < n < |entries| && n !in lost ==> entries'[n] == entries[n])
  }

  /** One more cluster is lost. */
  lemma StrayOne(g: Geometry, entries: seq<nat>, m: seq<nat>, lost: seq<Cluster>, c: Cluster)
    requires IsStrayed(g, entries, m, lost) && g.IsCluster(c) && m[c] == 0 && entries[0] != 0
    ensures var last := if lost == [] then 0 else lost[|lost| - 1];
      && last < |m| && last != c && m[last] != 0
      && IsStrayed(g, entries, m[c := g.eof][last := c], lost + [c])
  {
    hide IsExtended;
    if lost == [] {
      assert IsChain(g, m[c := g.eof][0 := c], [c]);
    } else {
      NothingAdded(g, m, lost);
      AppendOne(g, m, m, lost, [], c);
      assert lost + [] == lost && [] + [c] == [c];
      StrayedFurther(g, entries, m, m[c := g.eof][lost[|lost| - 1] := c], lost, c);
    }
  }

  lemma StrayedFurther(g: Geometry, entries: seq<nat>, m: seq<nat>, m': seq<nat>, lost: seq<Cluster>, c: Cluster)
    requires IsStrayed(g, entries, m, lost) && lost != [] && g.IsCluster(c) && m[c] == 0 && entries[0] != 0
    requires IsExtended(g, m, m', lost, [c])
    ensures IsStrayed(g, entries, m', lost + [c])
  {
    assert c !in lost by {
      forall i | 0 <= i < |lost|
        ensures lost[i] != c
      {
        ChainNotFree(g, m, lost, i);
      }
    }
    assert entries[c] == 0;
    assert lost[|lost| - 1] in lost;
  }

  /** Losing free clusters leaves every file as it is. */
  lemma StrayedOthers(g: Geometry, entries: seq<nat>, entries': seq<nat>, lost: seq<Cluster>, other: seq<Cluster>)
    requires IsStrayed(g, entries, entries', lost) && IsChain(g, entries, other)
    ensures IsChain(g, entries', other) && Disjoint(other, lost)
  {
    forall c | c in other
      ensures c < |entries| && entries'[c] == entries[c] && c !in lost
    {
      var i :| 0 <= i < |other| && other[i] == c;
      ChainNotFree(g, entries, other, i);
      assert g.IsCluster(c);
    }
    ChainUntouched(g, entries, entries', other);
  }

  // --- sizes

  const TWO_TO_32: nat := 0x1_0000_0000

  /** The number of clusters computed for a size, in 32 bits. */
  function ClustersFor(size: nat, clusterSize: nat): nat
    requires clusterSize > 0
  {
    (size + clusterSize - 1) % TWO_TO_32 / clusterSize
  }

  /** The least number of clusters that hold a size. */
  predicate IsCeiling(size: nat, clusterSize: nat, n: nat) {
    (n * clusterSize >= size) && (n > 0 ==> (n - 1) * clusterSize < size)
  }

  /** The computed number is the ceiling exactly when the rounding does not leave 32 bits. */
  lemma ClustersExact(size: nat, clusterSize: nat)
    requires 0 < clusterSize && size < TWO_TO_32 && clusterSize <= TWO_TO_32
    ensures IsCeiling(size, clusterSize, ClustersFor(size, clusterSize)) <==> size + clusterSize - 1 < TWO_TO_32
  {
    var x := size + clusterSize - 1;
    if x < TWO_TO_32 {
      DivisionBounds(x, clusterSize);
    } else {
      SmallQuotient(x - TWO_TO_32, clusterSize);
    }
  }

  /** For the largest size a directory entry can record no cluster at all is computed. */
  lemma LargestSizeWraps()
    ensures ClustersFor(0xFFFF_FFFF, 512) == 0 && !IsCeiling(0xFFFF_FFFF, 512, ClustersFor(0xFFFF_FFFF, 512))
  {
    ClustersExact(0xFFFF_FFFF, 512);
  }

  lemma SmallQuotient(x: nat, d: nat)
    requires x < d
    ensures x / d == 0
  {
  }

  lemma DivisionBounds(x: nat, d: nat)
    requires d > 0
    ensures x / d * d <= x < x / d * d + d
    ensures x / d > 0 ==> (x / d - 1) * d == x / d * d - d
  {
    assert x == x / d * d + x % d;
  }
}
