/** Where the clusters of a chain lie on the disk, and which cluster a file offset falls in. */
module ClusterMap {
  import opened FatTypes
  import opened FatEntries
  import opened ChainTheory

  /** First sector of cluster c. */
  function FirstSector(g: Geometry, c: nat): nat
    requires c >= 2
  {
    g.database + Times(c - 2, g.csize)
  }

  /** clust2sect: 0 for a number that is not a cluster. */
  function Clust2Sect(g: Geometry, clst: nat): nat {
    if 2 <= clst < g.nFatent then FirstSector(g, clst) else 0
  }

  lemma {:induction false} TimesMonotone(a: nat, b: nat, d: nat)
    requires a <= b
    ensures Times(a, d) <= Times(b, d)
    ensures a < b ==> Times(a, d) + d <= Times(b, d)
  {
    if a < b { TimesMonotone(a, b - 1, d); }
  }

  /** n / d and n % d by repeated subtraction: keeps division by a variable out of the larger proofs. */
  function Whole(n: nat, d: nat): nat
    requires d > 0
  {
    if n < d then 0 else Whole(n - d, d) + 1
  }

  function Part(n: nat, d: nat): (r: nat)
    requires d > 0
    ensures r < d
  {
    if n < d then n else Part(n - d, d)
  }

  lemma {:induction false} SplitBy(n: nat, d: nat)
    requires d > 0
    ensures n == Times(Whole(n, d), d) + Part(n, d)
    ensures Whole(n, d) == n / d && Part(n, d) == n % d
  {
    if n >= d {
      SplitBy(n - d, d);
      DivMod(n, d, (n - d) / d + 1, (n - d) % d);
    }
  }

  /** Clusters lie inside the data area and do not overlap. */
  lemma ClusterRange(g: Geometry, disk: nat, c: nat)
    requires ValidGeometry(g, disk) && HasEntry(g, c)
    ensures g.database <= FirstSector(g, c) && FirstSector(g, c) + g.csize <= disk
    ensures 0 < g.database && 1 <= g.csize <= 128
  {
    TimesMonotone(c - 2, g.nFatent - 2, g.csize);
  }

  lemma ClustersApart(g: Geometry, c: nat, d: nat)
    requires 2 <= c < d
    ensures FirstSector(g, c) + g.csize <= FirstSector(g, d)
  {
    TimesMonotone(c - 2, d - 2, g.csize);
  }

  /** s, s+1, ..., s+n-1. */
  function Run(s: nat, n: nat): (r: seq<nat>)
    ensures |r| == n && forall i | 0 <= i < n :: r[i] == s + i
  {
    if n == 0 then [] else Run(s, n - 1) + [s + n - 1]
  }

  /** The sectors of a chain, in file order. */
  function SecsOf(g: Geometry, ch: seq<nat>): (r: seq<nat>)
    requires forall i | 0 <= i < |ch| :: ch[i] >= 2
    ensures |r| == Times(|ch|, g.csize)
  {
    if ch == [] then [] else SecsOf(g, ch[..|ch| - 1]) + Run(FirstSector(g, ch[|ch| - 1]), g.csize)
  }

  lemma {:induction false} SecsAt(g: Geometry, ch: seq<nat>, i: nat, j: nat)
    requires (forall k | 0 <= k < |ch| :: ch[k] >= 2) && i < |ch| && j < g.csize
    ensures Times(i, g.csize) + j < Times(i + 1, g.csize) <= |SecsOf(g, ch)|
    ensures SecsOf(g, ch)[Times(i, g.csize) + j] == FirstSector(g, ch[i]) + j
  {
    TimesMonotone(i + 1, |ch|, g.csize);
    if i < |ch| - 1 {
      SecsAt(g, ch[..|ch| - 1], i, j);
    }
  }

  /** Every index of the sector list belongs to one cluster. */
  lemma SecsIndex(g: Geometry, ch: seq<nat>, k: nat) returns (i: nat, j: nat)
    requires (forall i | 0 <= i < |ch| :: ch[i] >= 2) && k < |SecsOf(g, ch)| && g.csize > 0
    ensures i < |ch| && j < g.csize && k == Times(i, g.csize) + j
    ensures SecsOf(g, ch)[k] == FirstSector(g, ch[i]) + j
  {
    hide SecsOf;
    i, j := Whole(k, g.csize), Part(k, g.csize);
    SplitBy(k, g.csize);
    if i >= |ch| { TimesMonotone(|ch|, i, g.csize); }
    SecsAt(g, ch, i, j);
  }

  /** Sectors of a file: inside the data area, no two the same. */
  ghost predicate GoodSecs(g: Geometry, disk: nat, secs: seq<nat>) {
    Distinct(secs) && forall k | 0 <= k < |secs| :: g.database <= secs[k] < disk
  }

  lemma SecsGood(g: Geometry, disk: nat, ch: seq<nat>)
    requires ValidGeometry(g, disk) && Distinct(ch) && forall i | 0 <= i < |ch| :: HasEntry(g, ch[i])
    ensures forall i | 0 <= i < |ch| :: ch[i] >= 2
    ensures GoodSecs(g, disk, SecsOf(g, ch))
  {
    var secs := SecsOf(g, ch);
    forall k: nat | k < |secs| ensures g.database <= secs[k] < disk {
      var i, j := SecsIndex(g, ch, k);
      ClusterRange(g, disk, ch[i]);
    }
    forall k: nat, l: nat | k < l < |secs| ensures secs[k] != secs[l] {
      SecsDiffer(g, ch, k, l);
    }
  }

  lemma SecsDiffer(g: Geometry, ch: seq<nat>, k: nat, l: nat)
    requires g.csize > 0 && Distinct(ch) && forall i | 0 <= i < |ch| :: ch[i] >= 2
    requires k < l < |SecsOf(g, ch)|
    ensures SecsOf(g, ch)[k] != SecsOf(g, ch)[l]
  {
    var i, j := SecsIndex(g, ch, k);
    var i', j' := SecsIndex(g, ch, l);
    if i < i' {
      if ch[i] < ch[i'] { ClustersApart(g, ch[i], ch[i']); } else { ClustersApart(g, ch[i'], ch[i]); }
    } else if i > i' {
      TimesMonotone(i', i, g.csize);
    }
  }

  lemma {:induction false} SecsPrefix(g: Geometry, ch: seq<nat>, k: nat)
    requires (forall i | 0 <= i < |ch| :: ch[i] >= 2) && k <= |ch|
    ensures Times(k, g.csize) <= |SecsOf(g, ch)| && SecsOf(g, ch[..k]) == SecsOf(g, ch)[..Times(k, g.csize)]
  {
    TimesMonotone(k, |ch|, g.csize);
    if k == |ch| {
      assert ch[..k] == ch;
    } else {
      SecsPrefix(g, ch[..|ch| - 1], k);
      assert ch[..|ch| - 1][..k] == ch[..k];
    }
  }

  // ----- File offsets

  /** Position in the chain of the cluster that holds file byte p. */
  function Idx(g: Geometry, p: nat): nat
    requires g.csize > 0
  {
    Whole(p / 512, g.csize)
  }

  /** Sector of byte p within its cluster. */
  function Csect(g: Geometry, p: nat): (r: nat)
    requires g.csize > 0
    ensures r < g.csize
  {
    Part(p / 512, g.csize)
  }

  /** Clusters that a file of n bytes takes. */
  function Clusters(g: Geometry, n: nat): nat
    requires g.csize > 0
  {
    if n == 0 then 0 else Idx(g, n - 1) + 1
  }

  lemma IdxSector(g: Geometry, p: nat)
    requires g.csize > 0
    ensures p / 512 == Times(Idx(g, p), g.csize) + Csect(g, p)
  {
    SplitBy(p / 512, g.csize);
  }

  lemma IdxUnique(g: Geometry, p: nat, i: nat)
    requires g.csize > 0 && Times(i, g.csize) <= p / 512 < Times(i + 1, g.csize)
    ensures Idx(g, p) == i && Csect(g, p) == p / 512 - Times(i, g.csize)
  {
    IdxSector(g, p);
    var k := Idx(g, p);
    if k < i { TimesMonotone(k + 1, i, g.csize); } else if k > i { TimesMonotone(i + 1, k, g.csize); }
  }

  lemma IdxMonotone(g: Geometry, p: nat, q: nat)
    requires g.csize > 0 && p <= q
    ensures Idx(g, p) <= Idx(g, q)
  {
    IdxSector(g, p);
    IdxSector(g, q);
    if Idx(g, q) < Idx(g, p) { TimesMonotone(Idx(g, q) + 1, Idx(g, p), g.csize); }
  }

  /** Stepping over a byte enters the next cluster exactly at a cluster boundary. */
  lemma IdxStep(g: Geometry, p: nat)
    requires g.csize > 0 && p > 0
    ensures p % 512 == 0 && Csect(g, p) == 0 ==> Idx(g, p) == Idx(g, p - 1) + 1
    ensures p % 512 != 0 || Csect(g, p) != 0 ==> Idx(g, p) == Idx(g, p - 1)
  {
    IdxSector(g, p);
    IdxSector(g, p - 1);
    var i := Idx(g, p);
    if p % 512 == 0 && Csect(g, p) == 0 {
      assert i > 0;
      IdxUnique(g, p - 1, i - 1);
    } else {
      IdxUnique(g, p - 1, i);
    }
  }
}
