/** Directory tables: positioning, iteration, search, registration and removal of entries. */
module Directory {
  import opened FatTypes
  import opened Window
  import opened FatEntries
  import opened FatAccess
  import opened ChainTheory
  import opened Chains
  import opened ClusterMap
  import opened FileMap
  import opened FileObject
  import opened FileSeek

  /** Largest directory table in bytes. */
  const MAX_DIR: nat := 0x20_0000

  /** Start cluster of the table, 0 for the static root of FAT12/16. */
  function TableStart(g: Geometry, sclust: dword): nat
  {
    if sclust == 0 && g.fsType == FAT32 then g.dirbase else sclust
  }

  /** chain and secs are the clusters and sectors of the table that starts at sclust (0: the root). */
  ghost predicate TableOk(g: Geometry, disk: nat, fat: seq<nat>, sclust: dword, chain: seq<nat>, secs: seq<nat>) {
    && g.csize > 0
    && if TableStart(g, sclust) == 0
       then chain == [] && g.fsType != FAT32 && RootOk(g) && secs == Run(g.dirbase, g.nRootdir / 16)
       else chain != [] && Linked(fat, chain) && chain[0] == TableStart(g, sclust) && SecsAre(g, disk, chain, secs)
  }

  /** The sectors of a table that can be reached: what lies beyond the largest table is never looked at. */
  function Reach(secs: seq<nat>): (r: seq<nat>)
    ensures r <= secs && |r| <= 4096 && (|secs| <= 4096 ==> r == secs)
    ensures forall i | 0 <= i < |r| :: r[i] == secs[i]
  {
    if |secs| <= 4096 then secs else secs[..4096]
  }

  class Dir {
    const fs: Fatfs
    const sclust: dword     // start of the table, 0: root directory
    var dptr: nat           // offset of the current entry
    var clust: dword        // its cluster, 0 in the static root
    var sect: dword         // its sector
    var attr: byte          // attribute of the entry found
    var fn: seq<byte>       // name looked for

    ghost var chain: seq<nat>
    ghost var secs: seq<nat>

    constructor (fs: Fatfs, sclust: dword, fn: seq<byte>, ghost chain: seq<nat>, ghost secs: seq<nat>)
      ensures this.fs == fs && this.sclust == sclust && this.fn == fn && this.chain == chain && this.secs == secs
    {
      this.fs, this.sclust, this.fn, this.chain, this.secs := fs, sclust, fn, chain, secs;
      dptr, clust, sect, attr := 0, 0, 0, 0;
    }

    ghost predicate Table()
      reads `chain, `secs, fs`fat, fs`vol
    {
      TableOk(fs.geo, |fs.vol|, fs.fat, sclust, chain, secs)
    }

    /** The current entry is the one at offset dptr of the table. */
    ghost predicate At()
      reads `dptr, `clust, `sect, `chain, `secs
    {
      dptr % 32 == 0 && dptr < MAX_DIR && OnEntry(this, dptr)
    }
  }

  /** Cluster and sector are those of offset p of the table. */
  ghost predicate OnEntry(d: Dir, p: nat)
    reads d`clust, d`sect, d`chain, d`secs
  {
    && d.fs.geo.csize > 0 && p / 512 < |d.secs| && d.sect == d.secs[p / 512]
    && if d.chain == [] then d.clust == 0
       else Idx(d.fs.geo, p) < |d.chain| && d.clust == d.chain[Idx(d.fs.geo, p)]
  }

  /** The position is a function of the offset: two ways to the same offset lead to the same entry. */
  lemma AtUnique(d: Dir, e: Dir)
    requires d.fs == e.fs && d.chain == e.chain && d.secs == e.secs && d.At() && e.At() && d.dptr == e.dptr
    ensures d.sect == e.sect && d.clust == e.clust
  {
  }

  /** Sector lists of a table: inside the disk, outside the FATs, all different. */
  lemma TableSecs(g: Geometry, disk: nat, fat: seq<nat>, sclust: dword, chain: seq<nat>, secs: seq<nat>)
    requires ValidGeometry(g, disk) && TableOk(g, disk, fat, sclust, chain, secs)
    ensures forall i, j | 0 <= i < j < |secs| :: secs[i] != secs[j]
    ensures forall i | 0 <= i < |secs| ::
      0 < secs[i] < disk < 0x1_0000_0000 && !InFat(g, secs[i]) && !Shadow(g, secs[i])
    ensures chain != [] ==> |secs| == Times(|chain|, g.csize)
  {
    hide Linked, SecsOf, Times, FatBytes;
  }

  // ----- dir_sdi

  /** Where an offset of a cluster-chained table lies. */
  lemma DynamicPosition(g: Geometry, disk: nat, chain: seq<nat>, secs: seq<nat>, ofs: nat)
    requires ValidGeometry(g, disk) && SecsAre(g, disk, chain, secs) && g.csize > 0
    ensures ofs / 512 < |secs| <==> Idx(g, ofs) < |chain|
    ensures ofs / 512 < |secs| ==> secs[ofs / 512] == FirstSector(g, chain[Idx(g, ofs)]) + Csect(g, ofs)
  {
    hide GoodSecs, ValidGeometry, SecsOf;
    IdxSector(g, ofs);
    if Idx(g, ofs) < |chain| {
      SecsAt(g, chain, Idx(g, ofs), Csect(g, ofs));
    } else {
      TimesMonotone(|chain|, Idx(g, ofs), g.csize);
    }
  }

  /** Offsets left over after i clusters. */
  lemma Leftover(g: Geometry, ofs0: nat, ofs: nat, i: nat)
    requires g.csize > 0 && ofs0 == ClusterStart(g, i) + ofs
    ensures ofs < Bcs(g) ==> Idx(g, ofs0) == i && Csect(g, ofs0) == ofs / 512
    ensures ofs >= Bcs(g) ==> Idx(g, ofs0) > i && ofs0 == ClusterStart(g, i + 1) + (ofs - Bcs(g))
  {
    var t := Times(i, g.csize);
    assert ofs0 / 512 == t + ofs / 512;
    if ofs < Bcs(g) { IdxUnique(g, ofs0, i); }
    IdxSector(g, ofs0);
    if ofs >= Bcs(g) && Idx(g, ofs0) <= i { TimesMonotone(Idx(g, ofs0), i, g.csize); }
  }

  /** Follows the cluster chain of the table to offset ofs0. */
  method FollowTable(d: Dir, ofs0: nat) returns (res: FResult, clst: dword, ofs: nat)
    requires Valid(d.fs) && d.Table() && d.chain != []
    modifies d.fs`winsect, d.fs`wflag, d.fs.win, d.fs.disk`img
    ensures Valid(d.fs) && d.Table()
    ensures res == OK || res == IntErr || (res == DiskErr && !d.fs.disk.reliable)
    ensures res == IntErr ==> Idx(d.fs.geo, ofs0) >= |d.chain|
    ensures res == OK ==>
      Idx(d.fs.geo, ofs0) < |d.chain| && clst == d.chain[Idx(d.fs.geo, ofs0)] &&
      ofs / 512 == Csect(d.fs.geo, ofs0)
    ensures WindowMoved(d.fs.geo, old(d.fs.winsect), d.fs.winsect)
    ensures !old(d.fs.wflag) ==> !d.fs.wflag && d.fs.disk.img == old(d.fs.disk.img)
  {
    hide Valid, SecsAre, Linked, Idx, Csect, RootOk;
    GeoFacts(d.fs);
    ChainHead(d.fs.fat, d.chain);
    clst, ofs := TableStart(d.fs.geo, d.sclust), ofs0;
    ghost var i := 0;
    Leftover(d.fs.geo, ofs0, ofs, 0);
    while ofs >= Bcs(d.fs.geo)
      invariant Valid(d.fs) && d.Table() && i < |d.chain| && clst == d.chain[i]
      invariant ofs0 == ClusterStart(d.fs.geo, i) + ofs
      invariant WindowMoved(d.fs.geo, old(d.fs.winsect), d.fs.winsect)
      invariant !old(d.fs.wflag) ==> !d.fs.wflag && d.fs.disk.img == old(d.fs.disk.img)
      decreases ofs
    {
      ChainStep(d.fs.fat, d.chain, i);
      Leftover(d.fs.geo, ofs0, ofs, i);
      clst := GetFat(d.fs, clst);
      if clst == ERR32 { return DiskErr, 0, 0; }
      if clst < 2 || clst >= d.fs.geo.nFatent { return IntErr, 0, 0; }
      i, ofs := i + 1, ofs - Bcs(d.fs.geo);
    }
    Leftover(d.fs.geo, ofs0, ofs, i);
    res := OK;
  }

  lemma ChainHead(fat: seq<nat>, chain: seq<nat>)
    requires chain != [] && Linked(fat, chain)
    ensures Cluster(fat, chain[0])
  {
  }

  /** dir_sdi: fails exactly for an offset that is not the start of an entry of the table. */
  method DirSdi(d: Dir, ofs: nat) returns (res: FResult)
    requires Valid(d.fs) && d.Table()
    modifies d`dptr, d`clust, d`sect, d.fs`winsect, d.fs`wflag, d.fs.win, d.fs.disk`img
    ensures Valid(d.fs) && d.Table()
    ensures res == OK || res == IntErr || (res == DiskErr && !d.fs.disk.reliable)
    ensures res == IntErr ==> ofs >= MAX_DIR || ofs % 32 != 0 || ofs / 512 >= |d.secs|
    ensures res == OK ==> ofs < MAX_DIR && d.At() && d.dptr == ofs
    ensures WindowMoved(d.fs.geo, old(d.fs.winsect), d.fs.winsect)
    ensures !old(d.fs.wflag) ==> !d.fs.wflag && d.fs.disk.img == old(d.fs.disk.img)
  {
    hide Valid, SecsAre, Linked, Idx, Csect;
    GeoFacts(d.fs);
    if ofs >= MAX_DIR || ofs % 32 != 0 { return IntErr; }
    d.dptr := ofs;
    TableSecs(d.fs.geo, |d.fs.vol|, d.fs.fat, d.sclust, d.chain, d.secs);
    if TableStart(d.fs.geo, d.sclust) == 0 {
      if ofs / 32 >= d.fs.geo.nRootdir { return IntErr; }
      StaticPosition(d.fs.geo, d.secs, ofs);
      d.clust := 0;
      d.sect := d.fs.geo.dirbase + ofs / 512;
    } else {
      DynamicPosition(d.fs.geo, |d.fs.vol|, d.chain, d.secs, ofs);
      var clst, left;
      res, clst, left := FollowTable(d, ofs);
      if res != OK { return; }
      ChainInside(d.fs, d.chain, Idx(d.fs.geo, ofs));
      d.clust := clst;
      d.sect := Clust2Sect(d.fs.geo, clst) + left / 512;
    }
    res := OK;
  }

  lemma StaticPosition(g: Geometry, secs: seq<nat>, ofs: nat)
    requires secs == Run(g.dirbase, g.nRootdir / 16) && g.nRootdir % 16 == 0
    ensures ofs / 32 < g.nRootdir <==> ofs / 512 < |secs|
    ensures ofs / 512 < |secs| ==> secs[ofs / 512] == g.dirbase + ofs / 512
  {
  }

  lemma ChainInside(fs: Fatfs, chain: seq<nat>, i: nat)
    requires Valid(fs) && Linked(fs.fat, chain) && i < |chain|
    ensures HasEntry(fs.geo, chain[i]) && Clust2Sect(fs.geo, chain[i]) == FirstSector(fs.geo, chain[i])
  {
    hide Entry, Times;
    assert Cluster(fs.fat, chain[i]);
  }

  // ----- dir_next

  /** The table after it was stretched by one cluster of zeros. */
  ghost predicate TableGrew(d: Dir, chainWas: seq<nat>, secsWas: seq<nat>, fatWas: seq<nat>, volWas: seq<Sector>)
    reads d`chain, d`secs, d.fs`fat, d.fs`vol
  {
    && |d.chain| == |chainWas| + 1 && chainWas != [] && secsWas < d.secs && |d.secs| <= 4096 &&
      Grown(fatWas, chainWas, d.fs.fat, d.chain)
    && Outside(d.fs.geo, d.secs[|secsWas|..], volWas, d.fs.vol)
    && forall i | |secsWas| <= i < |d.secs| :: d.secs[i] < |d.fs.vol| && AllZero(d.fs.vol[d.secs[i]])
  }

  /** The table was stretched to have an entry at offset p, the first one of the new cluster. */
  ghost predicate GrewFor(d: Dir, p: nat, chainWas: seq<nat>, secsWas: seq<nat>, fatWas: seq<nat>, volWas: seq<Sector>)
    reads d`chain, d`secs, d.fs`fat, d.fs`vol
  {
    TableGrew(d, chainWas, secsWas, fatWas, volWas) && p / 512 == |secsWas|
  }

  predicate AllZero(s: Sector) { forall j | 0 <= j < 512 :: s[j] == 0 }

  /** The volume as every allocation needs it. */
  ghost predicate Usable(fs: Fatfs)
    reads fs`winsect, fs`wflag, fs`vol, fs`fat, fs`freeClst, fs`promise, fs`fsiCount, fs`fsiFlag, fs.win, fs.disk
  {
    Valid(fs) && FreeCountOk(fs) && NoOnes(fs.fat) && fs.promise == NoPromise()
  }

  /** Clears the window and lets it show sector s, to be written. */
  method BlankWindow(fs: Fatfs, s: dword)
    requires Valid(fs) && !fs.wflag && fs.geo.database <= s < |fs.vol| && s !in fs.promise.secs
    modifies fs`winsect, fs`wflag, fs`vol, fs.win
    ensures Valid(fs) && fs.winsect == s && |fs.vol| == |old(fs.vol)|
    ensures AllZero(fs.vol[s]) && fs.win[..] == fs.vol[s] && forall r: nat | r < |fs.vol| && r != s ::
      fs.vol[r] == old(fs.vol)[r]
  {
    hide Entry, ValidGeometry;
    Areas(fs.geo, |fs.vol|);
    ghost var was, img := fs.vol, fs.disk.img;
    forall i | 0 <= i < 512 { fs.win[i] := 0; }
    fs.winsect, fs.wflag := s, true;
    fs.vol := fs.vol[s := fs.win[..]];
    DecodesFrame(fs.geo, was, fs.vol, fs.fat);
    HeldFrame(fs, was, img);
  }

  /** Fills a new cluster with zeros through the window, which ends up at its first sector. */
  method ZeroCluster(fs: Fatfs, clst: dword) returns (res: FResult)
    requires Valid(fs) && HasEntry(fs.geo, clst) && fs.promise.secs == map[]
    modifies fs`winsect, fs`wflag, fs`vol, fs.win, fs.disk`img
    ensures Valid(fs) && |fs.vol| == |old(fs.vol)|
    ensures res == OK || (res == DiskErr && !fs.disk.reliable)
    ensures forall r: nat | r < |fs.vol| && !InCluster(fs.geo, clst, r) :: fs.vol[r] == old(fs.vol)[r]
    ensures res == OK ==> forall r: nat | r < |fs.vol| && InCluster(fs.geo, clst, r) :: AllZero(fs.vol[r])
    ensures res == OK ==> fs.winsect == FirstSector(fs.geo, clst) && !fs.wflag
  {
    hide Valid, AllZero, FirstSector;
    GeoFacts(fs);
    ClusterRange(fs.geo, |fs.vol|, clst);
    res := SyncValid(fs);
    if res != OK { return; }
    var first: dword := FirstSector(fs.geo, clst);
    var n := 0;
    while n < fs.geo.csize
      invariant Valid(fs) && !fs.wflag && n <= fs.geo.csize && |fs.vol| == |old(fs.vol)|
      invariant forall r: nat | r < |fs.vol| && !InCluster(fs.geo, clst, r) :: fs.vol[r] == old(fs.vol)[r]
      invariant forall r: nat | first <= r < first + n :: AllZero(fs.vol[r])
      invariant n > 0 ==> fs.win[..] == fs.vol[first]
    {
      // the window stays cleared from one round to the next
      BlankWindow(fs, first + n);
      SameZeros(fs.vol[first], fs.vol[first + n]);
      res := SyncValid(fs);
      if res != OK { return; }
      n := n + 1;
    }
    WindowBack(fs, first);
    res := OK;
  }

  lemma SameZeros(s: Sector, t: Sector)
    ensures AllZero(s) && AllZero(t) ==> s == t
  {
  }

  method SyncValid(fs: Fatfs) returns (res: FResult)
    requires Valid(fs)
    modifies fs`wflag, fs.disk`img
    ensures Valid(fs)
    ensures res == OK || (res == DiskErr && !fs.disk.reliable)
    ensures res == OK ==> !fs.wflag
  {
    hide Entry, ValidGeometry;
    res := FlushWindow(fs);
  }

  /** The window holds zeros, so it may claim to show any all-zero sector. */
  method WindowBack(fs: Fatfs, s: dword)
    requires Valid(fs) && !fs.wflag && fs.geo.database <= s < |fs.vol| && fs.win[..] == fs.vol[s]
    modifies fs`winsect
    ensures Valid(fs) && fs.winsect == s
  {
    hide Entry, ValidGeometry;
    Areas(fs.geo, |fs.vol|);
    fs.winsect := s;
  }

  /** The sectors of an appended cluster are the new ones. */
  lemma SecsPlus(g: Geometry, chain: seq<nat>, n: nat)
    requires (forall i | 0 <= i < |chain| :: chain[i] >= 2) && n >= 2
    ensures SecsOf(g, chain + [n]) == SecsOf(g, chain) + Run(FirstSector(g, n), g.csize)
  {
    assert (chain + [n])[..|chain|] == chain;
  }

  lemma RoomForOneMore(n: nat, d: nat)
    requires ClusterSize(d) && Times(n, d) < 4096
    ensures Times(n + 1, d) <= 4096
  {
    TimesIsProduct(n, d);
  }

  /** The table with cluster n appended, on values. */
  lemma AppendedTable(g: Geometry, disk: nat, fat: seq<nat>, sclust: dword, chain: seq<nat>, secs: seq<nat>, n: nat,
                      eoc: nat, f: seq<nat>)
    requires ValidGeometry(g, disk) && |fat| == g.nFatent && eoc >= |fat| && NoOnes(fat) && Free(fat, n)
    requires TableOk(g, disk, fat, sclust, chain, secs) && chain != [] && |secs| < 4096
    requires Cluster(fat, chain[|chain| - 1]) && f == fat[n := eoc][chain[|chain| - 1] := n]
    ensures n >= 2 && TableOk(g, disk, f, sclust, chain + [n], secs + Run(FirstSector(g, n), g.csize))
    ensures |secs| + g.csize <= 4096
    ensures Grown(fat, chain, f, chain + [n]) && NoOnes(f)
  {
    hide SecsOf, Run, Times, FatBytes, NoOnes, Grown;
    ChainGrow(fat, chain, chain[0], n, eoc);
    ChainSecs(g, disk, f, chain + [n]);
    SecsPlus(g, chain, n);
    RoomForOneMore(|chain|, g.csize);
  }

  ghost method GrowGhosts(d: Dir, fat: seq<nat>, n: nat, vol: seq<Sector>, mid: seq<Sector>)
    requires Valid(d.fs) && FreeCountOk(d.fs) && TableOk(d.fs.geo, |vol|, fat, d.sclust, d.chain, d.secs) &&
      d.chain != [] && |d.secs| < 4096
    requires NoOnes(fat) && Free(fat, n) && Cluster(fat, d.chain[|d.chain| - 1]) && d.fs.promise == NoPromise()
    requires d.fs.fat == Taken(fat, d.chain[|d.chain| - 1], n, Eoc(d.fs.geo.fsType))
    requires |mid| == |vol| == |d.fs.vol| && SameOutsideFat(d.fs.geo, vol, mid)
    requires forall r: nat | r < |mid| && !InCluster(d.fs.geo, n, r) :: d.fs.vol[r] == mid[r]
    requires forall r: nat | r < |mid| && InCluster(d.fs.geo, n, r) :: AllZero(d.fs.vol[r])
    modifies d`chain, d`secs
    ensures Usable(d.fs) && d.Table() && d.chain == old(d.chain) + [n]
    ensures TableGrew(d, old(d.chain), old(d.secs), fat, vol)
  {
    hide Valid, FreeCountOk, NoOnes, Linked, SecsOf, Eoc, FirstSector, AllZero, Grown;
    GeoFacts(d.fs);
    ValidFacts(d.fs);
    AppendedTable(d.fs.geo, |vol|, fat, d.sclust, d.chain, d.secs, n, Eoc(d.fs.geo.fsType), d.fs.fat);
    ClusterRange(d.fs.geo, |vol|, n);
    ghost var added := Run(FirstSector(d.fs.geo, n), d.fs.geo.csize);
    ghost var was := d.secs;
    d.chain, d.secs := d.chain + [n], d.secs + added;
    assert d.secs[|was|..] == added;
    forall i | |was| <= i < |d.secs| ensures InCluster(d.fs.geo, n, d.secs[i]) {}
    forall r: nat | InCluster(d.fs.geo, n, r) ensures r in added { assert added[r - FirstSector(d.fs.geo, n)] == r; }
  }

  /** Stretches the table by one cluster of zeros; 0: no free cluster. */
  method StretchTable(d: Dir) returns (res: FResult, clst: dword)
    requires Usable(d.fs) && d.Table() && d.chain != [] && d.clust == d.chain[|d.chain| - 1] && |d.secs| < 4096
    modifies d`chain, d`secs, d.fs`winsect, d.fs`wflag, d.fs`vol, d.fs`fat, d.fs`lastClst, d.fs`freeClst, d.fs`fsiFlag
    modifies d.fs.win, d.fs.disk`img
    ensures res == OK || res == Denied || (res == DiskErr && !d.fs.disk.reliable)
    ensures res == Denied ==> Usable(d.fs) && d.Table() && CountFree(d.fs.fat) == 0
    ensures res == Denied ==>
      d.chain == old(d.chain) && d.secs == old(d.secs) && d.fs.fat == old(d.fs.fat) &&
      d.fs.vol == old(d.fs.vol)
    ensures res == OK ==> Usable(d.fs) && d.Table() && clst == d.chain[|d.chain| - 1]
    ensures res == OK ==> TableGrew(d, old(d.chain), old(d.secs), old(d.fs.fat), old(d.fs.vol)) && !d.fs.wflag
    ensures res == OK ==> CountFree(d.fs.fat) == old(CountFree(d.fs.fat)) - 1 && HasEntry(d.fs.geo, clst)
  {
    hide Valid, FreeCountOk, NoOnes, SecsAre, Linked, NearestFree, Eoc, FirstSector, AllZero, Grown, CountFree;
    GeoFacts(d.fs);
    ChainStep(d.fs.fat, d.chain, |d.chain| - 1);
    ghost var fat, vol, last := d.fs.fat, d.fs.vol, d.clust;
    res := OK;
    clst := CreateChain(d.fs, d.clust);
    if clst == 0 { return Denied, 0; }
    if clst == 1 { res := IntErr; return; }
    if clst == ERR32 { return DiskErr, 0; }
    ValidFacts(d.fs);
    NearestIsFree(fat, old(ScanStart(d.fs, d.clust)), clst);
    TakenCount(fat, d.clust, clst, Eoc(d.fs.geo.fsType));
    ghost var mid := d.fs.vol;
    res := ZeroCluster(d.fs, clst);
    if res != OK { return DiskErr, 0; }
    GrowGhosts(d, fat, clst, vol, mid);
  }

  /** Nothing of the table has moved. */
  twostate predicate SameTable(d: Dir)
    reads d`chain, d`secs, d.fs`fat, d.fs`vol
  {
    d.chain == old(d.chain) && d.secs == old(d.secs) && d.fs.fat == old(d.fs.fat) && d.fs.vol == old(d.fs.vol)
  }

  /** What dir_next knows at the end of a cluster. */
  lemma NextFacts(d: Dir)
    requires Usable(d.fs) && d.Table() && d.chain != [] && d.dptr + 32 < MAX_DIR && (d.dptr + 32) % 512 == 0
    requires Idx(d.fs.geo, d.dptr) < |d.chain| && d.clust == d.chain[Idx(d.fs.geo, d.dptr)] &&
      Csect(d.fs.geo, d.dptr + 32) == 0
    ensures |d.fs.fat| == d.fs.geo.nFatent && HasEntry(d.fs.geo, d.clust) && d.fs.fat[d.clust] >= 2
    ensures Idx(d.fs.geo, d.dptr + 32) == Idx(d.fs.geo, d.dptr) + 1
    ensures var i := Idx(d.fs.geo, d.dptr);
      && ((d.dptr + 32) / 512 < |d.secs| <==> i + 1 < |d.chain|)
      && (i + 1 < |d.chain| ==> d.fs.fat[d.clust] == d.chain[i + 1] < |d.fs.fat|)
      && (i + 1 == |d.chain| ==> d.fs.fat[d.clust] >= |d.fs.fat| && |d.secs| < 4096)
      && (i + 1 == |d.chain| ==> (d.dptr + 32) / 512 == |d.secs|)
  {
    hide Valid, FreeCountOk, NoOnes, Linked, SecsOf, GoodSecs;
    GeoFacts(d.fs);
    var g, p := d.fs.geo, d.dptr + 32;
    assert (p - 1) / 512 == d.dptr / 512;
    IdxStep(g, p);
    ChainStep(d.fs.fat, d.chain, Idx(g, d.dptr));
    DynamicPosition(g, |d.fs.vol|, d.chain, d.secs, p);
    DynamicPosition(g, |d.fs.vol|, d.chain, d.secs, p - 1);
  }

  lemma GrewByOne(d: Dir, chainWas: seq<nat>, secsWas: seq<nat>, fatWas: seq<nat>, volWas: seq<Sector>)
    requires TableGrew(d, chainWas, secsWas, fatWas, volWas)
    ensures |d.chain| == |chainWas| + 1
  {
  }

  /** Arriving at the first sector of a cluster of the table. */
  lemma ArriveFacts(d: Dir, clst: dword)
    requires Usable(d.fs) && d.Table() && d.chain != [] && Csect(d.fs.geo, d.dptr + 32) == 0
    requires Idx(d.fs.geo, d.dptr + 32) < |d.chain| && clst == d.chain[Idx(d.fs.geo, d.dptr + 32)]
    ensures (d.dptr + 32) / 512 < |d.secs| && Clust2Sect(d.fs.geo, clst) == d.secs[(d.dptr + 32) / 512] < 0x1_0000_0000
  {
    hide Valid, FreeCountOk, NoOnes, SecsOf, Linked, Idx, Csect;
    GeoFacts(d.fs);
    DynamicPosition(d.fs.geo, |d.fs.vol|, d.chain, d.secs, d.dptr + 32);
    ChainInside(d.fs, d.chain, Idx(d.fs.geo, d.dptr + 32));
    ClusterRange(d.fs.geo, |d.fs.vol|, clst);
  }

  /** The cluster-boundary step of dir_next: the next cluster of the table, or a new one. */
  method NextTableCluster(d: Dir, stretch: bool) returns (res: FResult)
    requires Usable(d.fs) && d.Table() && d.chain != [] && d.dptr + 32 < MAX_DIR && d.dptr / 512 < |d.secs|
    requires Idx(d.fs.geo, d.dptr) < |d.chain| && d.clust == d.chain[Idx(d.fs.geo, d.dptr)]
    requires (d.dptr + 32) % 512 == 0 && Csect(d.fs.geo, d.dptr + 32) == 0
    modifies d`clust, d`sect, d`chain, d`secs, d.fs`winsect, d.fs`wflag, d.fs`vol, d.fs`fat, d.fs`lastClst,
      d.fs`freeClst, d.fs`fsiFlag
    modifies d.fs.win, d.fs.disk`img
    ensures res == OK || res == NoFile || res == Denied || (res == DiskErr && !d.fs.disk.reliable)
    ensures res != DiskErr ==> Usable(d.fs) && d.Table()
    ensures res == NoFile || res == Denied ==> SameTable(d) && (d.dptr + 32) / 512 >= |d.secs|
    ensures res == NoFile ==> !stretch && d.sect == 0
    ensures res == Denied ==> stretch && CountFree(d.fs.fat) == 0
    ensures res == OK ==> (d.dptr + 32) / 512 < |d.secs| && d.sect == d.secs[(d.dptr + 32) / 512]
    ensures res == OK ==> Idx(d.fs.geo, d.dptr + 32) < |d.chain| && d.clust == d.chain[Idx(d.fs.geo, d.dptr + 32)]
    ensures !stretch && !old(d.fs.wflag) ==> !d.fs.wflag && d.fs.disk.img == old(d.fs.disk.img)
    ensures res == OK && !SameTable(d) ==>
      stretch && GrewFor(d, d.dptr + 32, old(d.chain), old(d.secs), old(d.fs.fat), old(d.fs.vol))
  {
    hide Valid, FreeCountOk, NoOnes, SecsAre, Linked, Idx, Csect, CountFree, TableGrew;
    NextFacts(d);
    ghost var i := Idx(d.fs.geo, d.dptr);
    var clst := GetFat(d.fs, d.clust);
    if clst <= 1 { return IntErr; }
    if clst == ERR32 { return DiskErr; }
    res := OK;
    if clst >= d.fs.geo.nFatent {
      if !stretch {
        d.sect := 0;
        return NoFile;
      }
      res, clst := StretchTable(d);
      if res != OK { return; }
      GrewByOne(d, old(d.chain), old(d.secs), old(d.fs.fat), old(d.fs.vol));
    }
    ArriveFacts(d, clst);
    d.clust := clst;
    d.sect := Clust2Sect(d.fs.geo, clst);
  }

  /** The sector-boundary step of dir_next. */
  method NextTableSector(d: Dir, stretch: bool) returns (res: FResult)
    requires Usable(d.fs) && d.Table() && d.At() && d.dptr + 32 < MAX_DIR && (d.dptr + 32) % 512 == 0
    modifies d`clust, d`sect, d`chain, d`secs, d.fs`winsect, d.fs`wflag, d.fs`vol, d.fs`fat, d.fs`lastClst,
      d.fs`freeClst, d.fs`fsiFlag
    modifies d.fs.win, d.fs.disk`img
    ensures res == OK || res == NoFile || res == Denied || (res == DiskErr && !d.fs.disk.reliable)
    ensures res != DiskErr ==> Usable(d.fs) && d.Table()
    ensures res == NoFile || res == Denied ==> SameTable(d) && PastTable(d.secs, d.dptr + 32)
    ensures res == NoFile ==> (!stretch || d.chain == []) && d.sect == 0
    ensures res == Denied ==> stretch && CountFree(d.fs.fat) == 0
    ensures res == OK ==> OnEntry(d, d.dptr + 32)
    ensures !stretch && !old(d.fs.wflag) ==> !d.fs.wflag && d.fs.disk.img == old(d.fs.disk.img)
    ensures res == OK && !SameTable(d) ==>
      stretch && GrewFor(d, d.dptr + 32, old(d.chain), old(d.secs), old(d.fs.fat), old(d.fs.vol))
  {
    hide Valid, FreeCountOk, NoOnes, SecsAre, Linked, CountFree, GrewFor, Idx, Csect, Run, RootOk;
    EntryFacts(d);
    d.sect := d.sect + 1;
    res := OK;
    if d.clust == 0 {
      StaticPosition(d.fs.geo, d.secs, d.dptr + 32);
      if (d.dptr + 32) / 32 >= d.fs.geo.nRootdir {
        d.sect := 0;
        return NoFile;
      }
    } else if (d.dptr + 32) / 512 % d.fs.geo.csize == 0 {
      res := NextTableCluster(d, stretch);
    }
  }

  /**
    dir_next: to the next entry. NoFile is the end of the table, also when it cannot get larger;
    with stretch a cluster-chained table is extended instead, Denied meaning a full volume.
  */
  method DirNext(d: Dir, stretch: bool) returns (res: FResult)
    requires Usable(d.fs) && d.Table() && d.At()
    modifies d`dptr, d`clust, d`sect, d`chain, d`secs, d.fs`winsect, d.fs`wflag, d.fs`vol, d.fs`fat
    modifies d.fs`lastClst, d.fs`freeClst, d.fs`fsiFlag, d.fs.win, d.fs.disk`img
    ensures res == OK || res == NoFile || res == Denied || (res == DiskErr && !d.fs.disk.reliable)
    ensures res != DiskErr ==> Usable(d.fs) && d.Table()
    ensures res == OK ==> d.At() && d.dptr == old(d.dptr) + 32
    ensures res == NoFile || res == Denied ==> SameTable(d) && PastTable(d.secs, old(d.dptr) + 32)
    ensures res == NoFile && old(d.dptr) + 32 < MAX_DIR ==> (!stretch || d.chain == []) && d.sect == 0
    ensures res == Denied ==> stretch && CountFree(d.fs.fat) == 0
    ensures !stretch && !old(d.fs.wflag) ==> !d.fs.wflag && d.fs.disk.img == old(d.fs.disk.img)
    ensures res == OK && !SameTable(d) ==>
      stretch && GrewFor(d, d.dptr, old(d.chain), old(d.secs), old(d.fs.fat), old(d.fs.vol))
  {
    hide Usable, TableOk, CountFree, GrewFor, PastTable, OnEntry;
    var ofs := d.dptr + 32;
    StepFacts(d);
    if d.sect == 0 || ofs >= MAX_DIR { return NoFile; }
    if ofs % 512 == 0 {
      res := NextTableSector(d, stretch);
      if res != OK { return; }
    }
    d.dptr := ofs;
    res := OK;
  }

  /** The parts of EntryFacts that dir_next itself needs. */
  lemma StepFacts(d: Dir)
    requires Usable(d.fs) && d.Table() && d.At()
    ensures d.sect != 0 && d.fs.geo.csize > 0 && d.dptr % 32 == 0
    ensures d.dptr + 32 >= MAX_DIR ==> PastTable(d.secs, d.dptr + 32)
    ensures (d.dptr + 32) % 512 != 0 ==> OnEntry(d, d.dptr + 32)
  {
    hide Usable, TableOk, Idx, Csect;
    EntryFacts(d);
  }


  /** No entry of the table is at offset ofs or beyond. */
  predicate PastTable(secs: seq<nat>, ofs: nat) { ofs >= MAX_DIR || ofs / 512 >= |secs| }

  /** Stepping over an entry stays in the sector or enters the next one. */
  lemma EntryStep(g: Geometry, p: nat)
    requires g.csize > 0 && p % 32 == 0
    ensures (p + 32) % 512 != 0 ==> (p + 32) / 512 == p / 512 && Idx(g, p + 32) == Idx(g, p)
    ensures (p + 32) % 512 == 0 ==>
      (p + 32) / 512 == p / 512 + 1 && (p + 31) / 512 == p / 512 && Idx(g, p + 31) == Idx(g, p)
    ensures Csect(g, p + 32) == (p + 32) / 512 % g.csize
  {
    var k := p / 32;
    assert p == 32 * k && p / 512 == k / 16 && (p + 32) / 512 == (k + 1) / 16;
    SplitBy((p + 32) / 512, g.csize);
  }

  /** Inside a cluster the next sector follows. */
  lemma InnerSector(d: Dir)
    requires Usable(d.fs) && d.Table() && d.At() && d.chain != []
    requires (d.dptr + 32) % 512 == 0 && Csect(d.fs.geo, d.dptr + 32) != 0
    ensures Idx(d.fs.geo, d.dptr + 32) == Idx(d.fs.geo, d.dptr)
    ensures (d.dptr + 32) / 512 < |d.secs| && d.secs[(d.dptr + 32) / 512] == d.sect + 1
  {
    hide Valid, FreeCountOk, NoOnes, Linked, SecsOf, Idx, Csect;
    GeoFacts(d.fs);
    EntryStep(d.fs.geo, d.dptr);
    IdxStep(d.fs.geo, d.dptr + 32);
    DynamicPosition(d.fs.geo, |d.fs.vol|, d.chain, d.secs, d.dptr + 32);
    DynamicPosition(d.fs.geo, |d.fs.vol|, d.chain, d.secs, d.dptr);
    IdxSector(d.fs.geo, d.dptr + 32);
    IdxSector(d.fs.geo, d.dptr);
  }

  /** Inside a sector or a cluster the next entry is found by counting. */
  lemma EntryFacts(d: Dir)
    requires Usable(d.fs) && d.Table() && d.At()
    ensures 0 < d.sect < 0xFFFF_FFFF && (d.clust == 0 <==> d.chain == []) && d.fs.geo.csize > 0
    ensures d.chain == [] ==> d.fs.geo.nRootdir % 16 == 0 && d.secs == Run(d.fs.geo.dirbase, d.fs.geo.nRootdir / 16)
    ensures (d.dptr + 32) % 512 != 0 ==>
      (d.dptr + 32) / 512 == d.dptr / 512 && Idx(d.fs.geo, d.dptr + 32) == Idx(d.fs.geo, d.dptr)
    ensures (d.dptr + 32) % 512 == 0 ==> (d.dptr + 32) / 512 == d.dptr / 512 + 1
    ensures Csect(d.fs.geo, d.dptr + 32) == (d.dptr + 32) / 512 % d.fs.geo.csize
    ensures d.chain != [] && (d.dptr + 32) % 512 == 0 && Csect(d.fs.geo, d.dptr + 32) != 0 ==>
      (d.dptr + 32) / 512 < |d.secs| && d.secs[(d.dptr + 32) / 512] == d.sect + 1 &&
        Idx(d.fs.geo, d.dptr + 32) == Idx(d.fs.geo, d.dptr)
  {
    hide Valid, FreeCountOk, NoOnes, SecsAre, Idx, Csect;
    GeoFacts(d.fs);
    TableSecs(d.fs.geo, |d.fs.vol|, d.fs.fat, d.sclust, d.chain, d.secs);
    EntryStep(d.fs.geo, d.dptr);
    if d.chain != [] {
      ChainStep(d.fs.fat, d.chain, Idx(d.fs.geo, d.dptr));
      if (d.dptr + 32) % 512 == 0 && Csect(d.fs.geo, d.dptr + 32) != 0 { InnerSector(d); }
    }
  }
}
