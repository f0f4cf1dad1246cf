/** create_chain and remove_chain: allocation and release of cluster chains on a mounted volume. */
module Chains {
  import opened FatTypes
  import opened Window
  import opened FatEntries
  import opened FatAccess
  import opened ChainTheory

  /**
    A free-cluster count that is in range is exact if it was so at mount, and FSInfo has it unless it is
    marked for update.
  */
  ghost predicate FreeCountOk(fs: Fatfs)
    reads fs`freeClst, fs`fat, fs`fsiFlag, fs`fsiCount
  {
    && fs.geo.nFatent == |fs.fat|
    && (fs.exact && fs.freeClst <= fs.geo.nFatent - 2 ==> fs.freeClst == CountFree(fs.fat))
    && (fs.fsiUsed ==> fs.fsiFlag <= 1 && (fs.fsiFlag == 0 ==> fs.fsiCount == fs.freeClst))
  }

  /** Only entries of the FAT changed: the logical content of every other sector is the same. */
  ghost predicate OnlyFat(fs: Fatfs, vol: seq<Sector>)
    reads fs`vol
  {
    |fs.vol| == |vol| && SameOutsideFat(fs.geo, vol, fs.vol) && KeepsReserved(fs.geo, vol, fs.vol)
  }

  /** Where the window may be after FAT accesses that started at sector w. */
  predicate WindowMoved(g: Geometry, w: dword, w': dword) {
    w' == w || w' == ERR32 || InFat(g, w')
  }

  lemma MaskFacts(t: FsType, n: nat)
    requires n <= (match t case FAT12 => 0xFF7 case FAT16 => 0xFFF7 case FAT32 => 0x0FFF_FFF7)
    ensures Mask(t, n) == n && Mask(t, ERR32) == Eoc(t) >= n
  {
  }

  lemma ValidFacts(fs: Fatfs)
    requires Valid(fs)
    ensures |fs.fat| == fs.geo.nFatent && 3 <= fs.geo.nFatent <= 0x0FFF_FFF7
    ensures Eoc(fs.geo.fsType) >= fs.geo.nFatent && Mask(fs.geo.fsType, ERR32) == Eoc(fs.geo.fsType)
    ensures forall c: nat | HasEntry(fs.geo, c) :: Mask(fs.geo.fsType, c) == c
    ensures |fs.vol| == |fs.disk.img| && ValidGeometry(fs.geo, |fs.vol|)
  {
    hide Entry;
    MaskFacts(fs.geo.fsType, fs.geo.nFatent);
    forall c: nat | HasEntry(fs.geo, c) ensures Mask(fs.geo.fsType, c) == c { MaskFacts(fs.geo.fsType, c); }
  }

  /** fsi_flag |= 1. */
  function SetDirty(flag: nat): (r: nat)
    ensures r % 2 == 1 && r / 2 == flag / 2
  {
    if flag % 2 == 0 then flag + 1 else flag
  }

  /** Distance from start to c when clusters are scanned upwards with wrap-around. */
  function Ahead(start: nat, c: nat, n: nat): nat
    requires start <= n
  {
    if c > start then c - start else c + n - start
  }

  /** No free cluster is met within d steps of start. */
  ghost predicate NoneWithin(fat: seq<nat>, start: nat, d: nat)
    requires start < |fat|
  {
    forall c: nat | Free(fat, c) :: Ahead(start, c, |fat|) > d
  }

  /** c is free and no free cluster is met earlier. */
  ghost predicate NearestFree(fat: seq<nat>, start: nat, c: nat)
    requires start < |fat|
  {
    Free(fat, c) && forall b: nat | Free(fat, b) :: Ahead(start, c, |fat|) <= Ahead(start, b, |fat|)
  }

  /**
    The scan of create_chain: the first free cluster after start, cyclically; 0 when there is none,
    1 when the scan met the reserved value, ERR32 on a disk error.
  */
  method FindFree(fs: Fatfs, start: nat) returns (ncl: dword)
    requires Valid(fs) && 1 <= start < fs.geo.nFatent
    modifies fs`winsect, fs`wflag, fs.win, fs.disk`img
    ensures Valid(fs) && WindowMoved(fs.geo, old(fs.winsect), fs.winsect)
    ensures !old(fs.wflag) ==> !fs.wflag
    ensures ncl == 0 ==> forall c: nat :: !Free(fs.fat, c)
    ensures ncl == 1 ==> !NoOnes(fs.fat)
    ensures 2 <= ncl < ERR32 ==> NearestFree(fs.fat, start, ncl)
    ensures fs.disk.reliable ==> ncl != ERR32
  {
    hide Valid, NoOnes;
    ValidFacts(fs);
    var n := fs.geo.nFatent;
    ghost var d := 0;
    var k := start;
    while true
      invariant Valid(fs) && |fs.fat| == n && WindowMoved(fs.geo, old(fs.winsect), fs.winsect)
      invariant !old(fs.wflag) ==> !fs.wflag
      invariant 0 <= d < n && 1 <= k < n && d == (if d == 0 then 0 else Ahead(start, k, n)) && (d == 0 ==> k == start)
      invariant d != 0 ==> k != start && k >= 2
      invariant NoneWithin(fs.fat, start, d)
      decreases n - d
    {
      k := k + 1;
      if k >= n {
        k := 2;
        if k > start { return 0; }
      }
      d := Ahead(start, k, n);
      var cs := GetFat(fs, k);
      if cs == 0 { return k; }
      if cs == 1 || cs == ERR32 {
        if cs == 1 { OneFound(fs.fat, k); }
        return cs;
      }
      if k == start { return 0; }
    }
  }

  lemma OneFound(fat: seq<nat>, c: nat)
    requires Cluster(fat, c) && fat[c] == 1
    ensures !NoOnes(fat)
  {
  }

  /** Where create_chain starts its scan. */
  function ScanStart(fs: Fatfs, clst: nat): nat
    reads fs`lastClst
  {
    if clst != 0 then clst else if fs.lastClst == 0 || fs.lastClst >= fs.geo.nFatent then 1 else fs.lastClst
  }

  /** The FAT after cluster n was taken and, unless clst is 0, linked from clst. */
  function Taken(fat: seq<nat>, clst: nat, n: nat, eoc: nat): seq<nat>
    requires n < |fat| && clst < |fat|
  {
    if clst == 0 then fat[n := eoc] else fat[n := eoc][clst := n]
  }

  /** Cluster clst is followed by another one. */
  predicate Followed(fat: seq<nat>, clst: nat) { Cluster(fat, clst) && Cluster(fat, fat[clst]) }

  /** A new chain is asked for, or clst is the last cluster of one. */
  predicate NeedsCluster(fat: seq<nat>, clst: nat) {
    |fat| > 2 && (clst == 0 || (Cluster(fat, clst) && fat[clst] >= |fat|))
  }

  /** Marks cluster n used and links it: the two put_fat calls of create_chain. */
  method TakeCluster(fs: Fatfs, clst: nat, n: nat) returns (res: FResult)
    requires Valid(fs) && HasEntry(fs.geo, n) && (clst == 0 || HasEntry(fs.geo, clst))
    requires n !in fs.promise.links && clst !in fs.promise.links
    modifies fs`winsect, fs`wflag, fs`vol, fs`fat, fs.win, fs.disk`img
    ensures Valid(fs) && OnlyFat(fs, old(fs.vol)) && WindowMoved(fs.geo, old(fs.winsect), fs.winsect)
    ensures res == OK || (res == DiskErr && !fs.disk.reliable)
    ensures |old(fs.fat)| == fs.geo.nFatent
    ensures forall d: nat | HasEntry(fs.geo, d) && d != n && d != clst :: fs.fat[d] == old(fs.fat)[d]
    ensures res == OK ==> fs.fat == Taken(old(fs.fat), clst, n, Eoc(fs.geo.fsType))
  {
    hide Valid, Mask, Eoc;
    ValidFacts(fs);
    res := PutFat(fs, n, ERR32);
    if res == OK && clst != 0 {
      res := PutFat(fs, clst, n);
    }
    ValidFacts(fs);
  }

  /**
    Follows or stretches a chain. Returns the next cluster of clst, or a newly allocated one; 0 when
    the volume is full, 1 for an invalid FAT, ERR32 on a disk error.
  */
  method CreateChain(fs: Fatfs, clst: nat) returns (ncl: dword)
    requires Valid(fs) && FreeCountOk(fs)
    modifies fs`winsect, fs`wflag, fs`vol, fs`fat, fs`lastClst, fs`freeClst, fs`fsiFlag, fs.win, fs.disk`img
    ensures Valid(fs) && OnlyFat(fs, old(fs.vol)) && WindowMoved(fs.geo, old(fs.winsect), fs.winsect)
    ensures fs.disk.reliable ==> ncl != ERR32
    ensures |fs.fat| == |old(fs.fat)| == fs.geo.nFatent
    ensures forall d: nat | HasEntry(fs.geo, d) && d != clst && old(fs.fat)[d] != 0 :: fs.fat[d] == old(fs.fat)[d]
    ensures ncl == ERR32 && Followed(old(fs.fat), clst) ==> fs.fat == old(fs.fat)
    ensures ncl != ERR32 ==> FreeCountOk(fs)
    ensures ncl < 2 ==> fs.fat == old(fs.fat) && fs.vol == old(fs.vol) && (!old(fs.wflag) ==> !fs.wflag)
    ensures ncl == 0 ==> CountFree(fs.fat) == 0 && !Followed(fs.fat, clst)
    ensures ncl == 1 ==> !(clst == 0 || (Cluster(fs.fat, clst) && fs.fat[clst] >= 2)) || !NoOnes(fs.fat)
    ensures 2 <= ncl < ERR32 ==> if Followed(old(fs.fat), clst)
      then ncl == fs.fat[clst] && fs.fat == old(fs.fat) && fs.vol == old(fs.vol) && (!old(fs.wflag) ==> !fs.wflag)
      else && NeedsCluster(old(fs.fat), clst) && old(ScanStart(fs, clst)) < |old(fs.fat)|
           && NearestFree(old(fs.fat), old(ScanStart(fs, clst)), ncl)
           && fs.fat == Taken(old(fs.fat), clst, ncl, Eoc(fs.geo.fsType)) && fs.lastClst == ncl
           && fs.fsiFlag == SetDirty(old(fs.fsiFlag))
  {
    hide Valid, Eoc, NearestFree, CountFree, NoOnes, Taken, FreeBelow, Mask, KeepsReserved, SameOutsideFat;
    ValidFacts(fs);
    Unchanged(fs.geo, fs.vol);
    var start := ScanStart(fs, clst);
    if clst != 0 {
      var cs := GetFat(fs, clst);
      if cs < 2 { return 1; }
      if cs == ERR32 || cs < fs.geo.nFatent { return cs; }
    }
    ncl := FindFree(fs, start);
    if ncl == 0 { NoneFree(fs.fat); }
    if ncl < 2 || ncl == ERR32 { return; }
    NearestIsFree(fs.fat, start, ncl);
    var res := Allocate(fs, clst, ncl);
    if res != OK { ncl := ERR32; }  // both entries exist, so put_fat can only have met a disk error
  }

  /** The end of create_chain: the cluster found is taken and counted. */
  method Allocate(fs: Fatfs, clst: nat, n: nat) returns (res: FResult)
    requires Valid(fs) && FreeCountOk(fs) && |fs.fat| == fs.geo.nFatent && Free(fs.fat, n) && NeedsCluster(fs.fat, clst)
    modifies fs`winsect, fs`wflag, fs`vol, fs`fat, fs`lastClst, fs`freeClst, fs`fsiFlag, fs.win, fs.disk`img
    ensures Valid(fs) && OnlyFat(fs, old(fs.vol)) && WindowMoved(fs.geo, old(fs.winsect), fs.winsect)
    ensures res == OK || (res == DiskErr && !fs.disk.reliable)
    ensures |fs.fat| == |old(fs.fat)|
    ensures forall d: nat | HasEntry(fs.geo, d) && d != n && d != clst :: fs.fat[d] == old(fs.fat)[d]
    ensures res == OK ==> FreeCountOk(fs) && fs.fat == Taken(old(fs.fat), clst, n, Eoc(fs.geo.fsType))
    ensures res == OK ==> fs.lastClst == n && fs.fsiFlag == SetDirty(old(fs.fsiFlag))
  {
    hide Valid, Eoc, CountFree, NoOnes, Taken, FreeBelow, Mask, KeepsReserved, SameOutsideFat;
    ValidFacts(fs);
    LinksAside(fs, n);
    LinksAside(fs, clst);
    ghost var was := fs.fat;
    res := TakeCluster(fs, clst, n);
    ValidFacts(fs);
    if res == OK {
      TakenCount(was, clst, n, Eoc(fs.geo.fsType));
      fs.lastClst := n;
      if fs.freeClst <= fs.geo.nFatent - 2 { fs.freeClst := Sub32(fs.freeClst, 1); }
      fs.fsiFlag := SetDirty(fs.fsiFlag);
    }
  }

  /** An entry that is free or an end mark is no promised link. */
  lemma LinksAside(fs: Fatfs, c: nat)
    requires Valid(fs) && |fs.fat| == fs.geo.nFatent
    ensures c < 2 || (c < |fs.fat| && (fs.fat[c] == 0 || fs.fat[c] >= |fs.fat|)) ==> c !in fs.promise.links
  {
    hide Valid;
    HeldFat(fs);
  }

  lemma NoneFree(fat: seq<nat>)
    requires forall c: nat :: !Free(fat, c)
    ensures CountFree(fat) == 0
  {
    FreeBelowWitness(fat, |fat|);
    forall c | 2 <= c < |fat| ensures fat[c] != 0 { assert !Free(fat, c); }
  }

  lemma NearestIsFree(fat: seq<nat>, start: nat, c: nat)
    requires start < |fat| && NearestFree(fat, start, c)
    ensures Free(fat, c)
  {
  }

  /** Taking a free cluster lowers the number of free clusters by one. */
  lemma TakenCount(fat: seq<nat>, clst: nat, n: nat, eoc: nat)
    requires Free(fat, n) && NeedsCluster(fat, clst) && eoc >= |fat|
    ensures CountFree(fat) >= 1 && CountFree(Taken(fat, clst, n, eoc)) == CountFree(fat) - 1
  {
    CountFreeUpdate(fat, n, eoc);
    if clst != 0 { CountFreeUpdate(fat[n := eoc], clst, n); }
  }

  /** The entries a chain can take part in are not damaged when one is set to zero. */
  lemma NoOnesCleared(fat: seq<nat>, c: nat, v: nat)
    requires Cluster(fat, c) && NoOnes(fat) && v != 1
    ensures NoOnes(fat[c := v])
  {
  }

  /** fat with p, if it is not 0, made the end of its chain. */
  function Terminated(fat: seq<nat>, p: nat, eoc: nat): (r: seq<nat>)
    requires p < |fat|
    ensures |r| == |fat|
  {
    if p == 0 then fat else fat[p := eoc]
  }

  /** Every entry that removal from c on leaves alone when it succeeds: the free ones and those not reached. */
  ghost predicate SpareSame(was: seq<nat>, c: nat, now: seq<nat>, p: nat) {
    |now| == |was| && forall d: nat | Cluster(was, d) && d != p && (was[d] == 0 || Erase(was, c)[d] != 0) ::
      now[d] == was[d]
  }

  /**
    Frees the clusters from clst on, after terminating the chain at pclst (0: the whole chain goes).
    Terminates on any FAT: every iteration that continues turns a used entry into a free one.
  */
  method RemoveChain(fs: Fatfs, clst: nat, pclst: nat) returns (res: FResult)
    requires Valid(fs) && FreeCountOk(fs)
    modifies fs`winsect, fs`wflag, fs`vol, fs`fat, fs`freeClst, fs`fsiFlag, fs`promise, fs.win, fs.disk`img
    ensures Valid(fs) && OnlyFat(fs, old(fs.vol)) && WindowMoved(fs.geo, old(fs.winsect), fs.winsect)
    ensures fs.promise == NoPromise() && (fs.disk.reliable ==> res != DiskErr)
    ensures res == OK || res == DiskErr || res == IntErr
    ensures res == OK ==> HasEntry(fs.geo, clst) && (pclst == 0 || HasEntry(fs.geo, pclst))
    ensures res == OK ==>
      pclst < |old(fs.fat)| && fs.fat == Erase(Terminated(old(fs.fat), pclst, Eoc(fs.geo.fsType)), clst)
    ensures res == OK && (pclst == 0 || old(fs.fat[pclst]) != 0) ==> FreeCountOk(fs)
    ensures fs.freeClst != old(fs.freeClst) ==> fs.fsiFlag == SetDirty(old(fs.fsiFlag))
    ensures pclst < |old(fs.fat)| ==> SpareSame(Terminated(old(fs.fat), pclst, Eoc(fs.geo.fsType)), clst, fs.fat, pclst)
    ensures res == IntErr ==>
      !HasEntry(fs.geo, clst) || (pclst != 0 && !HasEntry(fs.geo, pclst)) || !NoOnes(old(fs.fat))
  {
    hide Valid, Eoc, Erase, NoOnes;
    ValidFacts(fs);
    Release(fs, NoPromise());
    if !HasEntry(fs.geo, clst) { return IntErr; }
    ghost var counted := pclst == 0 || !HasEntry(fs.geo, pclst) || fs.fat[pclst] != 0;
    if pclst != 0 {
      ghost var was := fs.fat;
      res := PutFat(fs, pclst, ERR32);
      ValidFacts(fs);
      if res != OK { return; }
      CountFreeUpdate(was, pclst, Eoc(fs.geo.fsType));
      if NoOnes(was) { NoOnesCleared(was, pclst, Eoc(fs.geo.fsType)); }
    }
    res := FreeClusters(fs, clst, counted);
  }

  /** Marks one cluster free and counts it, as one round of remove_chain does. */
  method FreeCluster(fs: Fatfs, clst: nat, ghost counted: bool) returns (res: FResult)
    requires Valid(fs) && HasEntry(fs.geo, clst) && (counted ==> FreeCountOk(fs)) && clst !in fs.promise.links
    requires |fs.fat| == fs.geo.nFatent && fs.fat[clst] >= 2
    modifies fs`winsect, fs`wflag, fs`vol, fs`fat, fs`freeClst, fs`fsiFlag, fs.win, fs.disk`img
    ensures Valid(fs) && OnlyFat(fs, old(fs.vol)) && WindowMoved(fs.geo, old(fs.winsect), fs.winsect)
    ensures res == OK || (res == DiskErr && !fs.disk.reliable)
    ensures |fs.fat| == |old(fs.fat)| == fs.geo.nFatent && fs.fat == old(fs.fat)[clst := fs.fat[clst]]
    ensures res == OK ==> fs.fat[clst] == 0 && (counted ==> FreeCountOk(fs))
    ensures (fs.freeClst == old(fs.freeClst) && fs.fsiFlag == old(fs.fsiFlag)) ||
      fs.fsiFlag == SetDirty(old(fs.fsiFlag))
  {
    hide Valid, Eoc, KeepsReserved, SameOutsideFat, CountFree;
    ghost var was := fs.fat;
    ValidFacts(fs);
    res := PutFat(fs, clst, 0);
    ValidFacts(fs);
    if res != OK { return; }
    assert fs.fat == was[clst := 0] by { assert Mask(fs.geo.fsType, 0) == 0; }
    CountFreed(fs, was, clst, counted);
  }

  /** The do-while loop of remove_chain. */
  method FreeClusters(fs: Fatfs, first: nat, ghost counted: bool) returns (res: FResult)
    requires Valid(fs) && HasEntry(fs.geo, first) && (counted ==> FreeCountOk(fs)) && fs.promise == NoPromise()
    modifies fs`winsect, fs`wflag, fs`vol, fs`fat, fs`freeClst, fs`fsiFlag, fs.win, fs.disk`img
    ensures Valid(fs) && OnlyFat(fs, old(fs.vol)) && WindowMoved(fs.geo, old(fs.winsect), fs.winsect)
    ensures res == OK || (res == DiskErr && !fs.disk.reliable) || (res == IntErr && !NoOnes(old(fs.fat)))
    ensures SpareSame(old(fs.fat), first, fs.fat, 0)
    ensures res == OK ==> fs.fat == Erase(old(fs.fat), first) && (counted ==> FreeCountOk(fs))
    ensures fs.freeClst != old(fs.freeClst) ==> fs.fsiFlag == SetDirty(old(fs.fsiFlag))
  {
    hide Valid, Eoc, Erase, NoOnes, SpareSame, KeepsReserved, SameOutsideFat, FreeCountOk, SetDirty;
    ValidFacts(fs);
    Unchanged(fs.geo, fs.vol);
    var clst: nat := first;
    SpareAtFirst(fs.fat, first);
    while true
      invariant Valid(fs) && OnlyFat(fs, old(fs.vol)) && WindowMoved(fs.geo, old(fs.winsect), fs.winsect)
      invariant HasEntry(fs.geo, clst) && |fs.fat| == |old(fs.fat)| == fs.geo.nFatent
      invariant counted ==> FreeCountOk(fs)
      invariant (fs.freeClst == old(fs.freeClst) && fs.fsiFlag == old(fs.fsiFlag)) ||
        fs.fsiFlag == SetDirty(old(fs.fsiFlag))
      invariant NoOnes(old(fs.fat)) ==> NoOnes(fs.fat)
      invariant Erase(fs.fat, clst) == Erase(old(fs.fat), first) && SpareSame(old(fs.fat), first, fs.fat, 0)
      decreases UsedBelow(fs.fat, |fs.fat|)
    {
      EraseStep(fs.fat, clst);
      var nxt := GetFat(fs, clst);
      if nxt == 0 { return OK; }
      if nxt == 1 { OneFound(fs.fat, clst); return IntErr; }
      if nxt == ERR32 { return DiskErr; }
      ghost var was, vol, flag := fs.fat, fs.vol, fs.fsiFlag;
      res := FreeCluster(fs, clst, counted);
      FatOnlyTrans(fs.geo, old(fs.vol), vol, fs.vol);
      SpareStep(old(fs.fat), first, was, clst, fs.fat[clst]);
      DirtyTwice(old(fs.fsiFlag), flag, fs.fsiFlag);
      if res != OK { return; }
      UsedBelowClear(was, clst, |was|);
      if NoOnes(was) { NoOnesCleared(was, clst, 0); }
      if nxt >= fs.geo.nFatent { return OK; }
      clst := nxt;
    }
  }

  lemma DirtyTwice(f0: nat, f1: nat, f2: nat)
    ensures f1 == SetDirty(f0) && f2 == SetDirty(f1) ==> f2 == SetDirty(f0)
  {
  }

  lemma FatOnlyTrans(g: Geometry, v0: seq<Sector>, v1: seq<Sector>, v2: seq<Sector>)
    requires |v0| == |v1| == |v2| && SameOutsideFat(g, v0, v1) && SameOutsideFat(g, v1, v2)
    requires KeepsReserved(g, v0, v1) && KeepsReserved(g, v1, v2)
    ensures SameOutsideFat(g, v0, v2) && KeepsReserved(g, v0, v2)
  {
  }

  /** Counts a cluster that has just been freed, unless the count is not valid. */
  method CountFreed(fs: Fatfs, ghost was: seq<nat>, ghost c: nat, ghost counted: bool)
    requires |was| == fs.geo.nFatent < 0x1_0000_0000 && Cluster(was, c) && was[c] != 0 && fs.fat == was[c := 0]
    requires counted && fs.exact && fs.freeClst <= fs.geo.nFatent - 2 ==> fs.freeClst == CountFree(was)
    requires counted && fs.fsiUsed ==> fs.fsiFlag <= 1 && (fs.fsiFlag == 0 ==> fs.fsiCount == fs.freeClst)
    modifies fs`freeClst, fs`fsiFlag
    ensures counted ==> FreeCountOk(fs)
    ensures (fs.freeClst == old(fs.freeClst) && fs.fsiFlag == old(fs.fsiFlag)) ||
      fs.fsiFlag == SetDirty(old(fs.fsiFlag))
  {
    CountFreeUpdate(was, c, 0);
    if fs.freeClst < fs.geo.nFatent - 2 {
      fs.freeClst := fs.freeClst + 1;
      fs.fsiFlag := SetDirty(fs.fsiFlag);
    }
  }

  lemma SpareAtFirst(fat: seq<nat>, c: nat)
    ensures SpareSame(fat, c, fat, 0)
  {
  }

  /** The entry at which removal stands is one that it frees. */
  lemma SpareStep(fat: seq<nat>, first: nat, now: seq<nat>, c: nat, v: nat)
    requires SpareSame(fat, first, now, 0) && Cluster(now, c) && now[c] != 0 && Erase(now, c) == Erase(fat, first)
    ensures SpareSame(fat, first, now[c := v], 0)
  {
    EraseOnlyFrees(now, c);
  }

  lemma EraseStep(fat: seq<nat>, c: nat)
    requires Cluster(fat, c)
    ensures fat[c] == 0 ==> Erase(fat, c) == fat
    ensures fat[c] != 0 ==> Erase(fat, c) == Erase(fat[c := 0], fat[c])
    ensures fat[c] >= |fat| ==> Erase(fat, c) == fat[c := 0]
  {
  }

  // ----- Allocation and release on the chains of the volume

  /** A cluster with an end mark is the last one of exactly one chain. */
  lemma LastOfChain(fat: seq<nat>, m: map<nat, seq<nat>>, c: nat) returns (h: nat)
    requires Layout(fat, m) && Cluster(fat, c) && fat[c] >= |fat|
    ensures h in m && m[h] != [] && m[h][|m[h]| - 1] == c
    ensures forall k | k in m && c in m[k] :: k == h
  {
    h :| Owner(m, h, c);
    var i: nat :| i < |m[h]| && m[h][i] == c;
    ChainStep(fat, m[h], i);
    forall k | k in m && c in m[k] ensures k == h { assert Owner(m, k, c); }
  }

  /**
    What create_chain does to the chains: a new chain of the one cluster taken, or exactly one chain
    longer by it; all others as they were.
  */
  lemma TakenLayout(fat: seq<nat>, m: map<nat, seq<nat>>, clst: nat, n: nat, eoc: nat)
    returns (h: nat, m': map<nat, seq<nat>>)
    requires Layout(fat, m) && Free(fat, n) && NeedsCluster(fat, clst) && eoc >= |fat|
    ensures Layout(Taken(fat, clst, n, eoc), m')
    ensures if clst == 0 then n !in m && m' == m[n := [n]]
      else h in m && m[h] != [] && m[h][|m[h]| - 1] == clst && m' == m[h := m[h] + [n]]
  {
    hide Layout;
    if clst == 0 {
      h := n;
      AllocLayout(fat, m, n, eoc);
      m' := m[n := [n]];
    } else {
      h := LastOfChain(fat, m, clst);
      StretchLayout(fat, m, h, n, eoc);
      m' := m[h := m[h] + [n]];
    }
  }

  /** What remove_chain does to them: one chain is cut, its suffix is free, all others are as they were. */
  lemma RemovedLayout(fat: seq<nat>, m: map<nat, seq<nat>>, h: nat, k: nat, eoc: nat)
    requires Layout(fat, m) && h in m && k < |m[h]| && eoc >= |fat| > 0
    ensures forall i | 0 <= i < |m[h]| :: Cluster(fat, m[h][i])
    ensures var f := Erase(Terminated(fat, if k == 0 then 0 else m[h][k - 1], eoc), m[h][k]);
      && Layout(f, if k == 0 then m - {h} else m[h := m[h][..k]])
      && CountFree(f) == CountFree(fat) + |m[h]| - k
  {
    hide Erase, Cut, Covered, Disjoint, CountFree;
    LayoutLinked(fat, m, h);
    EraseIsCut(fat, m[h], k, eoc);
    CutLayout(fat, m, h, k, eoc);
    if k > 0 { ClusterPositive(fat, m[h][k - 1]); }
  }

  lemma ClusterPositive(fat: seq<nat>, c: nat)
    requires Cluster(fat, c)
    ensures c > 0
  {
  }
}
