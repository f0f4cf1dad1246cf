/** f_write: the cached partial-sector path, the direct multi-sector path and the growing edge. */
module FileWrite {
  import opened FatTypes
  import opened Window
  import opened FatEntries
  import opened FatAccess
  import opened ChainTheory
  import opened Chains
  import opened ClusterMap
  import opened FileBytes
  import opened FileMap
  import opened FileObject

  /** Clusters of the file plus free clusters: what writing and seeking only move around. */
  ghost function Pool(fp: Fil): nat
    reads fp`chain, fp.fs`fat
  {
    |fp.chain| + CountFree(fp.fs.fat)
  }

  /** The ghost fields after free cluster n was appended to the chain. */
  ghost method AppendCluster(fp: Fil, was: seq<nat>, n: nat, volWas: seq<Sector>)
    requires Valid(fp.fs) && FreeCountOk(fp.fs) && fp.buf.Length == 512 && fp.buf != fp.fs.win
    requires NoOnes(was) && Chained(was, fp.chain, fp.sclust) && Free(was, n)
    requires fp.chain != [] ==> Cluster(was, fp.chain[|fp.chain| - 1])
    requires fp.fs.fat == Taken(was, if fp.chain == [] then 0 else fp.chain[|fp.chain| - 1], n, Eoc(fp.fs.geo.fsType))
    requires |volWas| == |fp.fs.vol| && SecsAre(fp.fs.geo, |fp.fs.vol|, fp.chain, fp.secs)
    requires BodyMatches(fp.secs, fp.body, volWas, fp.sect, fp.buf[..]) && fp.BufOk()
    requires forall s: nat | s < |volWas| && !InFat(fp.fs.geo, s) :: fp.fs.vol[s] == volWas[s]
    requires fp.fs.winsect == ERR32 || fp.fs.winsect < fp.fs.geo.database || fp.fs.winsect == fp.dirSect
    requires NoneSpare(fp.fs.geo, was, fp.fs.promise.secs)
    requires DirSafe(fp.fs.geo, |fp.fs.vol|, was, fp.chain, fp.dirSect, fp.dirClust) && fp.dirOfs % 32 == 0 &&
      fp.dirOfs < 512
    modifies fp`chain, fp`secs, fp`body
    ensures fp.chain == old(fp.chain) + [n] && old(fp.secs) <= fp.secs && old(fp.body) <= fp.body
    ensures Grown(was, old(fp.chain), fp.fs.fat, fp.chain)
    ensures fp.VolumeOk() && fp.BufOk() && fp.WindowOk()
    ensures Chained(fp.fs.fat, fp.chain, if old(fp.chain) == [] then n else fp.sclust)
    ensures SecsAre(fp.fs.geo, |fp.fs.vol|, fp.chain, fp.secs)
    ensures BodyMatches(fp.secs, fp.body, fp.fs.vol, fp.sect, fp.buf[..])
    ensures Clear(fp, |old(fp.secs)|, |fp.secs|)
  {
    hide Valid, FreeCountOk, SecsAre, Eoc, DirSafe, Linked, NoOnes, Grown, BodyMatches, Taken, InCluster;
    AppendedChain(fp, was, n);
    SpareLess(fp.fs.geo, was, fp.chain, fp.fs.fat, fp.chain + [n], fp.fs.promise.secs);
    var secs := AppendedSecs(fp, was, n);
    OldBody(fp, volWas);
    fp.body := MatchGrow(fp.secs, fp.body, fp.fs.vol, fp.sect, fp.buf[..], secs);
    fp.chain, fp.secs := fp.chain + [n], secs;
  }

  /** A file that grows leaves fewer free clusters. */
  lemma SpareLess(g: Geometry, was: seq<nat>, ch: seq<nat>, fat: seq<nat>, ch': seq<nat>, secs: map<nat, Sector>)
    requires NoneSpare(g, was, secs) && Grown(was, ch, fat, ch') && Linked(fat, ch')
    ensures NoneSpare(g, fat, secs)
  {
    hide InCluster;
    forall c | Free(fat, c) ensures Free(was, c) {}
  }

  /** The chain with the cluster appended. */
  lemma AppendedChain(fp: Fil, was: seq<nat>, n: nat)
    requires Valid(fp.fs) && NoOnes(was) && Chained(was, fp.chain, fp.sclust) && Free(was, n)
    requires fp.chain != [] ==> Cluster(was, fp.chain[|fp.chain| - 1])
    requires fp.fs.fat == Taken(was, if fp.chain == [] then 0 else fp.chain[|fp.chain| - 1], n, Eoc(fp.fs.geo.fsType))
    requires DirSafe(fp.fs.geo, |fp.fs.vol|, was, fp.chain, fp.dirSect, fp.dirClust)
    ensures Grown(was, fp.chain, fp.fs.fat, fp.chain + [n]) && NoOnes(fp.fs.fat)
    ensures Chained(fp.fs.fat, fp.chain + [n], if fp.chain == [] then n else fp.sclust)
    ensures DirSafe(fp.fs.geo, |fp.fs.vol|, fp.fs.fat, fp.chain + [n], fp.dirSect, fp.dirClust)
  {
    hide Valid, Eoc, DirSafe, Linked, NoOnes, Grown;
    GeoFacts(fp.fs);
    ValidFacts(fp.fs);
    ChainGrow(was, fp.chain, fp.sclust, n, Eoc(fp.fs.geo.fsType));
    DirSafeGrow(fp.fs.geo, |fp.fs.vol|, was, fp.chain, fp.fs.fat, n, fp.dirSect, fp.dirClust);
  }

  /** And its sectors, of which none of the new ones was promised. */
  lemma AppendedSecs(fp: Fil, was: seq<nat>, n: nat) returns (secs: seq<nat>)
    requires Valid(fp.fs) && n >= 2 && SecsAre(fp.fs.geo, |fp.fs.vol|, fp.chain, fp.secs) && fp.BufOk()
    requires Chained(fp.fs.fat, fp.chain + [n], if fp.chain == [] then n else fp.sclust)
    requires DirSafe(fp.fs.geo, |fp.fs.vol|, fp.fs.fat, fp.chain + [n], fp.dirSect, fp.dirClust)
    requires forall s | s in fp.fs.promise.secs :: !InCluster(fp.fs.geo, n, s)
    ensures fp.secs <= secs && SecsAre(fp.fs.geo, |fp.fs.vol|, fp.chain + [n], secs)
    ensures forall k | 0 <= k < |secs| :: secs[k] < |fp.fs.vol|
    ensures forall k | |fp.secs| <= k < |secs| :: secs[k] !in fp.fs.promise.secs
    ensures fp.dirty ==> fp.sect in secs
  {
    hide Valid, SecsOf, DirSafe, Linked;
    GeoFacts(fp.fs);
    ChainSecs(fp.fs.geo, |fp.fs.vol|, fp.fs.fat, fp.chain + [n]);
    SecsAppend(fp.fs.geo, fp.chain, n);
    secs := SecsOf(fp.fs.geo, fp.chain + [n]);
    DirApart(fp.fs.geo, |fp.fs.vol|, fp.fs.fat, fp.chain + [n], secs, fp.dirSect, fp.dirClust);
    NewSectors(fp.fs.geo, fp.chain, n, fp.fs.promise.secs);
  }

  lemma OldBody(fp: Fil, volWas: seq<Sector>)
    requires Valid(fp.fs) && |volWas| == |fp.fs.vol| && SecsAre(fp.fs.geo, |fp.fs.vol|, fp.chain, fp.secs) &&
      fp.buf.Length == 512
    requires BodyMatches(fp.secs, fp.body, volWas, fp.sect, fp.buf[..])
    requires forall s: nat | s < |volWas| && !InFat(fp.fs.geo, s) :: fp.fs.vol[s] == volWas[s]
    ensures BodyMatches(fp.secs, fp.body, fp.fs.vol, fp.sect, fp.buf[..])
  {
    hide Valid, SecsOf, BodyMatches;
    GeoFacts(fp.fs);
    OutsideFatMatches(fp.fs.geo, fp.secs, fp.body, volWas, fp.fs.vol, fp.sect, fp.buf[..]);
  }

  /** The sectors of an appended cluster are none that were promised. */
  lemma NewSectors(g: Geometry, chain: seq<nat>, n: nat, kept: map<nat, Sector>)
    requires (forall i | 0 <= i < |chain| :: chain[i] >= 2) && n >= 2 && g.csize > 0
    requires forall s | s in kept :: !InCluster(g, n, s)
    ensures forall k | |SecsOf(g, chain)| <= k < |SecsOf(g, chain + [n])| :: SecsOf(g, chain + [n])[k] !in kept
  {
    hide SecsOf;
    var ch := chain + [n];
    forall k | |SecsOf(g, chain)| <= k < |SecsOf(g, ch)| ensures InCluster(g, n, SecsOf(g, ch)[k]) {
      var i, j := SecsIndex(g, ch, k);
      LastCluster(g, chain, n, i, j, k);
    }
  }

  lemma LastCluster(g: Geometry, chain: seq<nat>, n: nat, i: nat, j: nat, k: nat)
    requires forall l | 0 <= l < |chain| :: chain[l] >= 2
    requires i <= |chain| && j < g.csize && k == Times(i, g.csize) + j && k >= |SecsOf(g, chain)|
    ensures i == |chain|
  {
    hide SecsOf;
    if i < |chain| { TimesMonotone(i, |chain|, g.csize); }
  }

  lemma StillMatches(fp: Fil, volWas: seq<Sector>)
    requires BodyMatches(fp.secs, fp.body, volWas, fp.sect, fp.buf[..]) && fp.fs.vol == volWas
    ensures BodyMatches(fp.secs, fp.body, fp.fs.vol, fp.sect, fp.buf[..])
  {
  }

  /** FAT updates do not reach the sectors of a file. */
  lemma OutsideFatMatches(g: Geometry, secs: seq<nat>, body: seq<Sector>, vol: seq<Sector>, vol': seq<Sector>,
                          sect: nat, buf: seq<byte>)
    requires ValidGeometry(g, |vol|) && |vol'| == |vol| && GoodSecs(g, |vol|, secs)
    requires BodyMatches(secs, body, vol, sect, buf)
    requires forall s: nat | s < |vol| && !InFat(g, s) :: vol'[s] == vol[s]
    ensures BodyMatches(secs, body, vol', sect, buf)
  {
    Areas(g, |vol|);
    forall k | 0 <= k < |secs| ensures vol'[secs[k]] == vol[secs[k]] { assert g.database <= secs[k]; }
  }

  /** The chain grew from chainWas by free clusters; the pool and everything outside is the same. */
  ghost predicate Stretched(fp: Fil, chainWas: seq<nat>, fatWas: seq<nat>, secsWas: seq<nat>, volWas: seq<Sector>,
                            poolWas: nat)
    reads fp`chain, fp`secs, fp.fs`fat, fp.fs`vol, fp.fs`promise
  {
    && chainWas <= fp.chain && secsWas <= fp.secs
    && Clear(fp, |secsWas|, |fp.secs|)
    && Grown(fatWas, chainWas, fp.fs.fat, fp.chain)
    && Pool(fp) == poolWas && Outside(fp.fs.geo, fp.secs, volWas, fp.fs.vol)
  }

  /**
    create_chain at chain position i, or for a file without clusters. On success the result is the
    cluster at the next position; 0 means the chain ends here and no cluster is free.
  */
  method NextCluster(fp: Fil, ghost i: nat, clst: nat) returns (ncl: dword)
    requires fp.Core() && if fp.chain == [] then clst == 0 else i < |fp.chain| && clst == fp.chain[i]
    modifies fp`sclust, fp`chain, fp`secs, fp`body, fp.fs`winsect, fp.fs`wflag, fp.fs`vol, fp.fs`fat
    modifies fp.fs`lastClst, fp.fs`freeClst, fp.fs`fsiFlag, fp.fs.win, fp.fs.disk`img
    ensures ncl != 1 && (ncl == ERR32 ==> !fp.fs.disk.reliable && GaveUp(fp))
    ensures ncl != ERR32 ==> fp.Core() && old(fp.body) <= fp.body
    ensures ncl != ERR32 ==>
      Stretched(fp, old(fp.chain), old(fp.fs.fat), old(fp.secs), old(fp.fs.vol), old(Pool(fp)))
    ensures ncl == 0 ==> (clst == 0 || i + 1 == |fp.chain|) && CountFree(fp.fs.fat) == 0
    ensures ncl == 0 ==> fp.chain == old(fp.chain) && fp.secs == old(fp.secs) && fp.body == old(fp.body)
    ensures 2 <= ncl < ERR32 ==> var j := if clst == 0 then 0 else i + 1;
      j < |fp.chain| && ncl == fp.chain[j] && |fp.chain| == if j < |old(fp.chain)| then |old(fp.chain)| else j + 1
    ensures ncl != ERR32 && fp.chain == old(fp.chain) ==>
      fp.sclust == old(fp.sclust) && fp.fs.vol == old(fp.fs.vol) && (!old(fp.fs.wflag) ==> !fp.fs.wflag)
  {
    hide Valid, FreeCountOk, NoOnes, SecsAre, BodyMatches, DirSafe, NearestFree, Grown, Eoc, FreeBelow, Fil.Loose,
      Leads;
    GeoFacts(fp.fs);
    CoreLoose(fp);
    CoreThreaded(fp);
    ChainFacts(fp.fs.fat, fp.chain, i);
    ghost var fat, vol := fp.fs.fat, fp.fs.vol;
    GrownRefl(fat, fp.chain);
    ncl := CreateChain(fp.fs, clst);
    if ncl == ERR32 {
      StillLoose(fp);
      LeadsKept(fat, fp.fs.fat, fp.chain, i);
      return;
    }
    GeoFacts(fp.fs);
    if ncl == 0 {
      StillMatches(fp, vol);
    } else if Followed(fat, clst) {
      StillMatches(fp, vol);
    } else {
      NearestIsFree(fat, old(ScanStart(fp.fs, clst)), ncl);
      ValidFacts(fp.fs);
      TakenCount(fat, clst, ncl, Eoc(fp.fs.geo.fsType));
      AppendCluster(fp, fat, ncl, vol);
    }
    if ncl != 0 && fp.sclust == 0 { fp.sclust := ncl; }
  }

  /** FAT updates leave the buffer as it was. */
  twostate lemma StillLoose(fp: Fil)
    requires old(fp.Loose()) && Valid(fp.fs) && WindowMoved(fp.fs.geo, old(fp.fs.winsect), fp.fs.winsect)
    requires fp.dirty == old(fp.dirty) && fp.sect == old(fp.sect) && (fp.sclust == old(fp.sclust) || fp.sclust == 0)
    requires forall s | s in fp.fs.promise.secs :: s in old(fp.fs.promise.secs)
    ensures fp.Loose()
  {
    hide Decodes, Held, ValidGeometry, Copies, SaysFree, Keeps, Shadow;
    GeoFacts(fp.fs);
    ghost var g := fp.fs.geo;
    assert InFat(g, fp.fs.winsect) ==> fp.fs.winsect < g.database by { FatBelow(g, |fp.fs.vol|, fp.fs.winsect); }
  }

  lemma FatBelow(g: Geometry, disk: nat, s: nat)
    requires ValidGeometry(g, disk)
    ensures InFat(g, s) ==> s < g.database
  {
    hide FatBytes, Times;
  }

  /** A failure may have changed the entry of the last cluster. */
  lemma LeadsKept(was: seq<nat>, fat: seq<nat>, chain: seq<nat>, i: nat)
    requires (chain != [] ==> Linked(was, chain) && i < |chain|) && |fat| == |was|
    requires chain != [] && Followed(was, chain[i]) ==> fat == was
    requires forall d: nat | Cluster(was, d) && (chain == [] || d != chain[i]) && was[d] != 0 :: fat[d] == was[d]
    ensures Leads(fat, chain)
  {
    forall j | 0 <= j < |chain| - 1 ensures fat[chain[j]] == chain[j + 1] {
      ChainFacts(was, chain, i);
      if i == |chain| - 1 { LinkedDistinct(was, chain, j, i); }
    }
  }

  lemma StretchedRefl(fp: Fil)
    ensures Stretched(fp, fp.chain, fp.fs.fat, fp.secs, fp.fs.vol, Pool(fp))
  {
  }

  /** Entries met along a terminated chain. */
  lemma ChainFacts(fat: seq<nat>, chain: seq<nat>, i: nat)
    requires chain != [] ==> Linked(fat, chain)
    ensures i < |chain| ==> Cluster(fat, chain[i]) && fat[chain[i]] >= 2
    ensures i + 1 < |chain| ==> fat[chain[i]] == chain[i + 1] && Followed(fat, chain[i])
    ensures i + 1 == |chain| ==> fat[chain[i]] >= |fat| && !Followed(fat, chain[i])
    ensures chain != [] ==> chain[0] >= 2
  {
  }

  /** The cluster-boundary step of f_write: follow the chain or stretch it. */
  method EnterCluster(fp: Fil) returns (res: FResult, full: bool)
    requires fp.Sound() && fp.fptr % 512 == 0 && Csect(fp.fs.geo, fp.fptr) == 0
    modifies fp`sclust, fp`clust, fp`chain, fp`secs, fp`body, fp.fs`winsect, fp.fs`wflag, fp.fs`vol, fp.fs`fat
    modifies fp.fs`lastClst, fp.fs`freeClst, fp.fs`fsiFlag, fp.fs.win, fp.fs.disk`img
    ensures res == OK || (res == DiskErr && !fp.fs.disk.reliable)
    ensures res == OK ==>
      Stretched(fp, old(fp.chain), old(fp.fs.fat), old(fp.secs), old(fp.fs.vol), old(Pool(fp)))
    ensures res == OK ==> old(fp.body) <= fp.body
    ensures res == OK && full ==> fp.Sound() && fp.body == old(fp.body) && CountFree(fp.fs.fat) == 0
    ensures res == OK && full ==> fp.fptr == fp.objsize == |fp.body| * 512
    ensures res == OK && !full ==> fp.Core() && Entered(fp, old(fp.chain))
    ensures res != OK ==> GaveUp(fp)
  {
    hide Fil.Loose, Fil.Threaded, Valid, Fil.VolumeOk, Fil.BufOk, Fil.WindowOk, Linked, SecsAre, BodyMatches,
      Stretched, Idx, Csect;
    BoundaryFacts(fp);
    StretchedRefl(fp);
    full := false;
    var clst: dword;
    if fp.fptr == 0 {
      clst := fp.sclust;
      if clst == 0 { clst := NextCluster(fp, 0, 0); }
    } else {
      clst := NextCluster(fp, Idx(fp.fs.geo, fp.fptr - 1), fp.clust);
    }
    if clst == 0 { return OK, true; }
    if clst == 1 { return IntErr, false; }
    if clst == ERR32 { return DiskErr, false; }
    fp.clust := clst;
    res := OK;
  }

  lemma IdxZero(g: Geometry)
    requires g.csize > 0
    ensures Idx(g, 0) == 0
  {
  }

  /** What f_write knows at a cluster boundary. */
  lemma BoundaryFacts(fp: Fil)
    requires fp.Sound() && fp.fptr % 512 == 0 && Csect(fp.fs.geo, fp.fptr) == 0
    ensures fp.fs.geo.csize > 0
    ensures fp.fptr > 0 ==> Idx(fp.fs.geo, fp.fptr) == Idx(fp.fs.geo, fp.fptr - 1) + 1
    ensures fp.fptr == 0 ==> Idx(fp.fs.geo, fp.fptr) == 0
    ensures fp.chain == [] <==> fp.objsize == 0
    ensures fp.chain == [] <==> fp.sclust == 0
    ensures fp.chain != [] ==> fp.sclust == fp.chain[0]
    ensures Idx(fp.fs.geo, fp.fptr) == |fp.chain| ==> fp.fptr == fp.objsize == |fp.body| * 512
    ensures fp.fptr > 0 ==> fp.chain != [] && fp.clust >= 2
    ensures fp.sclust < ERR32 && (fp.fptr > 0 ==> fp.clust < ERR32) && fp.sclust != 1
    ensures |fp.chain| == Clusters(fp.fs.geo, fp.objsize)
  {
    hide Fil.BufOk, Fil.WindowOk, SecsOf, FreeCountOk, NoOnes, Idx, Csect, Linked, Decodes, Fatfs.Coherent;
    GeoFacts(fp.fs);
    ChainFacts(fp.fs.fat, fp.chain, 0);
    IdxSector(fp.fs.geo, fp.fptr);
    IdxZero(fp.fs.geo);
    if fp.fptr > 0 {
      IdxStep(fp.fs.geo, fp.fptr);
      ChainFacts(fp.fs.fat, fp.chain, Idx(fp.fs.geo, fp.fptr - 1));
      if fp.fptr < fp.objsize { IdxMonotone(fp.fs.geo, fp.fptr, fp.objsize - 1); }
    }
  }

  /** clust is the cluster of the byte at fptr, and the chain reaches just far enough. */
  ghost predicate Entered(fp: Fil, chainWas: seq<nat>)
    reads fp`fptr, fp`clust, fp`chain
  {
    && fp.fs.geo.csize > 0 && Idx(fp.fs.geo, fp.fptr) < |fp.chain|
    && fp.clust == fp.chain[Idx(fp.fs.geo, fp.fptr)]
    && |fp.chain| == if Idx(fp.fs.geo, fp.fptr) < |chainWas| then |chainWas| else Idx(fp.fs.geo, fp.fptr) + 1
  }

  /** The sector of the byte at fptr, once its cluster is known. */
  lemma SectorHere(fp: Fil)
    requires fp.fs.geo.csize > 0 && SecsAre(fp.fs.geo, |fp.fs.vol|, fp.chain, fp.secs)
    requires Idx(fp.fs.geo, fp.fptr) < |fp.chain| && fp.clust == fp.chain[Idx(fp.fs.geo, fp.fptr)]
    ensures fp.clust >= 2 && fp.fptr / 512 < |fp.secs|
    ensures fp.secs[fp.fptr / 512] == FirstSector(fp.fs.geo, fp.clust) + Csect(fp.fs.geo, fp.fptr)
    ensures forall cnt: nat | Csect(fp.fs.geo, fp.fptr) + cnt <= fp.fs.geo.csize ::
      Contiguous(fp.secs, fp.fptr / 512, cnt)
  {
    hide Idx, Csect, SecsOf, Contiguous, FirstSector, GoodSecs;
    var g, i, j, k := fp.fs.geo, Idx(fp.fs.geo, fp.fptr), Csect(fp.fs.geo, fp.fptr), fp.fptr / 512;
    IdxSector(g, fp.fptr);
    SecsAt(g, fp.chain, i, j);
    forall cnt: nat | j + cnt <= g.csize ensures Contiguous(fp.secs, k, cnt) { ClusterRun(g, fp.chain, i, j, cnt); }
  }

  /** mem_cpy into a sector buffer. */
  method CopyInto(buf: array<byte>, o: nat, x: seq<byte>)
    requires buf.Length == 512 && o + |x| <= 512
    modifies buf
    ensures buf[..] == Overwrite(old(buf[..]), o, x)
  {
    CopyBytes(buf, o, x);
  }

  /** Refills the buffer if the direct write to sect .. sect+cc-1 made it stale. */
  method RefillBuf(fp: Fil, x: seq<byte>, sect: dword, cc: nat)
    requires fp.buf.Length == 512 && |x| == cc * 512 && sect + cc < 0x1_0000_0000
    modifies fp.buf
    ensures fp.buf[..] ==
      if sect <= fp.sect < sect + cc then Chunk(x, fp.sect - sect) else old(fp.buf[..])
  {
    if Sub32(fp.sect, sect) < cc {
      ghost var was := fp.buf[..];
      CopyInto(fp.buf, 0, Chunk(x, fp.sect - sect));
      OverwriteAll(was, Chunk(x, fp.sect - sect));
    }
  }

  /** The direct path of f_write: whole sectors go past the buffer, which is refilled if it is hit. */
  method WriteDirect(fp: Fil, x: seq<byte>, sect: dword, cc: nat) returns (res: FResult)
    requires fp.Core() && !fp.dirty && cc > 0 && |x| == cc * 512
    requires fp.fptr / 512 < |fp.secs| && sect == fp.secs[fp.fptr / 512] && Contiguous(fp.secs, fp.fptr / 512, cc)
    requires Clear(fp, fp.fptr / 512, fp.fptr / 512 + cc - 1)
    modifies fp`body, fp.buf, fp.fs`vol, fp.fs.disk`img
    ensures res == OK || (res == DiskErr && !fp.fs.disk.reliable)
    ensures res == OK ==> fp.Core() && Outside(fp.fs.geo, fp.secs, old(fp.fs.vol), fp.fs.vol)
    ensures res == OK ==> RunWritten(old(fp.body), fp.body, fp.fptr / 512, cc, x)
    ensures fp.Loose()
  {
    hide Valid, FreeCountOk, NoOnes, Chained, SecsAre, BodyMatches, DirSafe, Overwrite, RunWritten, Contiguous,
      Distinct, Fil.Covers, Chunk;
    GeoFacts(fp.fs);
    CoreLoose(fp);
    ghost var k, vol, buf := fp.fptr / 512, fp.fs.vol, fp.buf[..];
    RunSafe(fp, k, cc);
    RunClear(fp, k, cc);
    var ok := WriteDataRun(fp.fs, x, sect, cc);
    if !ok { return DiskErr; }
    RefillBuf(fp, x, sect, cc);
    fp.body := MatchRun(fp.secs, fp.body, vol, fp.fs.vol, fp.sect, buf, fp.buf[..], k, cc, x);
    res := OK;
  }

  lemma RunClear(fp: Fil, k: nat, cnt: nat)
    requires cnt > 0 && k < |fp.secs| && Contiguous(fp.secs, k, cnt) && Clear(fp, k, k + cnt - 1)
    ensures forall s: nat | fp.secs[k] <= s < fp.secs[k] + cnt :: s !in fp.fs.promise.secs
  {
    forall s: nat | fp.secs[k] <= s < fp.secs[k] + cnt ensures s !in fp.fs.promise.secs {
      assert fp.secs[k + (s - fp.secs[k])] == s;
    }
  }

  lemma OverwriteAll(s: Sector, x: seq<byte>)
    requires |x| == 512
    ensures Overwrite(s, 0, x) == x
  {
  }

  lemma RunSafe(fp: Fil, k: nat, cnt: nat)
    requires fp.Core() && cnt > 0 && Contiguous(fp.secs, k, cnt)
    ensures fp.fs.geo.database <= fp.secs[k] && fp.secs[k] + cnt <= |fp.fs.vol|
    ensures !(fp.secs[k] <= fp.fs.winsect < fp.secs[k] + cnt) && Distinct(fp.secs)
    ensures forall s: nat | fp.secs[k] <= s < fp.secs[k] + cnt :: s in fp.secs
  {
    hide Valid, FreeCountOk, NoOnes, Chained, SecsOf, BodyMatches;
    GeoFacts(fp.fs);
    DirApart(fp.fs.geo, |fp.fs.vol|, fp.fs.fat, fp.chain, fp.secs, fp.dirSect, fp.dirClust);
    assert fp.secs[k + cnt - 1] == fp.secs[k] + (cnt - 1);
    forall s: nat | fp.secs[k] <= s < fp.secs[k] + cnt ensures s in fp.secs {
      assert fp.secs[k + (s - fp.secs[k])] == s;
    }
  }

  /** A sector of the file is a data sector that the window does not show. */
  lemma SectorSafe(fp: Fil, k: nat)
    requires fp.Core() && k < |fp.secs|
    ensures fp.fs.geo.database <= fp.secs[k] < |fp.fs.vol| && fp.secs[k] != fp.dirSect && fp.secs[k] != fp.fs.winsect
    ensures Distinct(fp.secs) && |fp.body| == |fp.secs| && 0 !in fp.secs
  {
    hide Valid, FreeCountOk, NoOnes, Chained, SecsOf;
    GeoFacts(fp.fs);
    DirApart(fp.fs.geo, |fp.fs.vol|, fp.fs.fat, fp.chain, fp.secs, fp.dirSect, fp.dirClust);
  }

  /** The cached path of f_write: fill the buffer unless the sector is new, then copy into it. */
  method WritePartial(fp: Fil, x: seq<byte>, sect: dword) returns (res: FResult)
    requires fp.Core() && fp.Covers() && fp.fptr <= fp.objsize && 0 < |x| && fp.fptr % 512 + |x| <= 512
    requires fp.fptr / 512 < |fp.secs| && sect == fp.secs[fp.fptr / 512]
    requires if fp.fptr % 512 == 0 then !fp.dirty else fp.sect == sect
    requires Clear(fp, fp.fptr / 512, fp.fptr / 512)
    modifies fp`sect, fp`dirty, fp`body, fp.buf
    ensures res == OK || (res == DiskErr && !fp.fs.disk.reliable)
    ensures res == OK ==> fp.Core() && fp.dirty && fp.sect == sect && |fp.body| == |old(fp.body)|
    ensures res == OK ==> fp.fptr + |x| <= |fp.body| * 512
    ensures res == OK ==>
      Bytes(fp.body, if fp.fptr + |x| > fp.objsize then fp.fptr + |x| else fp.objsize) ==
        Splice(old(fp.Data()), fp.fptr, x)
    ensures res != OK ==> fp.Loose()
  {
    hide Valid, FreeCountOk, NoOnes, Chained, SecsAre, DirSafe, BodyMatches, Bytes, Splice, Overwrite, Distinct;
    hide InFat, Shadow;
    GeoFacts(fp.fs);
    CoreLoose(fp);
    SectorSafe(fp, fp.fptr / 512);
    ghost var k, oldSect, oldBuf, oldBody := fp.fptr / 512, fp.sect, fp.buf[..], fp.body;
    res := FillBuf(fp, sect);
    if res != OK { return; }
    ghost var mid := fp.buf[..];
    CopyInto(fp.buf, fp.fptr % 512, x);
    fp.dirty := true;
    MatchPatch(fp.secs, oldBody, fp.fs.vol, oldSect, oldBuf, k, fp.buf[..]);
    fp.body := oldBody[k := fp.buf[..]];
    BytesPatch(oldBody, fp.objsize, fp.fptr, mid, x);
  }

  /** Brings the sector under the cursor into the buffer, unless it is new and has nothing to keep. */
  method FillBuf(fp: Fil, sect: dword) returns (res: FResult)
    requires fp.Core() && fp.fptr <= fp.objsize && fp.fptr / 512 < |fp.secs| && sect == fp.secs[fp.fptr / 512]
    requires if fp.fptr % 512 == 0 then !fp.dirty else fp.sect == sect
    modifies fp`sect, fp.buf
    ensures res == OK || (res == DiskErr && !fp.fs.disk.reliable)
    ensures res == OK ==> fp.sect == sect && |fp.body| == |fp.secs|
    ensures res != OK ==> !fp.dirty
    ensures res == OK ==> fp.buf[..] == fp.body[fp.fptr / 512] || (fp.fptr == fp.objsize && fp.fptr % 512 == 0)
  {
    hide Valid, FreeCountOk, NoOnes, Chained, SecsAre, DirSafe, BodyMatches, Distinct;
    GeoFacts(fp.fs);
    SectorSafe(fp, fp.fptr / 512);
    ghost var oldSect, oldBuf := fp.sect, fp.buf[..];
    if fp.fptr % 512 == 0 {
      if fp.sect != sect && fp.fptr < fp.objsize {
        var ok := fp.fs.disk.ReadSector(fp.buf, sect);
        if !ok { return DiskErr; }
        SectorClean(fp.fs, sect);
      }
      fp.sect := sect;
    }
    BufferLive(fp.body, fp.secs, fp.fs.vol, oldSect, oldBuf, fp.fptr / 512, fp.fptr, fp.objsize, fp.buf[..]);
    res := OK;
  }

  /** What the buffer holds before the copy: sector k, unless the write starts it at the growing edge. */
  lemma BufferLive(body: seq<Sector>, secs: seq<nat>, vol: seq<Sector>, sect: nat, buf: seq<byte>, k: nat, p: nat,
                   n: nat, mid: seq<byte>)
    requires BodyMatches(secs, body, vol, sect, buf) && k == p / 512 < |secs| && p <= n
    requires if sect == secs[k] then mid == buf else p % 512 == 0 && (p < n ==> secs[k] < |vol| && mid == vol[secs[k]])
    ensures mid == body[k] || (p == n && p % 512 == 0)
  {
  }

  /** A data sector the window does not show is on the disk as it is in the volume. */
  lemma SectorClean(fs: Fatfs, sect: nat)
    requires Valid(fs) && fs.geo.database <= sect < |fs.vol| && fs.winsect != sect
    ensures |fs.disk.img| == |fs.vol| && fs.disk.img[sect] == fs.vol[sect]
  {
    Areas(fs.geo, |fs.vol|);
  }

  /** Moves the cursor over w bytes just written and grows the file if it passed the end. */
  method Advance(fp: Fil, w: nat, ghost chainWas: seq<nat>)
    requires fp.Core() && fp.fptr <= fp.objsize && 0 < w && fp.fptr + w < 0x1_0000_0000
    requires Entered(fp, chainWas) && |chainWas| == Clusters(fp.fs.geo, fp.objsize)
    requires Idx(fp.fs.geo, fp.fptr + w - 1) == Idx(fp.fs.geo, fp.fptr)
    requires (fp.fptr + w) % 512 != 0 ==>
      fp.fptr / 512 == (fp.fptr + w) / 512 && fp.fptr / 512 < |fp.secs| && fp.sect == fp.secs[fp.fptr / 512]
    requires fp.fptr + w <= |fp.body| * 512 && fp.objsize <= |fp.body| * 512
    modifies fp`fptr, fp`objsize
    ensures fp.Sound() && fp.fptr == old(fp.fptr) + w
    ensures fp.objsize == if fp.fptr > old(fp.objsize) then fp.fptr else old(fp.objsize)
  {
    hide Fil.VolumeOk, Fil.BufOk, Fil.WindowOk, Chained, SecsAre, BodyMatches, Idx, Clusters;
    TightAfter(fp.fs.geo, |chainWas|, fp.objsize, fp.fptr, w);
    fp.fptr := fp.fptr + w;
    if fp.fptr > fp.objsize { fp.objsize := fp.fptr; }
  }

  lemma TightAfter(g: Geometry, was: nat, n: nat, p: nat, w: nat)
    requires g.csize > 0 && was == Clusters(g, n) && p <= n && w > 0 && Idx(g, p + w - 1) == Idx(g, p)
    ensures Clusters(g, if p + w > n then p + w else n) == if Idx(g, p) < was then was else Idx(g, p) + 1
  {
    hide Idx;
    if p + w > n {
      if n > 0 { IdxMonotone(g, n - 1, p + w - 1); }
    } else {
      IdxMonotone(g, p + w - 1, n - 1);
    }
  }

  /** w bytes from p on stay in one cluster. */
  lemma SameCluster(g: Geometry, p: nat, w: nat)
    requires g.csize > 0 && w > 0
    requires p % 512 + w <= 512 || (p % 512 == 0 && Csect(g, p) * 512 + w <= g.csize * 512)
    ensures Idx(g, p + w - 1) == Idx(g, p)
  {
    hide Idx, Csect;
    IdxSector(g, p);
    IdxUnique(g, p + w - 1, Idx(g, p));
  }

  /** The cursor stands at a byte whose sector is known. */
  ghost predicate AtSector(fp: Fil, chainWas: seq<nat>)
    reads fp, fp.buf, fp.fs`winsect, fp.fs`wflag, fp.fs`vol, fp.fs`fat, fp.fs`freeClst, fp.fs`promise, fp.fs`fsiCount,
      fp.fs`fsiFlag, fp.fs.win, fp.fs.disk
  {
    && fp.Core() && fp.Covers() && fp.fptr <= fp.objsize && Entered(fp, chainWas)
    && |chainWas| == Clusters(fp.fs.geo, fp.objsize) && fp.fptr / 512 < |fp.secs|
  }

  /** A sound file is at its cluster unless the cursor is on a cluster boundary. */
  lemma SoundFacts(fp: Fil)
    requires fp.Sound()
    ensures fp.fs.geo.csize > 0 && |fp.chain| == Clusters(fp.fs.geo, fp.objsize) && fp.fptr <= fp.objsize
    ensures fp.fptr % 512 != 0 || Csect(fp.fs.geo, fp.fptr) != 0 ==> Entered(fp, fp.chain)
    ensures fp.fptr % 512 != 0 ==> fp.fptr / 512 < |fp.secs| && fp.sect == fp.secs[fp.fptr / 512]
  {
    hide Fil.VolumeOk, Fil.BufOk, Fil.WindowOk, Chained, SecsAre, BodyMatches;
    if fp.fptr > 0 { IdxStep(fp.fs.geo, fp.fptr); }
  }

  /** clust2sect at the entered cluster. */
  lemma EnteredSector(fp: Fil, chainWas: seq<nat>)
    requires fp.Core() && Entered(fp, chainWas)
    ensures 2 <= fp.clust < fp.fs.geo.nFatent && fp.fptr / 512 < |fp.secs|
    ensures 0 < FirstSector(fp.fs.geo, fp.clust) &&
      FirstSector(fp.fs.geo, fp.clust) + Csect(fp.fs.geo, fp.fptr) < |fp.fs.vol| <= ERR32
    ensures fp.secs[fp.fptr / 512] == FirstSector(fp.fs.geo, fp.clust) + Csect(fp.fs.geo, fp.fptr)
    ensures forall cnt: nat | Csect(fp.fs.geo, fp.fptr) + cnt <= fp.fs.geo.csize ::
      Contiguous(fp.secs, fp.fptr / 512, cnt)
  {
    hide Fil.BufOk, Fil.WindowOk, BodyMatches, Idx, Csect, Contiguous, SecsAre, FreeCountOk, NoOnes, FirstSector;
    GeoFacts(fp.fs);
    SectorHere(fp);
    ChainFacts(fp.fs.fat, fp.chain, Idx(fp.fs.geo, fp.fptr));
    ClusterRange(fp.fs.geo, |fp.fs.vol|, fp.clust);
  }

  lemma StretchedMore(fp: Fil, chain: seq<nat>, fat: seq<nat>, secs: seq<nat>, vol: seq<Sector>, pool: nat,
                      volMid: seq<Sector>)
    requires chain <= fp.chain && secs <= fp.secs && Grown(fat, chain, fp.fs.fat, fp.chain) && Pool(fp) == pool
    requires Outside(fp.fs.geo, fp.secs, vol, volMid) && Outside(fp.fs.geo, fp.secs, volMid, fp.fs.vol)
    requires Clear(fp, |secs|, |fp.secs|)
    ensures Stretched(fp, chain, fat, secs, vol, pool)
  {
  }

  /** The sector-boundary part of f_write: enter the cluster if needed, flush, find the sector. */
  method EnterSector(fp: Fil) returns (res: FResult, full: bool, sect: dword)
    requires fp.Sound() && fp.fptr % 512 == 0
    modifies fp`sclust, fp`clust, fp`chain, fp`secs, fp`body, fp`dirty
    modifies fp.fs`winsect, fp.fs`wflag, fp.fs`vol, fp.fs`fat, fp.fs`lastClst, fp.fs`freeClst, fp.fs`fsiFlag
    modifies fp.fs.win, fp.fs.disk`img
    ensures res == OK || (res == DiskErr && !fp.fs.disk.reliable)
    ensures res == OK ==> Stretched(fp, old(fp.chain), old(fp.fs.fat), old(fp.secs), old(fp.fs.vol), old(Pool(fp)))
    ensures res == OK && full ==>
      fp.Sound() && fp.Data() == old(fp.Data()) && CountFree(fp.fs.fat) == 0 && fp.fptr == fp.objsize == |fp.body| * 512
    ensures res == OK && !full ==>
      AtSector(fp, old(fp.chain)) && fp.Data() == old(fp.Data()) && !fp.dirty && sect == fp.secs[fp.fptr / 512]
    ensures res == OK && !full ==>
      forall cnt: nat | Csect(fp.fs.geo, fp.fptr) + cnt <= fp.fs.geo.csize :: Contiguous(fp.secs, fp.fptr / 512, cnt)
    ensures res != OK ==> GaveUp(fp)
  {
    hide Fil.Core, Fil.Cursor, Fil.Tight, Fil.Loose, Fil.Threaded, Valid, Fil.VolumeOk, Fil.BufOk, Fil.WindowOk,
      Chained, SecsAre, BodyMatches, Idx, Clusters, Csect, Outside, Contiguous;
    hide Bytes, Grown, Entered, FirstSector;
    full, sect := false, 0;
    ghost var chain, fat, secs, body, vol, pool := fp.chain, fp.fs.fat, fp.secs, fp.body, fp.fs.vol, Pool(fp);
    SoundFacts(fp);
    StretchedRefl(fp);
    var csect := Csect(fp.fs.geo, fp.fptr);
    if csect == 0 {
      res, full := EnterCluster(fp);
      if res != OK || full { return; }
    }
    BytesPrefix(body, fp.body, fp.objsize, fp.objsize);
    CoreThreaded(fp);
    StretchedParts(fp, chain, fat, secs, vol, pool);
    ghost var volMid := fp.fs.vol;
    CoreLoose(fp);
    res := FlushBuf(fp);
    if res != OK { return; }
    StretchedMore(fp, chain, fat, secs, vol, pool, volMid);
    EnteredSector(fp, chain);
    sect := Clust2Sect(fp.fs.geo, fp.clust);
    if sect == 0 { res := IntErr; return; }
    sect := sect + csect;
  }

  /** Whole sectors, as many as the cluster has left. */
  method WriteSectors(fp: Fil, x: seq<byte>, sect: dword, ghost chainWas: seq<nat>) returns (res: FResult, wcnt: nat)
    requires AtSector(fp, chainWas) && !fp.dirty && fp.fptr % 512 == 0 && sect == fp.secs[fp.fptr / 512]
    requires |x| >= 512 && fp.fptr + |x| < 0x1_0000_0000 && Clear(fp, fp.fptr / 512, LastOf(fp.fptr, |x|))
    requires forall cnt: nat | Csect(fp.fs.geo, fp.fptr) + cnt <= fp.fs.geo.csize ::
      Contiguous(fp.secs, fp.fptr / 512, cnt)
    modifies fp`body, fp`fptr, fp`objsize, fp.buf, fp.fs`vol, fp.fs.disk`img
    ensures res == OK || (res == DiskErr && !fp.fs.disk.reliable)
    ensures res == OK ==> fp.Sound() && 0 < wcnt <= |x| && fp.fptr == old(fp.fptr) + wcnt
    ensures res == OK ==> fp.Data() == Splice(old(fp.Data()), old(fp.fptr), x[..wcnt])
    ensures res == OK ==> Outside(fp.fs.geo, fp.secs, old(fp.fs.vol), fp.fs.vol)
    ensures res != OK ==> fp.Loose() && fp.objsize == old(fp.objsize)
  {
    hide Fil.Loose, Valid, Fil.VolumeOk, Fil.BufOk, Fil.WindowOk, Chained, SecsAre, BodyMatches, Idx, Clusters, Csect,
      Outside, Contiguous;
    hide RunWritten, Bytes, Splice;
    var csect := Csect(fp.fs.geo, fp.fptr);
    var cc := |x| / 512;
    if csect + cc > fp.fs.geo.csize { cc := fp.fs.geo.csize - csect; }
    wcnt := cc * 512;
    ghost var body := fp.body;
    res := WriteDirect(fp, x[..wcnt], sect, cc);
    if res != OK { return; }
    SameCluster(fp.fs.geo, fp.fptr, wcnt);
    BytesWhole(body, fp.body, fp.objsize, fp.fptr / 512, cc, x[..wcnt]);
    Advance(fp, wcnt, chainWas);
  }

  /** At most one sector, through the buffer. */
  method WriteBytes(fp: Fil, x: seq<byte>, sect: dword, ghost chainWas: seq<nat>) returns (res: FResult, wcnt: nat)
    requires AtSector(fp, chainWas) && sect == fp.secs[fp.fptr / 512]
    requires if fp.fptr % 512 == 0 then !fp.dirty && |x| < 512 else fp.sect == sect
    requires |x| > 0 && fp.fptr + |x| < 0x1_0000_0000 && Clear(fp, fp.fptr / 512, fp.fptr / 512)
    modifies fp`body, fp`fptr, fp`objsize, fp`sect, fp`dirty, fp.buf
    ensures res == OK || (res == DiskErr && !fp.fs.disk.reliable)
    ensures res == OK ==> fp.Sound() && 0 < wcnt <= |x| && fp.fptr == old(fp.fptr) + wcnt
    ensures res == OK ==> fp.Data() == Splice(old(fp.Data()), old(fp.fptr), x[..wcnt])
    ensures res != OK ==> fp.Loose() && fp.objsize == old(fp.objsize)
  {
    hide Fil.Loose, Fil.VolumeOk, Fil.BufOk, Fil.WindowOk, Chained, SecsAre, BodyMatches, Idx, Clusters, Splice,
      Bytes;
    wcnt := 512 - fp.fptr % 512;
    if wcnt > |x| { wcnt := |x|; }
    res := WritePartial(fp, x[..wcnt], sect);
    if res != OK { return; }
    SameCluster(fp.fs.geo, fp.fptr, wcnt);
    Advance(fp, wcnt, chainWas);
  }

  /** One pass of the f_write loop on a sector boundary. */
  method WriteFromBoundary(fp: Fil, x: seq<byte>) returns (res: FResult, wcnt: nat)
    requires fp.Sound() && |x| > 0 && fp.fptr + |x| < 0x1_0000_0000 && Clear(fp, fp.fptr / 512, LastOf(fp.fptr, |x|))
    requires fp.fptr % 512 == 0
    modifies fp`sclust, fp`clust, fp`chain, fp`secs, fp`body, fp`sect, fp`dirty, fp`fptr, fp`objsize, fp.buf
    modifies fp.fs`winsect, fp.fs`wflag, fp.fs`vol, fp.fs`fat, fp.fs`lastClst, fp.fs`freeClst, fp.fs`fsiFlag
    modifies fp.fs.win, fp.fs.disk`img
    ensures res == OK || (res == DiskErr && !fp.fs.disk.reliable)
    ensures res == OK ==> fp.Sound() && wcnt <= |x| && fp.fptr == old(fp.fptr) + wcnt
    ensures res == OK ==> fp.Data() == Splice(old(fp.Data()), old(fp.fptr), x[..wcnt])
    ensures res == OK ==> Stretched(fp, old(fp.chain), old(fp.fs.fat), old(fp.secs), old(fp.fs.vol), old(Pool(fp)))
    ensures res == OK && wcnt == 0 ==> CountFree(fp.fs.fat) == 0 && fp.fptr == fp.objsize == |fp.body| * 512
    ensures res != OK ==> GaveUp(fp)
  {
    hide Fil.Loose, Fil.Threaded, Stretched, Clear, LastOf, Valid, Fil.VolumeOk, Fil.BufOk, Fil.WindowOk, Chained,
      SecsAre, BodyMatches, Idx, Clusters;
    hide Csect, Outside, Contiguous, Bytes, Grown, Splice, AtSector, Fil.Core, Fil.Cursor, Fil.Tight;
    wcnt := 0;
    ghost var chain, fat, secs, vol, pool := fp.chain, fp.fs.fat, fp.secs, fp.fs.vol, Pool(fp);
    ghost var lo, hi := fp.fptr / 512, LastOf(fp.fptr, |x|);
    ClearParts(fp, lo, hi);
    SoundFacts(fp);
    SpliceNothing(fp.Data(), fp.fptr, x);
    var full, sect;
    res, full, sect := EnterSector(fp);
    if res != OK || full { return; }
    StretchedParts(fp, chain, fat, secs, vol, pool);
    ClearAgain(fp, secs, lo, hi);
    AtValid(fp, chain);
    if |x| / 512 > 0 {
      ghost var volMid := fp.fs.vol;
      res, wcnt := WriteSectors(fp, x, sect, chain);
      if res == OK { StretchedMore(fp, chain, fat, secs, vol, pool, volMid); }
    } else {
      FirstOf(fp, |x|);
      res, wcnt := WriteBytes(fp, x, sect, chain);
    }
  }

  lemma AtValid(fp: Fil, chainWas: seq<nat>)
    requires AtSector(fp, chainWas)
    ensures Valid(fp.fs) && fp.buf != fp.fs.win && fp.Covers() && fp.fptr <= fp.objsize && fp.fptr / 512 < |fp.secs|
    ensures fp.Threaded()
  {
    hide Valid, Fil.Core, Fil.Threaded, Entered, Clusters;
    CoreThreaded(fp);
    CoreValid(fp);
  }

  /** One pass of the f_write loop: how much it wrote, 0 when the volume is full. */
  method WriteStep(fp: Fil, x: seq<byte>) returns (res: FResult, wcnt: nat)
    requires fp.Sound() && |x| > 0 && fp.fptr + |x| < 0x1_0000_0000 && Clear(fp, fp.fptr / 512, LastOf(fp.fptr, |x|))
    modifies fp`sclust, fp`clust, fp`chain, fp`secs, fp`body, fp`sect, fp`dirty, fp`fptr, fp`objsize, fp.buf
    modifies fp.fs`winsect, fp.fs`wflag, fp.fs`vol, fp.fs`fat, fp.fs`lastClst, fp.fs`freeClst, fp.fs`fsiFlag
    modifies fp.fs.win, fp.fs.disk`img
    ensures res == OK || (res == DiskErr && !fp.fs.disk.reliable)
    ensures res == OK ==> fp.Sound() && wcnt <= |x| && fp.fptr == old(fp.fptr) + wcnt
    ensures res == OK ==> fp.Data() == Splice(old(fp.Data()), old(fp.fptr), x[..wcnt])
    ensures res == OK ==> Stretched(fp, old(fp.chain), old(fp.fs.fat), old(fp.secs), old(fp.fs.vol), old(Pool(fp)))
    ensures res == OK && wcnt == 0 ==> CountFree(fp.fs.fat) == 0 && fp.fptr == fp.objsize == |fp.body| * 512
    ensures res != OK ==> GaveUp(fp)
  {
    hide Fil.Loose, Fil.Threaded, Stretched, Clear, LastOf, Valid, Fil.VolumeOk, Fil.BufOk, Fil.WindowOk, Chained,
      SecsAre, BodyMatches, Idx, Clusters;
    hide Csect, Bytes, Entered, Splice;
    if fp.fptr % 512 == 0 {
      res, wcnt := WriteFromBoundary(fp, x);
    } else {
      SoundFacts(fp);
      StretchedRefl(fp);
      CoreThreaded(fp);
      CoreValid(fp);
      FirstOf(fp, |x|);
      res, wcnt := WriteBytes(fp, x, fp.sect, fp.chain);
    }
  }

  lemma ClearParts(fp: Fil, lo: nat, hi: nat)
    requires Clear(fp, lo, hi)
    ensures forall k | lo <= k <= hi && k < |fp.secs| :: fp.secs[k] !in fp.fs.promise.secs
  {
  }

  /** The sectors to be written are still unpromised after the chain was stretched. */
  lemma ClearAgain(fp: Fil, secs: seq<nat>, lo: nat, hi: nat)
    requires secs <= fp.secs && forall k | lo <= k <= hi && k < |secs| :: secs[k] !in fp.fs.promise.secs
    requires forall k | |secs| <= k < |fp.secs| :: fp.secs[k] !in fp.fs.promise.secs
    ensures Clear(fp, lo, hi) && Clear(fp, |secs|, |fp.secs|)
  {
  }

  lemma FirstOf(fp: Fil, n: nat)
    requires n > 0
    ensures Clear(fp, fp.fptr / 512, LastOf(fp.fptr, n)) ==> Clear(fp, fp.fptr / 512, fp.fptr / 512)
  {
  }

  lemma CoreValid(fp: Fil)
    requires fp.Core()
    ensures Valid(fp.fs) && fp.buf != fp.fs.win && fp.Loose()
  {
    hide Chained, SecsAre, BodyMatches, Valid, FreeCountOk, NoOnes, Fil.Loose;
    CoreLoose(fp);
  }

  lemma StretchedParts(fp: Fil, chain: seq<nat>, fat: seq<nat>, secs: seq<nat>, vol: seq<Sector>, pool: nat)
    requires Stretched(fp, chain, fat, secs, vol, pool)
    ensures chain <= fp.chain && secs <= fp.secs && Grown(fat, chain, fp.fs.fat, fp.chain) &&
      Outside(fp.fs.geo, fp.secs, vol, fp.fs.vol)
    ensures Pool(fp) == pool && forall k | |secs| <= k < |fp.secs| :: fp.secs[k] !in fp.fs.promise.secs
  {
    hide Grown, Outside;
  }

  lemma StretchedTrans(fp: Fil, chain: seq<nat>, fat: seq<nat>, secs: seq<nat>, vol: seq<Sector>, pool: nat,
                       chain1: seq<nat>, fat1: seq<nat>, secs1: seq<nat>, vol1: seq<Sector>)
    requires chain <= chain1 && secs <= secs1 && Grown(fat, chain, fat1, chain1) && Outside(fp.fs.geo, secs1, vol, vol1)
    requires Stretched(fp, chain1, fat1, secs1, vol1, pool) && fp.Core()
    requires forall k | |secs| <= k < |secs1| :: secs1[k] !in fp.fs.promise.secs
    ensures Stretched(fp, chain, fat, secs, vol, pool)
  {
    hide Fil.VolumeOk, Fil.BufOk, Fil.WindowOk, BodyMatches, SecsAre;
    if fp.chain != [] { LinkedAllDistinct(fp.fs.fat, fp.chain); }
    GrownTrans(fat, chain, fat1, chain1, fp.fs.fat, fp.chain);
  }

  lemma SpliceMore(d: seq<byte>, p: nat, x: seq<byte>, a: nat, w: nat)
    requires p <= |d| && a + w <= |x|
    ensures p + a <= |Splice(d, p, x[..a])|
    ensures Splice(Splice(d, p, x[..a]), p + a, x[a..][..w]) == Splice(d, p, x[..a + w])
  {
    assert x[..a] + x[a..][..w] == x[..a + w];
    SpliceTwice(d, p, x[..a], x[a..][..w]);
  }

  /** The loop of f_write: repeats until everything is written or the volume is full. */
  method WriteLoop(fp: Fil, x: seq<byte>) returns (res: FResult, bw: nat)
    requires fp.Sound() && fp.fptr + |x| < 0x1_0000_0000 && Clear(fp, fp.fptr / 512, LastOf(fp.fptr, |x|))
    modifies fp`sclust, fp`clust, fp`chain, fp`secs, fp`body, fp`sect, fp`dirty, fp`fptr, fp`objsize, fp.buf
    modifies fp.fs`winsect, fp.fs`wflag, fp.fs`vol, fp.fs`fat, fp.fs`lastClst, fp.fs`freeClst, fp.fs`fsiFlag
    modifies fp.fs.win, fp.fs.disk`img
    ensures res == OK || (res == DiskErr && !fp.fs.disk.reliable)
    ensures res == OK ==> fp.Sound() && bw <= |x| && fp.fptr == old(fp.fptr) + bw
    ensures res == OK ==> fp.Data() == Splice(old(fp.Data()), old(fp.fptr), x[..bw])
    ensures res == OK && bw < |x| ==> CountFree(fp.fs.fat) == 0 && fp.fptr == fp.objsize == |fp.body| * 512
    ensures res == OK ==> Stretched(fp, old(fp.chain), old(fp.fs.fat), old(fp.secs), old(fp.fs.vol), old(Pool(fp)))
    ensures res != OK ==> Interrupted(fp)
    ensures old(fp.objsize) <= fp.objsize
  {
    hide Fil.Loose, Fil.Threaded, Valid, Fil.VolumeOk, Fil.BufOk, Fil.WindowOk, Chained, SecsAre, BodyMatches, Idx,
      Clusters, Outside, Bytes, Grown, Splice;
    ghost var chain, fat, secs, vol, pool, data, p :=
      fp.chain, fp.fs.fat, fp.secs, fp.fs.vol, Pool(fp), fp.Data(), fp.fptr;
    SpliceNothing(data, p, x);
    StretchedRefl(fp);
    res, bw := OK, 0;
    while bw < |x|
      invariant res == OK && bw <= |x| && fp.fptr == p + bw
      invariant fp.Sound() && fp.Data() == Splice(data, p, x[..bw])
      invariant Stretched(fp, chain, fat, secs, vol, pool) && old(fp.objsize) <= fp.objsize
      decreases |x| - bw
    {
      CoreThreaded(fp);
      ghost var chain1, fat1, secs1, vol1 := fp.chain, fp.fs.fat, fp.secs, fp.fs.vol;
      var wcnt;
      res, wcnt := WriteStep(fp, x[bw..]);
      if res != OK { return; }
      StretchedTrans(fp, chain, fat, secs, vol, pool, chain1, fat1, secs1, vol1);
      SpliceMore(data, p, x, bw, wcnt);
      if wcnt == 0 { break; }
      bw := bw + wcnt;
    }
  }

  /** Index of the sector that holds the last of n bytes from p on. */
  function LastOf(p: nat, n: nat): nat { if n == 0 then p / 512 else (p + n - 1) / 512 }

  /** How many of n bytes f_write tries to write at offset p: a file cannot reach 4 GiB. */
  function WriteLimit(p: dword, n: nat): nat {
    if p + n >= 0x1_0000_0000 then 0xFFFF_FFFF - p else n
  }

  /** The sectors lo to hi of the file are promised no longer. */
  ghost method Spare(fp: Fil, lo: nat, hi: nat)
    requires fp.Sound()
    modifies fp.fs`promise
    ensures fp.Sound() && Clear(fp, lo, hi) && Spares(old(fp.fs.promise), fp.fs.promise, fp.secs, lo, hi)
  {
    hide Valid, FreeCountOk, NoOnes, Chained, SecsAre, BodyMatches, DirSafe, Fil.Cursor, Fil.Tight;
    var was := fp.fs.promise;
    Release(fp.fs, Promise(map s | s in was.secs && !AmongSecs(fp.secs, lo, hi, s) :: was.secs[s], was.links));
    forall k | lo <= k <= hi && k < |fp.secs| ensures fp.secs[k] !in fp.fs.promise.secs {
      assert AmongSecs(fp.secs, lo, hi, fp.secs[k]);
    }
  }

  /** s is one of the sectors lo to hi. */
  ghost predicate AmongSecs(secs: seq<nat>, lo: nat, hi: nat, s: nat)
  {
    exists k :: lo <= k <= hi && k < |secs| && secs[k] == s
  }

  /** fp->flag |= FA_MODIFIED. */
  method MarkModified(fp: Fil)
    requires fp.Sound()
    modifies fp`modified
    ensures fp.Good() && fp.modified
  {
    hide Fil.VolumeOk, Fil.BufOk, Fil.WindowOk, Chained, SecsAre, BodyMatches, Fil.Cursor, Fil.Tight;
    fp.modified := true;
  }

  lemma LimitBound(p: dword, n: nat)
    requires n < 0x1_0000_0000
    ensures WriteLimit(p, n) <= n && p + WriteLimit(p, n) < 0x1_0000_0000
  {
  }

  lemma LimitLast(fp: Fil, p: dword, n: nat)
    requires Clear(fp, p / 512, LastOf(p, n))
    ensures Clear(fp, p / 512, LastOf(p, WriteLimit(p, n)))
  {
    assert LastOf(p, WriteLimit(p, n)) <= LastOf(p, n);
  }

  /**
    f_write. On success the content is the old one with the first bw bytes of wbuff written at the
    cursor; fewer bytes than the limit are written only if the volume ran full. Whatever fails, only
    promises about the sectors written to are given up.
  */
  method Write(fp: Fil, wbuff: seq<byte>) returns (res: FResult, bw: nat)
    requires fp.err == OK ==> fp.Sound()
    requires |wbuff| < 0x1_0000_0000
    modifies fp, fp.buf, fp.fs`winsect, fp.fs`wflag, fp.fs`vol, fp.fs`fat, fp.fs`lastClst, fp.fs`freeClst, fp.fs`fsiFlag
    modifies fp.fs`promise, fp.fs.win, fp.fs.disk`img
    ensures fp.fs.disk.reliable && fp.id == fp.fs.id && old(fp.err) == OK && fp.canWrite ==> res == OK
    ensures res == OK ==> fp.id == fp.fs.id && old(fp.err) == OK && fp.canWrite
    ensures res == OK ==> fp.Good() && fp.err == OK && fp.modified
    ensures res == OK ==> bw <= WriteLimit(old(fp.fptr), |wbuff|) <= |wbuff| && fp.fptr == old(fp.fptr) + bw
    ensures res == OK ==> fp.Data() == Splice(old(fp.Data()), old(fp.fptr), wbuff[..bw])
    ensures res == OK && bw < WriteLimit(old(fp.fptr), |wbuff|) ==>
      CountFree(fp.fs.fat) == 0 && fp.fptr == fp.objsize == |fp.body| * 512
    ensures res == OK ==> Stretched(fp, old(fp.chain), old(fp.fs.fat), old(fp.secs), old(fp.fs.vol), old(Pool(fp)))
    ensures res != OK && (old(fp.err) != OK || !fp.canWrite) ==> bw == 0 && fp.err == old(fp.err)
    ensures Aborted(old(fp.err), fp.err, res)
    ensures old(fp.err) == OK ==> fp.Loose() && (res != OK ==> Interrupted(fp))
    ensures Spares(old(fp.fs.promise), fp.fs.promise, old(fp.secs), old(fp.fptr) / 512, LastOf(old(fp.fptr), |wbuff|))
  {
    hide Fil.Loose, Fil.Threaded, Valid, Fil.VolumeOk, Fil.BufOk, Fil.WindowOk, Chained, SecsAre, BodyMatches, Idx,
      Clusters, Outside, Bytes, Grown, Splice;
    hide Fil.Synced, Clear, Spares, Stretched, WriteLimit, LastOf, Fil.Core, Fil.Cursor, Fil.Tight;
    bw := 0;
    if fp.err == OK {
      CoreValid(fp);
      CoreThreaded(fp);
    }
    SparesRefl(fp.fs.promise, fp.secs, fp.fptr / 512, LastOf(fp.fptr, |wbuff|));
    res := Validate(fp);
    if res != OK { return; }
    if fp.err != OK { return fp.err, 0; }
    if !fp.canWrite { return Denied, 0; }
    Spare(fp, fp.fptr / 512, LastOf(fp.fptr, |wbuff|));
    LimitLast(fp, fp.fptr, |wbuff|);
    LimitBound(fp.fptr, |wbuff|);
    res, bw := WriteLoop(fp, wbuff[..WriteLimit(fp.fptr, |wbuff|)]);
    if res != OK { fp.err := res; return; }
    CoreValid(fp);
    assert wbuff[..WriteLimit(old(fp.fptr), |wbuff|)][..bw] == wbuff[..bw];
    MarkModified(fp);
  }
}
