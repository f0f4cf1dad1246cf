/** f_lseek: cluster following from the current or the first cluster, growing the file when writable. */
module FileSeek {
  import opened FatTypes
  import opened FatEntries
  import opened DirEntry
  import opened FatAccess
  import opened ChainTheory
  import opened Chains
  import opened ClusterMap
  import opened FileBytes
  import opened FileMap
  import opened FileObject
  import opened FileWrite
  import opened FileRead

  /** Bytes per cluster. */
  function Bcs(g: Geometry): nat { g.csize * 512 }

  /** Offset where the cluster at chain position i starts. */
  function ClusterStart(g: Geometry, i: nat): nat { Times(i, g.csize) * 512 }

  function Quot(p: nat, d: nat): nat
    requires d > 0
  {
    p / d
  }

  function Rounded(p: nat, d: nat): nat
    requires d > 0
  {
    p - p % d
  }

  /** p / bcs and p & ~(bcs - 1), where bcs is a power of two. */
  function ClusterNo(g: Geometry, p: nat): nat
    requires g.csize > 0
  {
    Quot(p, Bcs(g))
  }

  function RoundDown(g: Geometry, p: nat): nat
    requires g.csize > 0
  {
    Rounded(p, Bcs(g))
  }

  /** The quotient is the chain position of byte p. */
  lemma DivIsIdx(g: Geometry, p: nat)
    requires g.csize > 0
    ensures ClusterNo(g, p) == Idx(g, p)
  {
    var q, i := p / 512, Idx(g, p);
    SplitBy(q, g.csize);
    TimesIsProduct(i, g.csize);
    var r := Part(q, g.csize) * 512 + p % 512;
    assert p == i * Bcs(g) + r by { assert i * (g.csize * 512) == i * g.csize * 512; }
    DivMod(p, Bcs(g), i, r);
  }

  /** And the masked offset is the start of that cluster. */
  lemma MaskIsStart(g: Geometry, p: nat)
    requires g.csize > 0
    ensures RoundDown(g, p) == ClusterStart(g, Idx(g, p)) <= p
  {
    DivIsIdx(g, p);
    SplitBy(p, Bcs(g));
    TimesIsProduct(Idx(g, p), g.csize);
    TimesIsProduct(Idx(g, p), Bcs(g));
  }

  /** The seek stands at the start of chain position i; the chain is no longer than it has to be. */
  ghost predicate AtPosition(fp: Fil, i: nat, clst: nat, lenWas: nat)
    reads fp`fptr, fp`clust, fp`chain
  {
    && fp.fs.geo.csize > 0 && i < |fp.chain| && clst == fp.chain[i] && fp.clust == clst
    && fp.fptr == ClusterStart(fp.fs.geo, i) && |fp.chain| == if i < lenWas then lenWas else i + 1
  }

  /** The step of the cluster loop: create_chain in write mode, get_fat otherwise. */
  method FollowOrStretch(fp: Fil, ghost i: nat, clst: nat) returns (ncl: dword)
    requires fp.Core() && i < |fp.chain| && clst == fp.chain[i] && (!fp.canWrite ==> i + 1 < |fp.chain|)
    modifies fp`sclust, fp`chain, fp`secs, fp`body, fp.fs`winsect, fp.fs`wflag, fp.fs`vol, fp.fs`fat
    modifies fp.fs`lastClst, fp.fs`freeClst, fp.fs`fsiFlag, fp.fs.win, fp.fs.disk`img
    ensures ncl != 1 && (ncl == ERR32 ==> !fp.fs.disk.reliable && GaveUp(fp))
    ensures ncl != ERR32 ==> fp.Core() && old(fp.body) <= fp.body
    ensures ncl != ERR32 ==> Stretched(fp, old(fp.chain), old(fp.fs.fat), old(fp.secs), old(fp.fs.vol), old(Pool(fp)))
    ensures ncl == 0 ==> fp.canWrite && i + 1 == |fp.chain| && CountFree(fp.fs.fat) == 0
    ensures ncl == 0 ==> fp.chain == old(fp.chain) && fp.secs == old(fp.secs) && fp.body == old(fp.body)
    ensures 2 <= ncl < ERR32 ==> i + 1 < |fp.chain| && ncl == fp.chain[i + 1] && ncl < fp.fs.geo.nFatent
    ensures 2 <= ncl < ERR32 ==> |fp.chain| == if i + 1 < |old(fp.chain)| then |old(fp.chain)| else i + 2
    ensures ncl != ERR32 && fp.chain == old(fp.chain) ==>
      fp.sclust == old(fp.sclust) && fp.fs.vol == old(fp.fs.vol) && (!old(fp.fs.wflag) ==> !fp.fs.wflag)
  {
    hide Valid, FreeCountOk, NoOnes, SecsAre, BodyMatches, DirSafe, Stretched;
    GeoFacts(fp.fs);
    CoreLoose(fp);
    CoreThreaded(fp);
    ChainFacts(fp.fs.fat, fp.chain, i);
    StretchedRefl(fp);
    if fp.canWrite {
      ncl := NextCluster(fp, i, clst);
      LinkInside(fp, ncl, i);
    } else {
      ncl := GetFat(fp.fs, clst);
      ChainFacts(fp.fs.fat, fp.chain, i + 1);
    }
  }

  lemma LinkInside(fp: Fil, ncl: dword, i: nat)
    requires ncl != ERR32 ==> fp.Core()
    ensures 2 <= ncl < ERR32 && i + 1 < |fp.chain| && ncl == fp.chain[i + 1] ==> ncl < fp.fs.geo.nFatent
  {
    hide Fil.BufOk, Fil.WindowOk, SecsAre, BodyMatches, FreeCountOk, NoOnes;
    if ncl != ERR32 {
      GeoFacts(fp.fs);
      ChainFacts(fp.fs.fat, fp.chain, i + 1);
    }
  }

  lemma BeyondStart(g: Geometry, i: nat, p: nat)
    requires g.csize > 0 && ClusterStart(g, i) <= p
    ensures i <= Idx(g, p)
  {
    IdxSector(g, p);
    if Idx(g, p) < i { TimesMonotone(Idx(g, p) + 1, i, g.csize); }
  }

  /** The seek ended at the end of the last cluster because none is free. */
  ghost predicate Clamped(fp: Fil, i: nat, lenWas: nat)
    reads fp`fptr, fp`clust, fp`chain, fp.fs`fat
  {
    && fp.fs.geo.csize > 0 && i + 1 == |fp.chain| && fp.clust == fp.chain[i]
    && fp.fptr == ClusterStart(fp.fs.geo, i + 1) && CountFree(fp.fs.fat) == 0 && lenWas <= |fp.chain|
  }

  /** The cluster following loop of f_lseek. */
  method SeekFollow(fp: Fil, ofs0: dword, clst0: dword, ghost i0: nat, ghost lenWas: nat)
    returns (res: FResult, ofs: dword, clst: dword, ghost i: nat)
    requires fp.Core() && AtPosition(fp, i0, clst0, lenWas) && ofs0 > 0 && fp.fptr + ofs0 < 0x1_0000_0000
    requires !fp.canWrite ==> Idx(fp.fs.geo, fp.fptr + ofs0 - 1) < |fp.chain|
    modifies fp`fptr, fp`clust, fp`sclust, fp`chain, fp`secs, fp`body, fp.fs`winsect, fp.fs`wflag, fp.fs`vol, fp.fs`fat
    modifies fp.fs`lastClst, fp.fs`freeClst, fp.fs`fsiFlag, fp.fs.win, fp.fs.disk`img
    ensures res == OK || (res == DiskErr && !fp.fs.disk.reliable)
    ensures res == OK ==> fp.Core() && old(fp.body) <= fp.body
    ensures res == OK ==> Stretched(fp, old(fp.chain), old(fp.fs.fat), old(fp.secs), old(fp.fs.vol), old(Pool(fp)))
    ensures res == OK ==>
      if ofs == 0 then fp.canWrite && Clamped(fp, i, lenWas) && fp.fptr < old(fp.fptr) + ofs0
      else AtPosition(fp, i, clst, lenWas) && ofs <= Bcs(fp.fs.geo) && fp.fptr + ofs == old(fp.fptr) + ofs0
    ensures res == OK && fp.chain == old(fp.chain) ==>
      fp.sclust == old(fp.sclust) && fp.fs.vol == old(fp.fs.vol) && (!old(fp.fs.wflag) ==> !fp.fs.wflag)
    ensures res != OK ==> GaveUp(fp)
  {
    hide Fil.Loose, Fil.Threaded, Clear, Stretched, Valid, Fil.VolumeOk, Fil.BufOk, Fil.WindowOk, Chained, SecsAre,
      BodyMatches, Idx, Grown, Outside, CountFree;
    ghost var chain, fat, secs, vol, pool := fp.chain, fp.fs.fat, fp.secs, fp.fs.vol, Pool(fp);
    StretchedRefl(fp);
    res, ofs, clst, i := OK, ofs0, clst0, i0;
    while ofs > Bcs(fp.fs.geo)
      invariant res == OK && fp.Core() && old(fp.body) <= fp.body && AtPosition(fp, i, clst, lenWas)
      invariant 0 < ofs && fp.fptr + ofs == old(fp.fptr) + ofs0 && (!fp.canWrite ==> |fp.chain| == |chain|)
      invariant Stretched(fp, chain, fat, secs, vol, pool)
      invariant fp.chain == chain ==>
        fp.sclust == old(fp.sclust) && fp.fs.vol == vol && (!old(fp.fs.wflag) ==> !fp.fs.wflag)
      decreases ofs
    {
      ofs := ofs - Bcs(fp.fs.geo);
      fp.fptr := fp.fptr + Bcs(fp.fs.geo);
      BeyondStart(fp.fs.geo, i + 1, fp.fptr + ofs - 1);
      ghost var chain1, fat1, secs1, vol1 := fp.chain, fp.fs.fat, fp.secs, fp.fs.vol;
      StretchedParts(fp, chain, fat, secs, vol, pool);
      clst := FollowOrStretch(fp, i, clst);
      if clst == ERR32 { res := DiskErr; return; }
      StretchedTrans(fp, chain, fat, secs, vol, pool, chain1, fat1, secs1, vol1);
      if clst == 0 { ofs := 0; return; }
      if clst <= 1 || clst >= fp.fs.geo.nFatent { res := IntErr; return; }
      fp.clust := clst;
      i := i + 1;
    }
  }

  lemma StartBelow(g: Geometry, p: nat, i: nat)
    requires g.csize > 0 && i <= Idx(g, p)
    ensures ClusterStart(g, i) <= p
  {
    IdxSector(g, p);
    TimesMonotone(i, Idx(g, p), g.csize);
  }

  /** Picks where to start: the current cluster if the target is not before it, else the first one. */
  method SeekStart(fp: Fil, target: dword) returns (res: FResult, ofs: dword, clst: dword, ghost i: nat)
    requires fp.Sound() && target > 0
    modifies fp`fptr, fp`clust, fp`sclust, fp`chain, fp`secs, fp`body, fp.fs`winsect, fp.fs`wflag, fp.fs`vol, fp.fs`fat
    modifies fp.fs`lastClst, fp.fs`freeClst, fp.fs`fsiFlag, fp.fs.win, fp.fs.disk`img
    ensures res == OK || (res == DiskErr && !fp.fs.disk.reliable)
    ensures res == OK ==> fp.Core() && old(fp.body) <= fp.body
    ensures res == OK ==> Stretched(fp, old(fp.chain), old(fp.fs.fat), old(fp.secs), old(fp.fs.vol), old(Pool(fp)))
    ensures res == OK && clst != 0 ==> AtPosition(fp, i, clst, |old(fp.chain)|) && ofs > 0 && fp.fptr + ofs == target
    ensures res == OK && clst == 0 ==> fp.chain == [] && fp.body == [] && fp.fptr == 0 && CountFree(fp.fs.fat) == 0
    ensures res == OK && fp.chain == old(fp.chain) ==>
      fp.sclust == old(fp.sclust) && fp.fs.vol == old(fp.fs.vol) && (!old(fp.fs.wflag) ==> !fp.fs.wflag)
    ensures res != OK ==> GaveUp(fp)
  {
    hide Fil.Loose, Fil.Threaded, Valid, Fil.VolumeOk, Fil.BufOk, Fil.WindowOk, SecsAre, BodyMatches, Idx, Grown,
      Outside, CountFree, Linked;
    hide ClusterNo, RoundDown, ClusterStart;
    StretchedRefl(fp);
    StartFacts(fp);
    var ifptr := fp.fptr;
    res, ofs, i := OK, target, 0;
    fp.fptr := 0;
    if ifptr > 0 && ClusterNo(fp.fs.geo, target - 1) >= ClusterNo(fp.fs.geo, ifptr - 1) {
      DivIsIdx(fp.fs.geo, target - 1);
      DivIsIdx(fp.fs.geo, ifptr - 1);
      MaskIsStart(fp.fs.geo, ifptr - 1);
      fp.fptr := RoundDown(fp.fs.geo, ifptr - 1);
      i := Idx(fp.fs.geo, ifptr - 1);
      StartBelow(fp.fs.geo, target - 1, i);
      ofs := target - fp.fptr;
      clst := fp.clust;
    } else {
      clst := fp.sclust;
      if clst == 0 {
        clst := NextCluster(fp, 0, 0);
        if clst == 1 { res := IntErr; return; }
        if clst == ERR32 { res := DiskErr; return; }
      }
      fp.clust := clst;
    }
  }

  lemma StartFacts(fp: Fil)
    requires fp.Sound()
    ensures fp.fs.geo.csize > 0 && (fp.chain == [] <==> fp.sclust == 0) && fp.sclust != ERR32
    ensures fp.fptr > 0 ==>
      Idx(fp.fs.geo, fp.fptr - 1) < |fp.chain| &&
      fp.clust == fp.chain[Idx(fp.fs.geo, fp.fptr - 1)] != 0
    ensures ClusterStart(fp.fs.geo, 0) == 0 && (fp.chain == [] ==> fp.body == [])
  {
    hide Fil.BufOk, Fil.WindowOk, FreeCountOk, NoOnes;
    GeoFacts(fp.fs);
    ChainFacts(fp.fs.fat, fp.chain, 0);
    if fp.fptr > 0 { ChainFacts(fp.fs.fat, fp.chain, Idx(fp.fs.geo, fp.fptr - 1)); }
  }

  /** The seek has found its cluster: everything fits but objsize and the buffer. */
  ghost predicate Landed(fp: Fil, target: nat, nsect: nat, lenWas: nat)
    reads fp`fptr, fp`clust, fp`chain, fp`secs, fp`body, fp.fs`fat
  {
    && fp.fs.geo.csize > 0 && fp.fptr <= target
    && (fp.fptr > 0 ==> Idx(fp.fs.geo, fp.fptr - 1) < |fp.chain| && fp.clust == fp.chain[Idx(fp.fs.geo, fp.fptr - 1)])
    && |fp.chain| == (if Clusters(fp.fs.geo, fp.fptr) < lenWas then lenWas else Clusters(fp.fs.geo, fp.fptr))
    && (fp.fptr % 512 != 0 ==> fp.fptr / 512 < |fp.secs| && nsect == fp.secs[fp.fptr / 512])
    && (fp.fptr < target ==> fp.canWrite && CountFree(fp.fs.fat) == 0 && fp.fptr == |fp.body| * 512)
  }

  lemma OffsetSector(k: nat, ofs: nat)
    ensures (k * 512 + ofs) % 512 == ofs % 512
    ensures ofs > 0 ==> (k * 512 + ofs - 1) / 512 == k + (ofs - 1) / 512
  {
  }

  lemma InsideIdx(g: Geometry, i: nat, ofs: nat, p: nat)
    requires g.csize > 0 && 0 < ofs <= Bcs(g) && p == ClusterStart(g, i) + ofs
    ensures Idx(g, p - 1) == i && p % 512 == ofs % 512
  {
    hide Idx;
    OffsetSector(Times(i, g.csize), ofs);
    IdxUnique(g, p - 1, i);
  }

  /** The end of the cluster search, at ofs bytes into position i. */
  lemma LandedInside(fp: Fil, i: nat, ofs: nat, clst: nat, lenWas: nat, fptr: nat)
    requires fp.Core() && AtPosition(fp, i, clst, lenWas) && 0 < ofs <= Bcs(fp.fs.geo) && fptr == fp.fptr + ofs
    ensures Idx(fp.fs.geo, fptr - 1) == i && Clusters(fp.fs.geo, fptr) == i + 1
    ensures fptr % 512 == ofs % 512 && 2 <= clst < fp.fs.geo.nFatent && 0 < FirstSector(fp.fs.geo, clst)
  {
    hide Fil.BufOk, Fil.WindowOk, BodyMatches, FreeCountOk, NoOnes, SecsAre, Idx, FirstSector, ClusterStart;
    GeoFacts(fp.fs);
    InsideIdx(fp.fs.geo, i, ofs, fptr);
    ChainFacts(fp.fs.fat, fp.chain, i);
    ClusterRange(fp.fs.geo, |fp.fs.vol|, clst);
  }

  /** The sector there, unless the target is on a sector boundary. */
  lemma LandedSector(fp: Fil, i: nat, ofs: nat, clst: nat, lenWas: nat, fptr: nat)
    requires fp.Core() && AtPosition(fp, i, clst, lenWas) && 0 < ofs <= Bcs(fp.fs.geo) && fptr == fp.fptr + ofs
    requires ofs % 512 != 0 && clst >= 2
    ensures fptr / 512 < |fp.secs| && fp.secs[fptr / 512] == FirstSector(fp.fs.geo, clst) + ofs / 512 < 0x1_0000_0000
  {
    hide Fil.BufOk, Fil.WindowOk, BodyMatches, FreeCountOk, NoOnes, SecsOf, FirstSector, Linked;
    GeoFacts(fp.fs);
    SecsAt(fp.fs.geo, fp.chain, i, ofs / 512);
  }

  lemma ClampedIdx(g: Geometry, i: nat, p: nat)
    requires g.csize > 0 && p == ClusterStart(g, i + 1)
    ensures p > 0 && Idx(g, p - 1) == i && p % 512 == 0
  {
    TimesMonotone(1, i + 1, g.csize);
    IdxUnique(g, p - 1, i);
  }

  lemma LandedClamped(fp: Fil, i: nat, lenWas: nat)
    requires fp.Core() && Clamped(fp, i, lenWas)
    ensures fp.fptr > 0 && Idx(fp.fs.geo, fp.fptr - 1) == i && Clusters(fp.fs.geo, fp.fptr) == i + 1
    ensures fp.fptr % 512 == 0 && fp.fptr == |fp.body| * 512
  {
    hide Fil.BufOk, Fil.WindowOk, FreeCountOk, NoOnes, Valid, Chained, CountFree, GoodSecs, Idx;
    ClampedIdx(fp.fs.geo, i, fp.fptr);
  }

  /** The body of the normal seek up to the new cursor position. */
  method SeekMove(fp: Fil, target: dword) returns (res: FResult, nsect: dword)
    requires fp.Sound() && target > 0 && (fp.canWrite || target <= fp.objsize)
    modifies fp`fptr, fp`clust, fp`sclust, fp`chain, fp`secs, fp`body, fp.fs`winsect, fp.fs`wflag, fp.fs`vol, fp.fs`fat
    modifies fp.fs`lastClst, fp.fs`freeClst, fp.fs`fsiFlag, fp.fs.win, fp.fs.disk`img
    ensures res == OK || (res == DiskErr && !fp.fs.disk.reliable)
    ensures res == OK ==> fp.Core() && old(fp.body) <= fp.body && Landed(fp, target, nsect, |old(fp.chain)|)
    ensures res == OK ==> Stretched(fp, old(fp.chain), old(fp.fs.fat), old(fp.secs), old(fp.fs.vol), old(Pool(fp)))
    ensures res == OK && fp.chain == old(fp.chain) ==>
      fp.sclust == old(fp.sclust) && fp.fs.vol == old(fp.fs.vol) && (!old(fp.fs.wflag) ==> !fp.fs.wflag)
    ensures res != OK ==> GaveUp(fp)
  {
    hide Fil.Core, Fil.Cursor, Fil.Loose, Fil.Threaded, Valid, Fil.VolumeOk, Fil.BufOk, Fil.WindowOk, SecsAre,
      BodyMatches, Idx, Grown, Outside, CountFree, Linked, Clusters;
    hide FirstSector;
    ghost var chain, fat, secs, vol, pool := fp.chain, fp.fs.fat, fp.secs, fp.fs.vol, Pool(fp);
    if target <= fp.objsize { TargetInside(fp.fs.geo, target, fp.objsize); }
    ClustersZero(fp.fs.geo);
    nsect := 0;
    var ofs, clst;
    ghost var i;
    res, ofs, clst, i := SeekStart(fp, target);
    if res != OK { return; }
    if clst != 0 {
      ghost var chain1, fat1, secs1, vol1 := fp.chain, fp.fs.fat, fp.secs, fp.fs.vol;
      res, ofs, clst, i := SeekFollow(fp, ofs, clst, i, |chain|);
      if res != OK { return; }
      StretchedTrans(fp, chain, fat, secs, vol, pool, chain1, fat1, secs1, vol1);
      nsect := SeekLand(fp, target, ofs, clst, i, |chain|);
    }
  }

  /** Adds the offset within the cluster and, off sector boundaries, finds the sector. */
  method SeekLand(fp: Fil, ghost target: nat, ofs: dword, clst: dword, ghost i: nat, ghost lenWas: nat)
    returns (nsect: dword)
    requires fp.Core() && fp.fptr + ofs <= target < 0x1_0000_0000
    requires if ofs == 0 then fp.canWrite && Clamped(fp, i, lenWas) && fp.fptr < target
      else AtPosition(fp, i, clst, lenWas) && ofs <= Bcs(fp.fs.geo) && fp.fptr + ofs == target
    modifies fp`fptr
    ensures fp.Core() && Landed(fp, target, nsect, lenWas)
  {
    hide Fil.VolumeOk, Fil.BufOk, Fil.WindowOk, SecsAre, BodyMatches, Idx, CountFree, Linked, Clusters, FirstSector,
      ClusterStart;
    nsect := 0;
    if ofs == 0 { LandedClamped(fp, i, lenWas); } else { LandedInside(fp, i, ofs, clst, lenWas, fp.fptr + ofs); }
    if ofs % 512 != 0 { LandedSector(fp, i, ofs, clst, lenWas, fp.fptr + ofs); }
    fp.fptr := fp.fptr + ofs;
    if ofs % 512 != 0 {
      nsect := Clust2Sect(fp.fs.geo, clst);  // not 0: clst is a cluster of the chain
      nsect := nsect + ofs / 512;
    }
  }

  lemma ClustersZero(g: Geometry)
    requires g.csize > 0
    ensures Clusters(g, 0) == 0
  {
  }

  lemma TargetInside(g: Geometry, p: nat, n: nat)
    requires g.csize > 0 && 0 < p <= n
    ensures Idx(g, p - 1) < Clusters(g, n)
  {
    IdxMonotone(g, p - 1, n - 1);
  }

  /** The tail of f_lseek: grow the file if the cursor passed its end, then fill the buffer off sector boundaries. */
  method SeekFinish(fp: Fil, nsect: dword, ghost target: nat, ghost lenWas: nat) returns (res: FResult)
    requires fp.Core() && Landed(fp, target, nsect, lenWas) && lenWas == Clusters(fp.fs.geo, fp.objsize)
    modifies fp`objsize, fp`modified, fp`sect, fp`dirty, fp.buf, fp.fs`vol, fp.fs.disk`img
    ensures res == OK || (res == DiskErr && !fp.fs.disk.reliable)
    ensures res == OK ==> fp.Sound() && Outside(fp.fs.geo, fp.secs, old(fp.fs.vol), fp.fs.vol)
    ensures fp.objsize == if fp.fptr > old(fp.objsize) then fp.fptr else old(fp.objsize)
    ensures fp.modified == (old(fp.modified) || fp.fptr > old(fp.objsize))
    ensures res == OK && !old(fp.dirty) ==> fp.fs.vol == old(fp.fs.vol) && !fp.dirty
    ensures res != OK ==> fp.Loose()
    ensures fp.objsize <= |fp.body| * 512
  {
    hide Fil.Loose, Valid, Fil.VolumeOk, Fil.BufOk, Fil.WindowOk, BodyMatches, Idx, CountFree, Linked, Clusters,
      Outside, Chained;
    SeekTight(fp, lenWas);
    if fp.fptr > fp.objsize {
      fp.objsize := fp.fptr;
      fp.modified := true;
    }
    res := OK;
    if fp.fptr % 512 != 0 && nsect != fp.sect {
      res := LoadSector(fp, nsect, fp.fptr / 512);
    } else {
      OutsideRefl(fp.fs.geo, fp.secs, fp.fs.vol);
    }
  }

  /** The chain fits the size the seek will leave, and covers it. */
  lemma SeekTight(fp: Fil, lenWas: nat)
    requires fp.Core() && fp.fs.geo.csize > 0 && lenWas == Clusters(fp.fs.geo, fp.objsize)
    requires |fp.chain| == if Clusters(fp.fs.geo, fp.fptr) < lenWas then lenWas else Clusters(fp.fs.geo, fp.fptr)
    ensures var n := if fp.fptr > fp.objsize then fp.fptr else fp.objsize;
      |fp.chain| == Clusters(fp.fs.geo, n) && n <= |fp.body| * 512
  {
    hide Fil.VolumeOk, Fil.BufOk, Fil.WindowOk, Chained;
    ClustersMonotone(fp.fs.geo, fp.fptr, fp.objsize);
    ClustersMonotone(fp.fs.geo, fp.objsize, fp.fptr);
    CoverLemma(fp.fs.geo, fp.chain, if fp.fptr > fp.objsize then fp.fptr else fp.objsize);
  }

  lemma ClustersMonotone(g: Geometry, p: nat, n: nat)
    requires g.csize > 0
    ensures p <= n ==> Clusters(g, p) <= Clusters(g, n)
  {
    hide Idx;
    if 0 < p <= n { IdxMonotone(g, p - 1, n - 1); }
  }

  /** Where f_lseek means to go: past the end only in write mode. */
  function SeekTarget(fp: Fil, ofs: dword): dword
    reads fp`objsize
  {
    if ofs > fp.objsize && !fp.canWrite then fp.objsize else ofs
  }

  /** The normal seek of f_lseek. */
  method SeekTo(fp: Fil, target: dword) returns (res: FResult)
    requires fp.Sound() && (fp.canWrite || target <= fp.objsize)
    modifies fp`fptr, fp`clust, fp`sclust, fp`chain, fp`secs, fp`body, fp`objsize, fp`modified, fp`sect, fp`dirty,
      fp.buf
    modifies fp.fs`winsect, fp.fs`wflag, fp.fs`vol, fp.fs`fat, fp.fs`lastClst, fp.fs`freeClst, fp.fs`fsiFlag
    modifies fp.fs.win, fp.fs.disk`img
    ensures res == OK || (res == DiskErr && !fp.fs.disk.reliable)
    ensures res == OK ==> fp.Sound() && fp.fptr <= target
    ensures res == OK && old(fp.modified || fp.Synced()) ==> fp.Good()
    ensures res == OK && fp.fptr < target ==> CountFree(fp.fs.fat) == 0 && fp.fptr == |fp.body| * 512
    ensures res == OK ==> fp.objsize == if fp.fptr > old(fp.objsize) then fp.fptr else old(fp.objsize)
    ensures res == OK ==> fp.Data()[..old(fp.objsize)] == old(fp.Data())
    ensures res == OK ==> Stretched(fp, old(fp.chain), old(fp.fs.fat), old(fp.secs), old(fp.fs.vol), old(Pool(fp)))
    ensures res == OK && old(fp.modified) ==> fp.modified
    ensures res != OK ==> Interrupted(fp)
  {
    hide Fil.Loose, Fil.Threaded, Valid, Fil.VolumeOk, Fil.BufOk, Fil.WindowOk, BodyMatches, Idx, CountFree, Linked,
      Clusters, Outside, Chained, Grown, Bytes;
    hide SecsAre, EntryIs, Fil.Core, Fil.Cursor, Stretched;
    ghost var chain, fat, secs, vol, pool, body := fp.chain, fp.fs.fat, fp.secs, fp.fs.vol, Pool(fp), fp.body;
    CoreThreaded(fp);
    var nsect: dword := 0;
    if target != 0 {
      res, nsect := SeekMove(fp, target);
      if res != OK { return; }
    } else {
      fp.fptr := 0;
      LandedZero(fp);
      StretchedRefl(fp);
    }
    ghost var volMid := fp.fs.vol;
    CoreThreaded(fp);
    StretchedParts(fp, chain, fat, secs, vol, pool);
    ClustersMonotone(fp.fs.geo, fp.fptr, fp.objsize);
    res := SeekFinish(fp, nsect, target, |chain|);
    if res != OK { return; }
    StretchedMore(fp, chain, fat, secs, vol, pool, volMid);
    BytesPrefix(body, fp.body, old(fp.objsize), fp.objsize);
  }

  /**
    f_lseek. On success the cursor is at the target, or at the end of the last cluster if the volume
    ran full before it; the file then reaches at least to the cursor and keeps the bytes it had.
  */
  method Seek(fp: Fil, ofs: dword) returns (res: FResult)
    requires fp.err == OK ==> fp.Sound()
    modifies fp, fp.buf, fp.fs`winsect, fp.fs`wflag, fp.fs`vol, fp.fs`fat, fp.fs`lastClst, fp.fs`freeClst, fp.fs`fsiFlag
    modifies fp.fs.win, fp.fs.disk`img
    ensures fp.fs.disk.reliable && fp.id == fp.fs.id && old(fp.err) == OK ==> res == OK
    ensures res == OK ==> fp.id == fp.fs.id && old(fp.err) == OK && fp.Sound() && fp.err == OK
    ensures res == OK && old(fp.modified || fp.Synced()) ==> fp.Good()
    ensures res == OK ==> fp.fptr <= old(SeekTarget(fp, ofs))
    ensures res == OK && fp.fptr < old(SeekTarget(fp, ofs)) ==> CountFree(fp.fs.fat) == 0 && fp.fptr == |fp.body| * 512
    ensures res == OK ==> fp.objsize == if fp.fptr > old(fp.objsize) then fp.fptr else old(fp.objsize)
    ensures res == OK ==> fp.Data()[..old(fp.objsize)] == old(fp.Data())
    ensures res == OK ==> Stretched(fp, old(fp.chain), old(fp.fs.fat), old(fp.secs), old(fp.fs.vol), old(Pool(fp)))
    ensures res == OK && old(fp.modified) ==> fp.modified
    ensures Aborted(old(fp.err), fp.err, res)
    ensures old(fp.err) == OK ==> fp.Loose() && (res != OK ==> Interrupted(fp))
  {
    hide Fil.Loose, Fil.Threaded, Valid, Fil.VolumeOk, Fil.BufOk, Fil.WindowOk, BodyMatches, Idx, CountFree, Linked,
      Clusters, Outside, Chained, Grown, Bytes;
    hide SecsAre, EntryIs;
    if fp.err == OK {
      CoreValid(fp);
      CoreThreaded(fp);
    }
    res := Validate(fp);
    if res == OK { res := fp.err; }
    if res != OK { return; }
    res := SeekTo(fp, SeekTarget(fp, ofs));
    if res != OK { fp.err := res; } else { CoreValid(fp); }
  }

  lemma LandedZero(fp: Fil)
    requires fp.Core() && fp.fptr == 0 && fp.fs.geo.csize > 0
    ensures Landed(fp, 0, 0, |fp.chain|)
  {
  }
}
