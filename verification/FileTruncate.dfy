/** f_truncate: cuts the file at the cursor and frees the clusters behind it. */
module FileTruncate {
  import opened FatTypes
  import opened FatEntries
  import opened FatAccess
  import opened ChainTheory
  import opened Chains
  import opened ClusterMap
  import opened FileBytes
  import opened FileMap
  import opened FileObject
  import opened FileWrite
  import opened FileSeek

  /** The FAT after the chain was shortened to k clusters; a chain that keeps all of them is not touched. */
  function CutFat(fat: seq<nat>, chain: seq<nat>, k: nat, eoc: nat): (r: seq<nat>)
    requires k <= |chain| && forall i | 0 <= i < |chain| :: Cluster(fat, chain[i])
    ensures |r| == |fat|
  {
    if k == |chain| then fat else Cut(fat, chain, k, eoc)
  }

  /** Everything the file needs of a shortened FAT. */
  lemma ShortenedFacts(g: Geometry, disk: nat, fat: seq<nat>, chain: seq<nat>, sclust: nat, k: nat, eoc: nat,
                       dirSect: nat, dirClust: nat)
    requires Chained(fat, chain, sclust) && k <= |chain| && eoc >= |fat| > 1 && NoOnes(fat)
    requires DirSafe(g, disk, fat, chain, dirSect, dirClust)
    ensures forall i | 0 <= i < |chain| :: Cluster(fat, chain[i])
    ensures Chained(CutFat(fat, chain, k, eoc), chain[..k], if k == 0 then 0 else sclust)
    ensures NoOnes(CutFat(fat, chain, k, eoc))
    ensures CountFree(CutFat(fat, chain, k, eoc)) == CountFree(fat) + |chain| - k
    ensures DirSafe(g, disk, CutFat(fat, chain, k, eoc), chain[..k], dirSect, dirClust)
  {
    if k == |chain| {
      assert chain[..k] == chain;
    } else {
      EraseIsCut(fat, chain, k, eoc);
      var f := CutFat(fat, chain, k, eoc);
      if k > 0 { CutLinked(fat, chain, k, eoc); }
      forall c: nat | Cluster(fat, c) ensures f[c] == 0 || f[c] == eoc || f[c] == fat[c] {}
      if dirSect >= g.database { CutEntries(fat, chain, k, eoc, dirClust); }
    }
  }

  /** The FAT part of f_truncate. */
  method CutChain(fp: Fil) returns (res: FResult)
    requires fp.Sound() && fp.fptr < fp.objsize
    modifies fp`sclust, fp.fs`winsect, fp.fs`wflag, fp.fs`vol, fp.fs`fat, fp.fs`freeClst, fp.fs`fsiFlag, fp.fs`promise,
      fp.fs.win, fp.fs.disk`img
    ensures res == OK || (res == DiskErr && !fp.fs.disk.reliable)
    ensures Clusters(fp.fs.geo, fp.fptr) <= |fp.chain| && forall i | 0 <= i < |fp.chain| ::
      Cluster(old(fp.fs.fat), fp.chain[i])
    ensures Valid(fp.fs) && OnlyFat(fp.fs, old(fp.fs.vol)) && (res == OK ==> FreeCountOk(fp.fs))
    ensures WindowMoved(fp.fs.geo, old(fp.fs.winsect), fp.fs.winsect)
    ensures fp.fs.promise == NoPromise() && (fp.sclust == old(fp.sclust) || fp.sclust == 0)
    ensures res == OK ==>
      fp.fs.fat == CutFat(old(fp.fs.fat), fp.chain, Clusters(fp.fs.geo, fp.fptr), Eoc(fp.fs.geo.fsType))
    ensures res == OK ==> fp.sclust == if Clusters(fp.fs.geo, fp.fptr) == 0 then 0 else old(fp.sclust)
  {
    hide Fil.BufOk, Fil.WindowOk, Valid, FreeCountOk, NoOnes, SecsAre, BodyMatches, Idx, Cut, Erase, Eoc;
    ghost var k := Clusters(fp.fs.geo, fp.fptr);
    CutFacts(fp, k);
    Release(fp.fs, NoPromise());
    if fp.fptr == 0 {
      res := RemoveChain(fp.fs, fp.sclust, 0);
      fp.sclust := 0;
    } else {
      ghost var fat, vol := fp.fs.fat, fp.fs.vol;
      var ncl := GetFat(fp.fs, fp.clust);
      res := OK;
      if ncl == ERR32 { res := DiskErr; }
      if ncl == 1 { res := IntErr; }
      if res == OK && ncl < fp.fs.geo.nFatent {
        res := RemoveChain(fp.fs, ncl, fp.clust);
      }
    }
  }

  /** What f_truncate relies on at the cut. */
  lemma CutFacts(fp: Fil, k: nat)
    requires fp.Sound() && fp.fptr < fp.objsize && k == Clusters(fp.fs.geo, fp.fptr)
    ensures |fp.fs.fat| == fp.fs.geo.nFatent && Eoc(fp.fs.geo.fsType) >= |fp.fs.fat|
    ensures k <= |fp.chain| && fp.chain != [] && (k == 0 <==> fp.fptr == 0) && fp.sclust == fp.chain[0]
    ensures forall i | 0 <= i < |fp.chain| :: Cluster(fp.fs.fat, fp.chain[i])
    ensures k > 0 ==> fp.clust == fp.chain[k - 1] && HasEntry(fp.fs.geo, fp.clust) && fp.fs.fat[fp.clust] >= 2
    ensures 0 < k < |fp.chain| ==> fp.fs.fat[fp.clust] == fp.chain[k]
    ensures 0 < k == |fp.chain| ==> fp.fs.fat[fp.clust] >= |fp.fs.fat|
    ensures k < |fp.chain| ==> HasEntry(fp.fs.geo, fp.chain[k])
    ensures k < |fp.chain| ==>
      Erase(Terminated(fp.fs.fat, if k == 0 then 0 else fp.clust, Eoc(fp.fs.geo.fsType)), fp.chain[k])
        == CutFat(fp.fs.fat, fp.chain, k, Eoc(fp.fs.geo.fsType))
    ensures NoOnes(fp.fs.fat)
  {
    hide Fil.BufOk, Fil.WindowOk, FreeCountOk, NoOnes, SecsAre, BodyMatches, Idx, Cut, Erase, Eoc;
    ValidFacts(fp.fs);
    ClustersMonotone(fp.fs.geo, fp.fptr, fp.objsize);
    if k > 0 { ChainFacts(fp.fs.fat, fp.chain, k - 1); }
    if k < |fp.chain| { EraseIsCut(fp.fs.fat, fp.chain, k, Eoc(fp.fs.geo.fsType)); }
  }

  /** The ghost fields after the chain was shortened to k clusters. */
  ghost method CutGhosts(fp: Fil, k: nat, fatWas: seq<nat>, sclustWas: nat)
    requires Valid(fp.fs) && FreeCountOk(fp.fs) && fp.buf.Length == 512 && fp.buf != fp.fs.win
    requires Chained(fatWas, fp.chain, sclustWas) && NoOnes(fatWas) && k == Clusters(fp.fs.geo, fp.fptr) <= |fp.chain|
    requires fp.sclust == (if k == 0 then 0 else sclustWas) && fp.fs.promise == NoPromise()
    requires forall i | 0 <= i < |fp.chain| :: Cluster(fatWas, fp.chain[i])
    requires fp.fs.fat == CutFat(fatWas, fp.chain, k, Eoc(fp.fs.geo.fsType))
    requires SecsAre(fp.fs.geo, |fp.fs.vol|, fp.chain, fp.secs) &&
      BodyMatches(fp.secs, fp.body, fp.fs.vol, fp.sect, fp.buf[..])
    requires fp.BufOk() && !fp.dirty && fp.Cursor() && fp.objsize == fp.fptr
    requires fp.fs.winsect == ERR32 || fp.fs.winsect < fp.fs.geo.database || fp.fs.winsect == fp.dirSect
    requires DirSafe(fp.fs.geo, |fp.fs.vol|, fatWas, fp.chain, fp.dirSect, fp.dirClust) && fp.dirOfs % 32 == 0 &&
      fp.dirOfs < 512
    modifies fp`chain, fp`secs, fp`body
    ensures fp.Sound() && fp.chain == old(fp.chain)[..k] &&
      CountFree(fp.fs.fat) == CountFree(fatWas) + |old(fp.chain)| - k
    ensures fp.body <= old(fp.body) && fp.secs <= old(fp.secs)
  {
    hide Valid, FreeCountOk, NoOnes, Linked, DirSafe, SecsAre, BodyMatches, CutFat, CountFree, Idx;
    var g, disk := fp.fs.geo, |fp.fs.vol|;
    ValidFacts(fp.fs);
    ShortenedFacts(g, disk, fatWas, fp.chain, sclustWas, k, Eoc(g.fsType), fp.dirSect, fp.dirClust);
    PrefixSecs(g, disk, fp.chain, fp.secs, k);
    var n := Times(k, g.csize);
    PrefixMatches(fp.secs, fp.body, fp.fs.vol, fp.sect, fp.buf[..], n);
    CutCursor(fp, k);
    fp.chain, fp.secs, fp.body := fp.chain[..k], fp.secs[..n], fp.body[..n];
    CoverLemma(g, fp.chain, fp.objsize);
  }

  lemma PrefixSecs(g: Geometry, disk: nat, chain: seq<nat>, secs: seq<nat>, k: nat)
    requires SecsAre(g, disk, chain, secs) && k <= |chain|
    ensures Times(k, g.csize) <= |secs| && SecsAre(g, disk, chain[..k], secs[..Times(k, g.csize)])
    ensures forall i | 0 <= i < k :: chain[i] >= 2
    ensures Times(k, g.csize) == |SecsOf(g, chain[..k])|
  {
    hide SecsOf;
    SecsPrefix(g, chain, k);
  }

  lemma PrefixMatches(secs: seq<nat>, body: seq<Sector>, vol: seq<Sector>, sect: nat, buf: seq<byte>, n: nat)
    requires BodyMatches(secs, body, vol, sect, buf) && n <= |secs|
    ensures n <= |body| && BodyMatches(secs[..n], body[..n], vol, sect, buf)
  {
  }

  /** The cursor stays inside the kept part. */
  lemma CutCursor(fp: Fil, k: nat)
    requires fp.fs.geo.csize > 0 && k == Clusters(fp.fs.geo, fp.fptr)
    ensures fp.fptr > 0 ==> Idx(fp.fs.geo, fp.fptr - 1) == k - 1
    ensures fp.fptr % 512 != 0 ==> fp.fptr / 512 < Times(k, fp.fs.geo.csize)
  {
    if fp.fptr > 0 { IdxSector(fp.fs.geo, fp.fptr - 1); }
  }

  /** The write-back of f_truncate, between the cut of the FAT and that of the file. */
  method FlushCut(fp: Fil) returns (res: FResult)
    requires Valid(fp.fs) && fp.BufOk() && BodyMatches(fp.secs, fp.body, fp.fs.vol, fp.sect, fp.buf[..])
    requires fp.buf.Length == 512 && (fp.dirty ==> fp.fs.winsect != fp.sect)
    modifies fp`dirty, fp.fs`vol, fp.fs.disk`img
    ensures res == OK || (res == DiskErr && !fp.fs.disk.reliable)
    ensures Valid(fp.fs) && (res != OK ==> fp.dirty == old(fp.dirty))
    ensures res == OK ==> fp.BufOk() && !fp.dirty && Outside(fp.fs.geo, fp.secs, old(fp.fs.vol), fp.fs.vol)
    ensures res == OK ==> BodyMatches(fp.secs, fp.body, fp.fs.vol, fp.sect, fp.buf[..])
  {
    hide Valid, BodyMatches;
    res := OK;
    if fp.dirty {
      ghost var vol := fp.fs.vol;
      var ok := WriteData(fp.fs, fp.buf[..], fp.sect);
      if !ok { return DiskErr; }
      fp.dirty := false;
      MatchFlush(fp.secs, fp.body, vol, fp.fs.vol, fp.sect, fp.buf[..]);
    }
  }

  /** The working part of f_truncate, for a cursor before the end. */
  method TruncateHere(fp: Fil) returns (res: FResult)
    requires fp.Sound() && fp.fptr < fp.objsize
    modifies fp`sclust, fp`objsize, fp`modified, fp`dirty, fp`chain, fp`secs, fp`body
    modifies fp.fs`winsect, fp.fs`wflag, fp.fs`vol, fp.fs`fat, fp.fs`freeClst, fp.fs`fsiFlag, fp.fs`promise, fp.fs.win,
      fp.fs.disk`img
    ensures res == OK || (res == DiskErr && !fp.fs.disk.reliable)
    ensures res == OK ==> fp.Good() && fp.fptr == fp.objsize && fp.Data() == old(fp.Data())[..fp.fptr]
    ensures res == OK ==> Pool(fp) == old(Pool(fp)) && fp.chain <= old(fp.chain)
    ensures forall i | 0 <= i < |old(fp.chain)| :: Cluster(old(fp.fs.fat), old(fp.chain)[i])
    ensures res == OK ==>
      fp.fs.fat == CutFat(old(fp.fs.fat), old(fp.chain), |fp.chain|, Eoc(fp.fs.geo.fsType))
    ensures res == OK ==> Outside(fp.fs.geo, old(fp.secs), old(fp.fs.vol), fp.fs.vol)
    ensures res != OK ==> fp.Loose()
  {
    hide Valid, FreeCountOk, NoOnes, Chained, SecsAre, BodyMatches, DirSafe, CutFat, CountFree, Idx, Clusters,
      Fil.Synced, Fil.Loose, Cluster, Fil.Tight, Bytes, Outside;
    ghost var fat, sclust, chain, k, vol := fp.fs.fat, fp.sclust, fp.chain, Clusters(fp.fs.geo, fp.fptr), fp.fs.vol;
    ghost var body, n := fp.body, fp.objsize;
    GeoFacts(fp.fs);
    CoreLoose(fp);
    res := CutChain(fp);
    GeoFacts(fp.fs);
    fp.objsize := fp.fptr;
    fp.modified := true;
    StillLoose(fp);
    if res != OK { return; }
    GeoFacts(fp.fs);
    StillSecs(fp, vol);
    ghost var mid := fp.fs.vol;
    res := FlushCut(fp);
    if res != OK {
      StillLoose(fp);
      return;
    }
    OutsideTrans(fp.fs.geo, fp.secs, vol, mid, fp.fs.vol);
    CutGhosts(fp, k, fat, sclust);
    BytesPrefix(fp.body, body, fp.objsize, n);
  }

  /** A file that is already at its end is not cut. */
  lemma TruncateFacts(fp: Fil)
    requires fp.err == OK ==> fp.Sound()
    ensures fp.err == OK ==> forall i | 0 <= i < |fp.chain| :: Cluster(fp.fs.fat, fp.chain[i])
    ensures fp.err == OK ==> fp.fs.fat == CutFat(fp.fs.fat, fp.chain, |fp.chain|, Eoc(fp.fs.geo.fsType))
    ensures Outside(fp.fs.geo, fp.secs, fp.fs.vol, fp.fs.vol)
  {
    hide Fil.VolumeOk, Fil.BufOk, Fil.WindowOk, SecsAre, BodyMatches, CountFree, Idx, Clusters;
  }

  lemma StillSecs(fp: Fil, volWas: seq<Sector>)
    requires Valid(fp.fs) && OnlyFat(fp.fs, volWas) && SecsAre(fp.fs.geo, |volWas|, fp.chain, fp.secs)
    requires BodyMatches(fp.secs, fp.body, volWas, fp.sect, fp.buf[..])
    ensures SecsAre(fp.fs.geo, |fp.fs.vol|, fp.chain, fp.secs)
    ensures BodyMatches(fp.secs, fp.body, fp.fs.vol, fp.sect, fp.buf[..])
    ensures Outside(fp.fs.geo, fp.secs, volWas, fp.fs.vol)
  {
    hide Decodes, SecsOf, BodyMatches;
    GeoFacts(fp.fs);
    OutsideFatMatches(fp.fs.geo, fp.secs, fp.body, volWas, fp.fs.vol, fp.sect, fp.buf[..]);
  }

  /**
    f_truncate. On success the content is cut at the cursor, the clusters behind it are free and no
    other chain has changed.
  */
  method Truncate(fp: Fil) returns (res: FResult)
    requires fp.err == OK ==> fp.Sound()
    modifies fp, fp.fs`winsect, fp.fs`wflag, fp.fs`vol, fp.fs`fat, fp.fs`freeClst, fp.fs`fsiFlag, fp.fs`promise,
      fp.fs.win, fp.fs.disk`img
    ensures fp.fs.disk.reliable && fp.id == fp.fs.id && old(fp.err) == OK && fp.canWrite ==> res == OK
    ensures res == OK ==> fp.Sound() && fp.err == OK && old(fp.err) == OK && fp.fptr == old(fp.fptr) == fp.objsize
    ensures res == OK && old(fp.modified || fp.Synced()) ==> fp.Good()
    ensures res == OK ==> old(fp.fptr) <= old(fp.objsize) && fp.Data() == old(fp.Data())[..fp.fptr]
    ensures res == OK ==> Pool(fp) == old(Pool(fp)) && fp.chain <= old(fp.chain)
    ensures res == OK ==> forall i | 0 <= i < |old(fp.chain)| :: Cluster(old(fp.fs.fat), old(fp.chain)[i])
    ensures res == OK ==>
      fp.fs.fat == CutFat(old(fp.fs.fat), old(fp.chain), |fp.chain|, Eoc(fp.fs.geo.fsType))
    ensures res == OK ==> Outside(fp.fs.geo, old(fp.secs), old(fp.fs.vol), fp.fs.vol)
    ensures Aborted(old(fp.err), fp.err, res)
    ensures old(fp.err) == OK ==> fp.Loose()
  {
    hide Fil.Loose, Fil.VolumeOk, Fil.BufOk, Fil.WindowOk, Chained, SecsAre, BodyMatches, CutFat, CountFree, Idx,
      Clusters, Bytes;
    TruncateFacts(fp);
    if fp.err == OK { CoreLoose(fp); }
    res := Validate(fp);
    if res == OK { res := fp.err; }
    if res != OK { return; }
    if !fp.canWrite { return Denied; }
    if fp.fptr < fp.objsize {
      res := TruncateHere(fp);
      if res != OK { fp.err := res; } else { CoreLoose(fp); }
    }
  }
}
