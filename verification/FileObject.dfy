/** The open file: cursor, private sector buffer and the ghost view of its content. */
module FileObject {
  import opened FatTypes
  import opened Window
  import opened FatEntries
  import opened DirEntry
  import opened FatAccess
  import opened ChainTheory
  import opened Chains
  import opened ClusterMap
  import opened FileBytes
  import opened FileMap

  class Fil {
    const fs: Fatfs
    const id: nat            // mount ID at open
    const canRead: bool      // FA_READ
    const canWrite: bool     // FA_WRITE
    const dirSect: nat       // sector and offset of the directory entry
    const dirOfs: nat
    const buf: array<byte>
    var modified: bool       // FA_MODIFIED
    var dirty: bool          // FA_DIRTY: buf is newer than the disk
    var err: FResult         // abort flag
    var sclust: dword        // start cluster, 0: none
    var objsize: dword
    var fptr: dword
    var clust: dword         // cluster of byte fptr - 1
    var sect: dword          // sector in buf, 0: none

    ghost const dirClust: nat    // cluster holding dirSect when it lies in the data area
    ghost var chain: seq<nat>    // clusters of the file
    ghost var secs: seq<nat>     // their sectors
    ghost var body: seq<Sector>  // and what these hold, pending writes included

    /** The end of f_open: the entry in the window names the file, the cursor is at its start. */
    constructor (fs: Fatfs, canRead: bool, canWrite: bool, created: bool, dirOfs: nat, ghost dirClust: nat,
                 ghost chain: seq<nat>)
      requires Valid(fs) && FreeCountOk(fs) && NoOnes(fs.fat) && fs.promise == NoPromise()
      requires fs.winsect != ERR32 && dirOfs % 32 == 0 && dirOfs < 512 && (created || !fs.wflag)
      requires DirSafe(fs.geo, |fs.vol|, fs.fat, chain, fs.winsect, dirClust)
      requires Chained(fs.fat, chain, EntryClust(fs.geo, fs.vol[fs.winsect], dirOfs))
      requires fs.geo.csize > 0 && |chain| == Clusters(fs.geo, EntrySize(fs.vol[fs.winsect], dirOfs))
      ensures this.fs == fs && id == fs.id && this.canRead == canRead && this.canWrite == canWrite && fresh(buf)
      ensures dirSect == fs.winsect && this.dirOfs == dirOfs && this.dirClust == dirClust
      ensures Good() && err == OK && fptr == 0 && modified == created && !dirty
      ensures this.chain == chain && EntryIs(fs.geo, fs.vol[fs.winsect], dirOfs, sclust, objsize)
      ensures forall k | 0 <= k < |secs| :: secs[k] < |fs.vol| && body[k] == fs.vol[secs[k]]
    {
      hide Valid, FreeCountOk, SecsOf, EntryClust, EntrySize, Linked, NoOnes, Clusters, Shadow, InFat, FirstSector,
        Idx, Good;
      WindowFacts(fs);
      this.fs, this.id, this.canRead, this.canWrite := fs, fs.id, canRead, canWrite;
      this.dirSect, this.dirOfs, this.dirClust := fs.winsect, dirOfs, dirClust;
      modified, dirty, err := created, false, OK;
      sclust := EntryClust(fs.geo, fs.win[..], dirOfs);
      objsize := EntrySize(fs.win[..], dirOfs);
      fptr, clust, sect := 0, 0, 0;
      buf := new byte[512](_ => 0);
      this.chain := chain;
      new;
      GeoFacts(fs);
      ChainSecs(fs.geo, |fs.vol|, fs.fat, chain);
      secs := SecsOf(fs.geo, chain);
      ghost var list, vol := secs, fs.vol;
      body := seq(|list|, k requires 0 <= k < |list| && list[k] < |vol| => vol[list[k]]);
      CoverLemma(fs.geo, chain, objsize);
      NewGood();
    }

    lemma NewGood()
      requires Valid(fs) && FreeCountOk(fs) && NoOnes(fs.fat) && buf.Length == 512 && buf != fs.win &&
        fs.promise == NoPromise()
      requires sect == 0 && fptr == 0 && !dirty && fs.geo.csize > 0 && (modified || !fs.wflag)
      requires dirSect == fs.winsect && dirOfs % 32 == 0 && dirOfs < 512 &&
        DirSafe(fs.geo, |fs.vol|, fs.fat, chain, dirSect, dirClust)
      requires Chained(fs.fat, chain, sclust) && |chain| == Clusters(fs.geo, objsize) &&
        EntryIs(fs.geo, fs.vol[dirSect], dirOfs, sclust, objsize)
      requires SecsAre(fs.geo, |fs.vol|, chain, secs) && objsize <= |secs| * 512
      requires |body| == |secs| && forall k | 0 <= k < |secs| :: secs[k] < |fs.vol| && body[k] == fs.vol[secs[k]]
      ensures Good()
    {
      hide Valid, FreeCountOk, SecsOf, EntryIs, Linked, NoOnes, Clusters, Shadow, InFat, FirstSector, Idx;
      GeoFacts(fs);
      assert 0 !in secs by { assert forall k | 0 <= k < |secs| :: secs[k] >= fs.geo.database; }
    }

    /** The volume below the file. */
    ghost predicate VolumeOk()
      reads fs`winsect, fs`wflag, fs`vol, fs`fat, fs`freeClst, fs`promise, fs`fsiCount, fs`fsiFlag, fs.win, fs.disk
    {
      Valid(fs) && FreeCountOk(fs) && NoOnes(fs.fat) && buf.Length == 512 && buf != fs.win
    }

    /** The buffer: a copy of a data sector, of the file if dirty. */
    ghost predicate BufOk()
      reads `sect, `dirty, `secs, buf, fs`vol, fs`promise
    {
      && (sect != 0 ==> fs.geo.database <= sect < |fs.vol| && sect != dirSect)
      && (sect != 0 && !dirty ==> buf[..] == fs.vol[sect])
      && (dirty ==> sect != 0 && sect in secs && sect !in fs.promise.secs)
    }

    /** The window never shows a data sector other than the directory's, and no sector of a free cluster is promised. */
    ghost predicate WindowOk()
      reads fs`winsect, fs`fat, fs`vol, fs`promise, `chain, `secs
    {
      && NoneSpare(fs.geo, fs.fat, fs.promise.secs)
      && (fs.winsect == ERR32 || fs.winsect < fs.geo.database || fs.winsect == dirSect)
      && DirSafe(fs.geo, |fs.vol|, fs.fat, chain, dirSect, dirClust) && dirOfs % 32 == 0 && dirOfs < 512
    }

    /** Everything but the cursor and the exact chain length. */
    ghost predicate Core()
      reads `sclust, `chain, `secs, `body, `sect, `dirty, buf, fs`winsect, fs`wflag, fs`vol, fs`fat, fs`freeClst,
        fs`promise, fs`fsiCount, fs`fsiFlag, fs.win, fs.disk
    {
      && VolumeOk()
      && Chained(fs.fat, chain, sclust)
      && SecsAre(fs.geo, |fs.vol|, chain, secs)
      && BodyMatches(secs, body, fs.vol, sect, buf[..])
      && BufOk() && WindowOk()
    }

    /** What is left when a call was given up on the way: a coherent volume, and a buffer that may be written back. */
    ghost predicate Loose()
      reads `sect, `dirty, `sclust, fs`winsect, fs`wflag, fs`vol, fs`fat, fs`promise, fs`fsiCount, fs.win, fs.disk
    {
      && Valid(fs) && buf.Length == 512 && buf != fs.win && (fs.geo.fsType != FAT32 ==> sclust < 0x1_0000)
      && dirSect < |fs.vol| && !InFat(fs.geo, dirSect) && !Shadow(fs.geo, dirSect) && dirOfs + 32 <= 512
      && (dirty ==> fs.geo.database <= sect < |fs.vol| && sect != dirSect && sect !in fs.promise.secs)
      && (fs.winsect == ERR32 || fs.winsect < fs.geo.database || fs.winsect == dirSect)
    }

    /** The clusters of the file, whatever the entry of the last one holds. */
    ghost predicate Threaded()
      reads `sclust, `chain, `secs, fs`fat
    {
      && |fs.fat| == fs.geo.nFatent && Leads(fs.fat, chain) && SecsAre(fs.geo, fs.size, chain, secs)
      && sclust == (if chain == [] then 0 else chain[0]) && dirSect !in secs
    }

    /** clust and sect go with fptr. */
    ghost predicate Cursor()
      reads `fptr, `objsize, `clust, `sect, `chain, `secs
    {
      && fptr <= objsize && fs.geo.csize > 0
      && (fptr > 0 ==> Idx(fs.geo, fptr - 1) < |chain| && clust == chain[Idx(fs.geo, fptr - 1)])
      && (fptr % 512 != 0 ==> fptr / 512 < |secs| && sect == secs[fptr / 512])
    }

    /** The file owns exactly the clusters its size needs. */
    ghost predicate Tight()
      reads `objsize, `chain
    {
      fs.geo.csize > 0 && |chain| == Clusters(fs.geo, objsize)
    }

    ghost predicate Covers()
      reads `objsize, `body
    {
      objsize <= |body| * 512
    }

    /** The directory entry in the logical volume is up to date and nothing is pending. */
    ghost predicate Synced()
      reads `dirty, `sclust, `objsize, fs`wflag, fs`vol
    {
      && !dirty && !fs.wflag && dirSect < |fs.vol| && dirOfs + 32 <= 512
      && EntryIs(fs.geo, fs.vol[dirSect], dirOfs, sclust, objsize)
    }

    /** The file is consistent, up to the modified flag that f_write sets last. */
    ghost predicate Sound()
      reads `sclust, `chain, `secs, `body, `sect, `dirty, `fptr, `clust, `objsize, buf, fs`winsect, fs`wflag, fs`vol,
        fs`fat, fs`freeClst, fs`promise, fs`fsiCount, fs`fsiFlag, fs.win, fs.disk
    {
      Core() && Cursor() && Tight() && Covers()
    }

    /** What every successful operation keeps. */
    ghost predicate Good()
      reads this, buf, fs`winsect, fs`wflag, fs`vol, fs`fat, fs`freeClst, fs`promise, fs`fsiCount, fs`fsiFlag, fs.win,
        fs.disk
    {
      Sound() && (modified || Synced())
    }

    /** The content of the file. */
    ghost function Data(): (d: seq<byte>)
      requires Covers()
      reads `objsize, `body
      ensures |d| == objsize
    {
      Bytes(body, objsize)
    }
  }

  lemma WindowFacts(fs: Fatfs)
    requires Valid(fs) && fs.winsect != ERR32 && fs.winsect < |fs.vol| && !Shadow(fs.geo, fs.winsect)
    ensures fs.win[..] == fs.vol[fs.winsect] && fs.win.Length == 512
  {
  }

  /** Clusters(n) clusters have room for n bytes. */
  lemma CoverLemma(g: Geometry, chain: seq<nat>, n: nat)
    requires g.csize > 0 && |chain| >= Clusters(g, n) && forall i | 0 <= i < |chain| :: chain[i] >= 2
    ensures n <= |SecsOf(g, chain)| * 512
  {
    if n > 0 {
      IdxSector(g, n - 1);
      SecsAt(g, chain, Idx(g, n - 1), Csect(g, n - 1));
    }
  }

  /** Facts about the geometry that the file layer uses. */
  lemma GeoFacts(fs: Fatfs)
    requires Valid(fs)
    ensures |fs.vol| == |fs.disk.img| && ValidGeometry(fs.geo, |fs.vol|) && |fs.fat| == fs.geo.nFatent
    ensures 1 <= fs.geo.csize <= 128 && 1 <= fs.geo.database <= |fs.vol| < 0x1_0000_0000
  {
    hide Entry, FatBytes, Times;
  }

  /** disk_write of one data sector that the window does not show. */
  method WriteData(fs: Fatfs, data: Sector, sect: nat) returns (ok: bool)
    requires Valid(fs) && fs.geo.database <= sect < |fs.vol| && fs.winsect != sect && sect !in fs.promise.secs
    modifies fs`vol, fs.disk`img
    ensures Valid(fs) && |fs.vol| == |old(fs.vol)|
    ensures forall s: nat | s < |fs.vol| && s != sect :: fs.vol[s] == old(fs.vol)[s]
    ensures ok ==> fs.vol[sect] == data
    ensures fs.disk.reliable ==> ok
  {
    hide Entry, ValidGeometry, Copies, SaysFree, Decodes, Shadow, HasLinks;
    Areas(fs.geo, |fs.vol|);
    ghost var was, img := fs.vol, fs.disk.img;
    ok := fs.disk.WriteSector(data, sect);
    fs.vol := fs.vol[sect := fs.disk.img[sect]];
    DecodesFrame(fs.geo, was, fs.vol, fs.fat);
    HeldFrame(fs, was, img);
    BelowData(fs.geo, img, fs.disk.img);
  }

  /** disk_write of consecutive data sectors. */
  method WriteDataRun(fs: Fatfs, data: seq<byte>, sect: nat, cnt: nat) returns (ok: bool)
    requires Valid(fs) && |data| == cnt * 512
    requires fs.geo.database <= sect && sect + cnt <= |fs.vol| && !(sect <= fs.winsect < sect + cnt)
    requires forall s: nat | sect <= s < sect + cnt :: s !in fs.promise.secs
    modifies fs`vol, fs.disk`img
    ensures Valid(fs) && |fs.vol| == |old(fs.vol)|
    ensures forall s: nat | s < |fs.vol| && !(sect <= s < sect + cnt) :: fs.vol[s] == old(fs.vol)[s]
    ensures ok ==> forall i: nat | sect <= i < sect + cnt :: fs.vol[i] == Chunk(data, i - sect)
    ensures fs.disk.reliable ==> ok
  {
    hide Entry, Chunk, ValidGeometry, Copies, SaysFree, Decodes, Shadow, HasLinks;
    Areas(fs.geo, |fs.vol|);
    ghost var was, img := fs.vol, fs.disk.img;
    ok := fs.disk.WriteRun(data, sect, cnt);
    fs.vol := Renewed(was, fs.disk.img, sect, cnt);
    DecodesFrame(fs.geo, was, fs.vol, fs.fat);
    HeldFrame(fs, was, img);
    BelowData(fs.geo, img, fs.disk.img);
  }

  /** vol with cnt sectors from sect on as they are in img. */
  function Renewed(vol: seq<Sector>, img: seq<Sector>, sect: nat, cnt: nat): (r: seq<Sector>)
    requires |img| == |vol|
    ensures |r| == |vol| && forall s | 0 <= s < |vol| :: r[s] == if sect <= s < sect + cnt then img[s] else vol[s]
  {
    seq(|vol|, s requires 0 <= s < |vol| => if sect <= s < sect + cnt then img[s] else vol[s])
  }

  /** Writing in the data area disturbs neither the FAT copies nor FSInfo. */
  lemma BelowData(g: Geometry, img: seq<Sector>, img': seq<Sector>)
    requires ValidGeometry(g, |img|) && |img'| == |img| && forall s: nat | s < g.database :: img'[s] == img[s]
    ensures forall skip :: Copies(g, img, skip) ==> Copies(g, img', skip)
    ensures forall n :: g.fsType == FAT32 && SaysFree(g, img, n) ==> SaysFree(g, img', n)
  {
    hide FatBytes, Times, FsInfoCounts;
  }

  /** None of the sectors lo to hi of the file is promised. */
  ghost predicate Clear(fp: Fil, lo: nat, hi: nat)
    reads fp`secs, fp.fs`promise
  {
    forall k | lo <= k <= hi && k < |fp.secs| :: fp.secs[k] !in fp.fs.promise.secs
  }

  /** What was promised still is, apart from the sectors lo to hi of secs. */
  ghost predicate Spares(was: Promise, now: Promise, secs: seq<nat>, lo: nat, hi: nat) {
    && now.links == was.links && Weaker(now, was)
    && forall s | s in was.secs && s !in now.secs :: exists k :: lo <= k <= hi && k < |secs| && secs[k] == s
  }

  lemma SparesRefl(p: Promise, secs: seq<nat>, lo: nat, hi: nat)
    ensures Spares(p, p, secs, lo, hi)
  {
  }

  /** Sectors outside the FAT and outside secs are the same. */
  ghost predicate Outside(g: Geometry, secs: seq<nat>, vol: seq<Sector>, vol': seq<Sector>) {
    |vol'| == |vol| && forall s: nat | s < |vol| && s !in secs && !InFat(g, s) :: vol'[s] == vol[s]
  }

  lemma OutsideRefl(g: Geometry, secs: seq<nat>, vol: seq<Sector>)
    ensures Outside(g, secs, vol, vol)
  {
  }

  lemma OutsideTrans(g: Geometry, secs: seq<nat>, vol: seq<Sector>, mid: seq<Sector>, vol': seq<Sector>)
    requires Outside(g, secs, vol, mid) && Outside(g, secs, mid, vol')
    ensures Outside(g, secs, vol, vol')
  {
  }

  /** Outside the FAT and the sectors of a file only the allocation fields and times of its directory entry changed. */
  ghost predicate Beside(g: Geometry, secs: seq<nat>, dirSect: nat, dirOfs: nat, vol: seq<Sector>, vol': seq<Sector>) {
    && Outside(g, secs + [dirSect], vol, vol')
    && dirSect < |vol| && dirOfs + 32 <= 512 && EntryKept(vol[dirSect], vol'[dirSect], dirOfs)
  }

  lemma BesideTrans(g: Geometry, secs: seq<nat>, secs': seq<nat>, dirSect: nat, dirOfs: nat, v0: seq<Sector>,
                    v1: seq<Sector>, v2: seq<Sector>)
    requires Beside(g, secs, dirSect, dirOfs, v0, v1) && Beside(g, secs', dirSect, dirOfs, v1, v2) && secs <= secs'
    ensures Beside(g, secs', dirSect, dirOfs, v0, v2)
  {
    forall s: nat | s < |v0| && s !in secs' + [dirSect] && !InFat(g, s) ensures v2[s] == v0[s] {
      assert forall i | 0 <= i < |secs| :: secs[i] == secs'[i];
      assert s in secs ==> s in secs';
    }
  }

  /** A change of the file's sectors and the FAT alone is one of these. */
  lemma OutsideBeside(fp: Fil, vol: seq<Sector>)
    requires fp.Core() && Outside(fp.fs.geo, fp.secs, vol, fp.fs.vol)
    ensures Beside(fp.fs.geo, fp.secs, fp.dirSect, fp.dirOfs, vol, fp.fs.vol)
  {
    hide Decodes, FreeCountOk, NoOnes, Linked, SecsOf, BodyMatches, ValidGeometry, Fatfs.Coherent, Shadow, InFat;
    GeoFacts(fp.fs);
    DirApart(fp.fs.geo, |fp.fs.vol|, fp.fs.fat, fp.chain, fp.secs, fp.dirSect, fp.dirClust);
  }

  lemma CoreThreaded(fp: Fil)
    requires fp.Core()
    ensures fp.Threaded() && |fp.secs| == |fp.body|
  {
    hide FreeCountOk, NoOnes, SecsOf, Entry, Held, Copies, SaysFree, FatBytes, Times;
    GeoFacts(fp.fs);
    DirApart(fp.fs.geo, |fp.fs.vol|, fp.fs.fat, fp.chain, fp.secs, fp.dirSect, fp.dirClust);
  }

  /** A call that was given up on the way may have stretched the file, but has not changed its size. */
  twostate predicate GaveUp(fp: Fil)
    reads fp, fp.fs`winsect, fp.fs`wflag, fp.fs`vol, fp.fs`fat, fp.fs`promise, fp.fs`fsiCount, fp.fs.win, fp.fs.disk
  {
    && fp.Loose() && fp.Threaded()
    && old(fp.chain) <= fp.chain && old(fp.secs) <= fp.secs && fp.objsize == old(fp.objsize)
  }

  /** What any failing call leaves: the file still has the clusters it had, in order, and enough for its size. */
  twostate predicate Interrupted(fp: Fil)
    reads fp, fp.fs`winsect, fp.fs`wflag, fp.fs`vol, fp.fs`fat, fp.fs`promise, fp.fs`fsiCount, fp.fs.win, fp.fs.disk
  {
    && fp.Loose() && fp.Threaded() && fp.objsize <= |fp.secs| * 512
    && old(fp.secs) <= fp.secs && old(fp.objsize) <= fp.objsize
  }

  lemma CoreLoose(fp: Fil)
    requires fp.Core()
    ensures fp.Loose()
  {
    hide Decodes, FreeCountOk, NoOnes, Linked, SecsAre, BodyMatches, FatBytes, Times, Held, Copies, SaysFree;
    StartFits(fp);
  }

  lemma StartFits(fp: Fil)
    requires fp.VolumeOk() && Chained(fp.fs.fat, fp.chain, fp.sclust)
    ensures fp.fs.geo.fsType != FAT32 ==> fp.sclust < 0x1_0000
  {
    hide Entry, FatBytes, FreeCountOk, NoOnes;
  }

  /** Writes a dirty buffer back, of any file object. */
  method FlushBuf(fp: Fil) returns (res: FResult)
    requires fp.Loose()
    modifies fp`dirty, fp.fs`vol, fp.fs.disk`img
    ensures res == OK || (res == DiskErr && !fp.fs.disk.reliable)
    ensures fp.Loose() && (res == OK ==> !fp.dirty)
    ensures |fp.fs.vol| == |old(fp.fs.vol)|
    ensures forall s: nat | s < |fp.fs.vol| && !(old(fp.dirty) && s == fp.sect) :: fp.fs.vol[s] == old(fp.fs.vol)[s]
    ensures res == OK && old(fp.dirty) ==> fp.fs.vol[fp.sect] == fp.buf[..]
    ensures !old(fp.dirty) ==> fp.fs.vol == old(fp.fs.vol)
    ensures res == OK && old(fp.Core()) ==> fp.Core() && Outside(fp.fs.geo, fp.secs, old(fp.fs.vol), fp.fs.vol)
  {
    hide Valid, Fil.Core, InFat, Shadow, Outside;
    GeoFacts(fp.fs);
    ghost var was, whole := fp.fs.vol, fp.Core();
    res := OK;
    if fp.dirty {
      var ok := WriteData(fp.fs, fp.buf[..], fp.sect);
      if !ok { return DiskErr; }
      fp.dirty := false;
    }
    if whole { Flushed(fp); }
  }

  /** The buffer of an open file after it was written back. */
  twostate lemma Flushed(fp: Fil)
    requires old(fp.Core()) && Valid(fp.fs) && !fp.dirty && |fp.fs.vol| == |old(fp.fs.vol)|
    requires fp.fs.fat == old(fp.fs.fat) && fp.fs.winsect == old(fp.fs.winsect)
    requires fp.fs.freeClst == old(fp.fs.freeClst) && fp.fs.promise == old(fp.fs.promise)
    requires fp.fs.fsiFlag == old(fp.fs.fsiFlag) && fp.fs.fsiCount == old(fp.fs.fsiCount)
    requires fp.chain == old(fp.chain) && fp.secs == old(fp.secs) && fp.body == old(fp.body)
    requires fp.sclust == old(fp.sclust) && fp.sect == old(fp.sect) && fp.buf[..] == old(fp.buf[..])
    requires forall s: nat | s < |fp.fs.vol| && !(old(fp.dirty) && s == fp.sect) :: fp.fs.vol[s] == old(fp.fs.vol)[s]
    requires old(fp.dirty) ==> fp.fs.vol[fp.sect] == fp.buf[..]
    ensures fp.Core() && Outside(fp.fs.geo, fp.secs, old(fp.fs.vol), fp.fs.vol)
  {
    hide Valid, NoOnes, Chained, SecsAre, BodyMatches, DirSafe;
    MatchFlush(fp.secs, fp.body, old(fp.fs.vol), fp.fs.vol, fp.sect, fp.buf[..]);
  }

  /**
    How an error stays with a file: a call that fails on the way leaves its error there, and from then
    on every call fails with it. Calls that are refused leave no error.
  */
  predicate Aborted(was: FResult, err: FResult, res: FResult) {
    res == OK || (err == res && was == OK) || (err == was && (res == was || res == InvalidObject || res == Denied))
  }

  /** The file belongs to the current mount and its drive answers. */
  method Validate(fp: Fil) returns (res: FResult)
    ensures res == OK || res == InvalidObject
    ensures res == OK ==> fp.id == fp.fs.id
    ensures fp.id == fp.fs.id && fp.fs.disk.reliable ==> res == OK
  {
    if fp.id != fp.fs.id { return InvalidObject; }
    var ok := fp.fs.disk.Ready();
    res := if ok then OK else InvalidObject;
  }
}
