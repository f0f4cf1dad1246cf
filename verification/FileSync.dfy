/** f_sync and what it makes durable. */
module FileSync {
  import opened FatTypes
  import opened Window
  import opened FatEntries
  import opened DirEntry
  import opened FatAccess
  import opened ChainTheory
  import opened Chains
  import opened ClusterMap
  import opened FileBytes
  import opened FileMap
  import opened FileObject
  import opened FileWrite

  /** The content of the listed sectors. */
  function SectorsAt(img: seq<Sector>, secs: seq<nat>): (r: seq<Sector>)
    requires forall k | 0 <= k < |secs| :: secs[k] < |img|
    ensures |r| == |secs|
  {
    seq(|secs|, k requires 0 <= k < |secs| => img[secs[k]])
  }

  /**
    Read from the disk alone: the directory entry, the FAT chain it starts and the sectors of that
    chain hold the file data.
  */
  ghost predicate FileOnDisk(g: Geometry, img: seq<Sector>, dirSect: nat, dirOfs: nat, chain: seq<nat>,
                             data: seq<byte>) {
    && ValidGeometry(g, |img|) && dirSect < |img| && dirOfs + 32 <= 512
    && Chained(FatOf(g, img), chain, EntryClust(g, img[dirSect], dirOfs))
    && |data| == EntrySize(img[dirSect], dirOfs) && |chain| == Clusters(g, |data|)
    && SecsAre(g, |img|, chain, SecsListed(g, chain))
    && |data| <= |SecsListed(g, chain)| * 512
    && data == Bytes(SectorsAt(img, SecsListed(g, chain)), |data|)
  }

  /** SecsOf, total. */
  function SecsListed(g: Geometry, chain: seq<nat>): seq<nat> {
    if forall i | 0 <= i < |chain| :: chain[i] >= 2 then SecsOf(g, chain) else []
  }

  /** A disk image holds at most one content for a directory entry. */
  lemma OnDiskUnique(g: Geometry, img: seq<Sector>, dirSect: nat, dirOfs: nat, c1: seq<nat>, d1: seq<byte>,
                     c2: seq<nat>, d2: seq<byte>)
    requires FileOnDisk(g, img, dirSect, dirOfs, c1, d1) && FileOnDisk(g, img, dirSect, dirOfs, c2, d2)
    ensures c1 == c2 && d1 == d2
  {
    hide SecsAre, SecsListed, Bytes, Entry, EntryClust, EntrySize, Clusters, ValidGeometry, Linked;
    if c1 != [] && c2 != [] {
      LinkedUnique(FatOf(g, img), c1, c2);
    }
  }

  /** The FSInfo sector of a FAT32 volume. */
  function FsInfoSector(free: dword, last: dword): Sector {
    var s0 := Overwrite(seq(512, i => 0), 510, StWord(0xAA55));
    var s1 := Overwrite(s0, 0, StDword(0x4161_5252));
    var s2 := Overwrite(s1, 484, StDword(0x6141_7272));
    var s3 := Overwrite(s2, 488, StDword(free));
    Overwrite(s3, 492, StDword(last))
  }

  /** A mount reads back the counters that were saved. */
  lemma SavedCounts(free: dword, last: dword)
    ensures FsInfoCounts(FsInfoSector(free, last)) == (free, last)
  {
    hide StWord, StDword, LdWord, LdDword, Overwrite;
    var s0 := Overwrite(seq(512, i => 0), 510, StWord(0xAA55));
    var s1 := Overwrite(s0, 0, StDword(0x4161_5252));
    var s2 := Overwrite(s1, 484, StDword(0x6141_7272));
    var s3 := Overwrite(s2, 488, StDword(free));
    OverwriteHit(seq(512, i => 0), 510, StWord(0xAA55));
    WordStored(s0, 510, 0xAA55);
    Field(s0, 0, 0x4161_5252);
    Field(s1, 484, 0x6141_7272);
    Field(s2, 488, free);
    Field(s3, 492, last);
  }

  /** st_dword on a sector: the field loads back, the bytes around it are the same. */
  lemma Field(s: Sector, o: nat, v: dword)
    requires o + 4 <= 512
    ensures LdDword(Overwrite(s, o, StDword(v)), o) == v
    ensures forall p | 0 <= p <= 508 && (p + 4 <= o || o + 4 <= p) ::
      LdDword(Overwrite(s, o, StDword(v)), p) == LdDword(s, p)
    ensures forall p | 0 <= p <= 510 && (p + 2 <= o || o + 4 <= p) ::
      LdWord(Overwrite(s, o, StDword(v)), p) == LdWord(s, p)
  {
    OverwriteHit(s, o, StDword(v));
    DwordStored(Overwrite(s, o, StDword(v)), o, v);
  }

  /** Each sector of the logical volume is on the later disk as it was there before or as it is in the volume. */
  ghost predicate OldOrNew(g: Geometry, img: seq<Sector>, img': seq<Sector>, vol: seq<Sector>) {
    |img| == |img'| == |vol| && forall s | 0 <= s < |vol| && !Shadow(g, s) :: img'[s] == img[s] || img'[s] == vol[s]
  }

  /** Flushes the window, refreshes FSInfo if it is out of date and flushes the drive. */
  method SyncFs(fs: Fatfs) returns (res: FResult)
    requires Valid(fs)
    modifies fs`winsect, fs`wflag, fs`fsiFlag, fs`fsiCount, fs.win, fs.disk`img
    ensures Valid(fs)
    ensures res == OK || (res == DiskErr && !fs.disk.reliable)
    ensures res == OK ==> !fs.wflag
    ensures fs.winsect == old(fs.winsect) || fs.winsect < fs.geo.database
    ensures fs.wflag ==> old(fs.wflag) && fs.winsect == old(fs.winsect)
    ensures fs.disk.atomic ==> OldOrNew(fs.geo, old(fs.disk.img), fs.disk.img, fs.vol)
    ensures fs.geo.fsType == FAT32 && old(fs.fsiFlag) == 1 && fs.disk.reliable ==>
      fs.disk.img[fs.geo.volbase + 1] == FsInfoSector(fs.freeClst, fs.lastClst) && fs.fsiFlag == 0
    ensures old(FreeCountOk(fs)) ==> FreeCountOk(fs)
    ensures old(FreeCountOk(fs)) && fs.fsiUsed && res == OK ==> fs.fsiFlag == 0
  {
    hide Decodes, ValidGeometry, FsInfoSector;
    SyncFacts(fs);
    Areas(fs.geo, |fs.vol|);
    res := FlushWindow(fs);
    if res == OK {
      if fs.geo.fsType == FAT32 && fs.fsiFlag == 1 {
        WriteFsInfo(fs);
      }
      var ok := fs.disk.Sync();
      if !ok { res := DiskErr; }
    }
  }

  lemma SyncFacts(fs: Fatfs)
    requires Valid(fs)
    ensures ValidGeometry(fs.geo, |fs.vol|) && |fs.vol| == |fs.disk.img|
  {
  }

  /** The FSInfo part of sync_fs; the result of the write is ignored. */
  method WriteFsInfo(fs: Fatfs)
    requires Valid(fs) && !fs.wflag && fs.geo.fsType == FAT32
    modifies fs`winsect, fs`fsiFlag, fs`fsiCount, fs.win, fs.disk`img
    ensures Valid(fs) && fs.winsect == fs.geo.volbase + 1 < fs.geo.database && fs.fsiFlag == 0 &&
      fs.fsiCount == fs.freeClst
    ensures fs.disk.reliable ==> fs.disk.img[fs.winsect] == FsInfoSector(fs.freeClst, fs.lastClst)
    ensures |fs.disk.img| == |old(fs.disk.img)|
    ensures forall s | 0 <= s < |fs.disk.img| && s != fs.geo.volbase + 1 :: fs.disk.img[s] == old(fs.disk.img)[s]
  {
    hide Decodes, ValidGeometry, FsInfoSector, HasLinks;
    SyncFacts(fs);
    Areas(fs.geo, |fs.vol|);
    ghost var img := fs.disk.img;
    CopyInto(fs.win, 0, FsInfoSector(fs.freeClst, fs.lastClst));
    OverwriteAll(old(fs.win[..]), FsInfoSector(fs.freeClst, fs.lastClst));
    fs.winsect := fs.geo.volbase + 1;
    var ignored := fs.disk.WriteSector(fs.win[..], fs.winsect);
    fs.fsiFlag, fs.fsiCount := 0, fs.freeClst;
    HeldFrame(fs, fs.vol, img);
    SavedCounts(fs.freeClst, fs.lastClst);
  }

  /** Nothing pending: the disk alone tells the file. */
  lemma SyncedOnDisk(fp: Fil)
    requires fp.Sound() && fp.Synced()
    ensures FileOnDisk(fp.fs.geo, fp.fs.disk.img, fp.dirSect, fp.dirOfs, fp.chain, fp.Data())
  {
    hide Fil.BufOk, Fil.WindowOk, FreeCountOk, NoOnes, Entry, SecsOf, Bytes, ValidGeometry, Clusters, EntryClust,
      EntrySize;
    hide Linked;
    var g, img := fp.fs.geo, fp.fs.disk.img;
    GeoFacts(fp.fs);
    CleanFat(fp.fs);
    CleanBody(fp);
    CleanEntry(fp);
    assert SecsListed(g, fp.chain) == fp.secs;
    assert SectorsAt(img, fp.secs) == fp.body;
  }

  /** With no pending write the FAT on the disk is the FAT of the volume. */
  lemma CleanFat(fs: Fatfs)
    requires Valid(fs) && !fs.wflag
    ensures ValidGeometry(fs.geo, |fs.disk.img|) && FatOf(fs.geo, fs.disk.img) == fs.fat
  {
    hide Entry;
    Areas(fs.geo, |fs.vol|);
    DecodesFrame(fs.geo, fs.vol, fs.disk.img, fs.fat);
  }

  lemma CleanVolume(fs: Fatfs)
    requires Valid(fs) && !fs.wflag
    ensures |fs.disk.img| == |fs.vol| && forall s | 0 <= s < |fs.vol| && !Shadow(fs.geo, s) ::
      fs.disk.img[s] == fs.vol[s]
  {
    hide Entry, ValidGeometry, Shadow;
  }

  lemma CleanBody(fp: Fil)
    requires fp.Core() && !fp.dirty && !fp.fs.wflag
    ensures |fp.body| == |fp.secs| && |fp.fs.disk.img| == |fp.fs.vol|
    ensures forall k | 0 <= k < |fp.secs| :: fp.secs[k] < |fp.fs.vol| && fp.body[k] == fp.fs.disk.img[fp.secs[k]]
  {
    hide Fil.WindowOk, FreeCountOk, NoOnes, SecsOf, Decodes, Linked;
    GeoFacts(fp.fs);
    Areas(fp.fs.geo, |fp.fs.vol|);
  }

  lemma CleanEntry(fp: Fil)
    requires fp.Core() && !fp.fs.wflag
    ensures fp.dirSect < |fp.fs.disk.img| && fp.fs.disk.img[fp.dirSect] == fp.fs.vol[fp.dirSect] &&
      fp.dirOfs + 32 <= 512
  {
    hide Fil.BufOk, FreeCountOk, NoOnes, SecsAre, Decodes, Linked, BodyMatches;
  }

  /** Rewrites the directory entry in the window. */
  method UpdateDirEntry(fs: Fatfs, o: nat, sclust: dword, size: dword, tm: dword)
    requires Valid(fs) && o + 32 <= 512 && fs.winsect != ERR32 && fs.winsect < |fs.vol|
    requires !InFat(fs.geo, fs.winsect) && !Shadow(fs.geo, fs.winsect) && fs.winsect !in fs.promise.secs
    modifies fs`wflag, fs`vol, fs.win
    ensures Valid(fs) && fs.wflag
    ensures fs.vol == old(fs.vol)[fs.winsect := UpdatedEntry(fs.geo, old(fs.vol)[fs.winsect], o, sclust, size, tm)]
  {
    hide Fatfs.Coherent, Decodes, StWord, StDword, Overwrite, SetArchive;
    ghost var was, img := fs.vol, fs.disk.img;
    WindowFacts(fs);
    SyncFacts(fs);
    PokeWindow(fs, o + 11, [SetArchive(fs.win[o + 11])]);
    PokeWindow(fs, o + 26, StWord(sclust % 0x1_0000));
    if fs.geo.fsType == FAT32 { PokeWindow(fs, o + 20, StWord(sclust / 0x1_0000)); }
    PokeWindow(fs, o + 28, StDword(size));
    PokeWindow(fs, o + 22, StDword(tm));
    PokeWindow(fs, o + 18, StWord(0));
    assert fs.vol == was[fs.winsect := UpdatedEntry(fs.geo, was[fs.winsect], o, sclust, size, tm)];
    DecodesFrame(fs.geo, was, fs.vol, fs.fat);
    HeldFrame(fs, was, img);
  }

  /** Of what was promised only the sector of the entry may be given up, and that is still on the disk. */
  ghost predicate EntryGivenUp(fp: Fil, was: Promise)
    reads fp.fs`winsect, fp.fs`wflag, fp.fs`vol, fp.fs`fat, fp.fs`promise, fp.fs`fsiCount, fp.fs.win, fp.fs.disk
  {
    && Valid(fp.fs) && Spares(was, fp.fs.promise, [fp.dirSect], 0, 0)
    && (fp.dirSect in was.secs ==> fp.dirSect < |fp.fs.disk.img| && fp.fs.disk.img[fp.dirSect] == was.secs[fp.dirSect])
  }

  lemma NothingGivenUp(fp: Fil)
    requires Valid(fp.fs)
    ensures EntryGivenUp(fp, fp.fs.promise)
  {
    hide Decodes, Held, ValidGeometry, Copies, SaysFree, Shadow;
    if fp.dirSect in fp.fs.promise.secs { PromisedSector(fp.fs, fp.dirSect); }
  }

  /** The sector of the entry is promised no longer. */
  ghost method SpareEntry(fp: Fil)
    requires Valid(fp.fs)
    modifies fp.fs`promise
    ensures Valid(fp.fs) && fp.dirSect !in fp.fs.promise.secs && EntryGivenUp(fp, old(fp.fs.promise))
  {
    hide Decodes, Held, ValidGeometry, Copies, SaysFree, Shadow;
    var was := fp.fs.promise;
    if fp.dirSect in was.secs { PromisedSector(fp.fs, fp.dirSect); }
    Release(fp.fs, Promise(map s | s in was.secs && s != fp.dirSect :: was.secs[s], was.links));
    forall s | s in was.secs && s !in fp.fs.promise.secs
      ensures exists k :: 0 <= k <= 0 && k < |[fp.dirSect]| && [fp.dirSect][k] == s
    {
      assert [fp.dirSect][0] == s;
    }
  }

  /** Moves the window to the directory sector and rewrites the entry, of any file object. */
  method WriteEntry(fp: Fil, tm: dword) returns (res: FResult)
    requires fp.Loose() && !fp.dirty
    modifies fp.fs`winsect, fp.fs`wflag, fp.fs`vol, fp.fs`promise, fp.fs.win, fp.fs.disk`img
    ensures res == OK || (res == DiskErr && !fp.fs.disk.reliable)
    ensures EntryGivenUp(fp, old(fp.fs.promise)) && (res != OK ==> fp.fs.promise == old(fp.fs.promise))
    ensures fp.Loose() && OnlyBuffered(fp) && (res != OK ==> fp.fs.vol == old(fp.fs.vol))
    ensures res == OK ==> fp.fs.wflag && Rewritten(fp) && fp.fs.winsect == fp.dirSect
    ensures res == OK && old(fp.Core()) ==> fp.Core()
  {
    hide Decodes, ValidGeometry, UpdatedEntry, EntryIs, Shadow, InFat, Fatfs.Coherent, Held, EntryKept, Fil.Core;
    DirFacts(fp);
    ghost var was, whole := fp.fs.vol, fp.Core();
    SameEntry(was[fp.dirSect], fp.dirOfs);
    res := ShowSector(fp.fs, fp.dirSect);
    NothingGivenUp(fp);
    if res != OK { return; }
    SpareEntry(fp);
    UpdateDirEntry(fp.fs, fp.dirOfs, fp.sclust, fp.objsize, tm);
    UpdatedEntryIs(fp.fs.geo, was[fp.dirSect], fp.dirOfs, fp.sclust, fp.objsize, tm);
    if whole { EntryApartFromData(fp); }
  }

  lemma SameEntry(s: Sector, o: nat)
    requires o + 32 <= 512
    ensures EntryKept(s, s, o)
  {
  }

  /** Only the sector of the buffer, if it was dirty, and the entry have changed, and there neither name nor kind. */
  twostate predicate OnlyBuffered(fp: Fil)
    reads fp.fs`vol
  {
    && |fp.fs.vol| == |old(fp.fs.vol)| && fp.dirSect < |fp.fs.vol| && fp.dirOfs + 32 <= 512
    && EntryKept(old(fp.fs.vol)[fp.dirSect], fp.fs.vol[fp.dirSect], fp.dirOfs)
    && forall s: nat | s < |fp.fs.vol| && s != fp.dirSect && !(old(fp.dirty) && s == old(fp.sect)) ::
         fp.fs.vol[s] == old(fp.fs.vol)[s]
  }

  /** An open file with another entry. */
  twostate lemma EntryApartFromData(fp: Fil)
    requires old(fp.Core()) && Valid(fp.fs) && !fp.dirty && !old(fp.dirty) && OnlyBuffered(fp)
    requires fp.fs.fat == old(fp.fs.fat) && fp.fs.winsect == fp.dirSect && fp.fs.freeClst == old(fp.fs.freeClst)
    requires fp.fs.fsiFlag == old(fp.fs.fsiFlag) && fp.fs.fsiCount == old(fp.fs.fsiCount)
    requires forall s | s in fp.fs.promise.secs :: s in old(fp.fs.promise.secs)
    requires fp.chain == old(fp.chain) && fp.secs == old(fp.secs) && fp.body == old(fp.body)
    requires fp.sclust == old(fp.sclust) && fp.sect == old(fp.sect) && fp.buf[..] == old(fp.buf[..])
    ensures fp.Core()
  {
    hide Decodes, ValidGeometry, NoOnes, Linked, SecsOf, BodyMatches, EntryKept, Fatfs.Coherent, Held;
    GeoFacts(fp.fs);
    DirApart(fp.fs.geo, |fp.fs.vol|, old(fp.fs.fat), fp.chain, fp.secs, fp.dirSect, fp.dirClust);
    DirMatches(fp.secs, fp.body, old(fp.fs.vol), fp.fs.vol, fp.sect, fp.buf[..], fp.dirSect);
  }

  lemma DirFacts(fp: Fil)
    requires fp.Loose()
    ensures fp.dirSect < |fp.fs.vol| < 0x1_0000_0000 && !InFat(fp.fs.geo, fp.dirSect) && !Shadow(fp.fs.geo, fp.dirSect)
    ensures !InMirror(fp.fs.geo, fp.dirSect) && fp.dirSect < ERR32 && fp.dirOfs + 32 <= 512
    ensures |fp.fs.vol| == |fp.fs.disk.img|
  {
    hide Decodes, FatBytes, Times;
  }

  lemma DirMatches(secs: seq<nat>, body: seq<Sector>, vol: seq<Sector>, vol': seq<Sector>, sect: nat, buf: seq<byte>,
                   d: nat)
    requires BodyMatches(secs, body, vol, sect, buf) && |vol'| == |vol| && d !in secs
    requires forall s: nat | s < |vol| && s != d :: vol'[s] == vol[s]
    ensures BodyMatches(secs, body, vol', sect, buf)
  {
  }

  /**
    f_sync. It works on a file marked as modified; then success means that nothing is pending and the
    content can be read back from the disk alone. On any other file it does nothing at all. If only the
    last step, the flush of the window and the drive, fails, the mark is gone nevertheless. A file whose
    last call was given up on the way is synced as it is left: success means that its buffer and an entry
    with its start cluster and size are on the disk, and nothing else was written to the volume.
  */
  method Sync(fp: Fil, tm: dword) returns (res: FResult)
    requires fp.Loose()
    modifies fp`dirty, fp`modified, fp.fs`winsect, fp.fs`wflag, fp.fs`vol, fp.fs`promise, fp.fs`fsiFlag, fp.fs`fsiCount,
      fp.fs.win, fp.fs.disk`img
    ensures fp.fs.disk.reliable && fp.id == fp.fs.id ==> res == OK
    ensures fp.Loose() && OnlyBuffered(fp)
    ensures res == OK && old(fp.modified) ==> Rewritten(fp) && !fp.fs.wflag && !fp.modified
    ensures res == OK && old(fp.modified && fp.dirty) ==> fp.fs.vol[fp.sect] == fp.buf[..]
    ensures !old(fp.modified) ==> Untouched(fp) && (res == OK || res == InvalidObject)
    ensures res != OK && old(fp.modified) && !fp.modified ==> Rewritten(fp)
    ensures Spares(old(fp.fs.promise), fp.fs.promise, [fp.dirSect], 0, 0)
    ensures fp.modified ==> fp.fs.promise == old(fp.fs.promise)
    ensures fp.fs.disk.atomic ==> EntryOldOrNew(fp, old(fp.fs.promise))
    ensures old(fp.Sound()) && (res == OK || !fp.modified) ==> fp.Sound()
    ensures old(fp.Sound()) && res == OK && (old(fp.modified) || fp.Synced()) ==>
      && fp.Good() && fp.Synced() && !fp.modified
      && FileOnDisk(fp.fs.geo, fp.fs.disk.img, fp.dirSect, fp.dirOfs, fp.chain, fp.Data())
    ensures old(fp.Sound()) && res == OK && old(fp.modified) ==>
      Beside(fp.fs.geo, fp.secs, fp.dirSect, fp.dirOfs, old(fp.fs.vol), fp.fs.vol) &&
      (fp.fs.fsiUsed ==> fp.fs.fsiFlag == 0)
  {
    hide EntryOldOrNew, Spares, Fil.Loose, Fil.Core, Fil.Cursor, Fil.Tight, FileOnDisk, EntryIs, Beside, Rewritten,
      EntryKept;
    SparesRefl(fp.fs.promise, [fp.dirSect], 0, 0);
    DirFacts(fp);
    SameEntry(fp.fs.vol[fp.dirSect], fp.dirOfs);
    EntryStays(fp);
    ghost var whole := fp.Sound();
    res := Validate(fp);
    if res != OK { return; }
    if fp.modified {
      res := SyncModified(fp, tm);
      if whole && res == OK {
        WrittenBack(fp);
        SyncedOnDisk(fp);
        BufferedBeside(fp);
      }
    } else if whole && fp.Synced() {
      SyncedOnDisk(fp);
    }
  }

  /** A promised entry is on the disk. */
  lemma EntryStays(fp: Fil)
    requires fp.Loose()
    ensures EntryOldOrNew(fp, fp.fs.promise)
  {
    hide Decodes, Held, ValidGeometry, Copies, SaysFree, Shadow, InFat;
    if fp.dirSect in fp.fs.promise.secs { PromisedSector(fp.fs, fp.dirSect); }
  }

  /** All of f_sync is done but the last flush: only the sector of the entry may be pending. */
  ghost predicate Rewritten(fp: Fil)
    reads fp`dirty, fp`sclust, fp`objsize, fp.fs`wflag, fp.fs`winsect, fp.fs`vol
  {
    && !fp.dirty && (fp.fs.wflag ==> fp.fs.winsect == fp.dirSect) && fp.dirSect < |fp.fs.vol| && fp.dirOfs + 32 <= 512
    && EntryIs(fp.fs.geo, fp.fs.vol[fp.dirSect], fp.dirOfs, fp.sclust, fp.objsize)
  }

  lemma WrittenBack(fp: Fil)
    requires Rewritten(fp) && !fp.fs.wflag
    ensures fp.Synced()
  {
    hide EntryIs;
  }

  lemma CountsOk(fp: Fil)
    requires fp.Core()
    ensures FreeCountOk(fp.fs)
  {
    hide Fil.BufOk, Fil.WindowOk, Valid, Chained, SecsAre, BodyMatches, FreeCountOk, NoOnes;
  }

  /** Nothing changed, neither in memory nor on the disk. */
  twostate predicate Untouched(fp: Fil)
    reads fp, fp.fs, fp.fs.win, fp.fs.disk
  {
    && unchanged(fp) && unchanged(fp.fs) && unchanged(fp.fs.win) && fp.fs.disk.img == old(fp.fs.disk.img)
  }

  /** The first two steps of f_sync: buffer and directory entry. */
  method RewriteEntry(fp: Fil, tm: dword) returns (res: FResult)
    requires fp.Loose()
    modifies fp`dirty, fp.fs`winsect, fp.fs`wflag, fp.fs`vol, fp.fs`promise, fp.fs.win, fp.fs.disk`img
    ensures res == OK || (res == DiskErr && !fp.fs.disk.reliable)
    ensures fp.Loose() && OnlyBuffered(fp)
    ensures res == OK ==> Rewritten(fp) && fp.fs.wflag && fp.fs.winsect == fp.dirSect
    ensures res == OK && old(fp.dirty) ==> fp.fs.vol[fp.sect] == fp.buf[..]
    ensures EntryGivenUp(fp, old(fp.fs.promise)) && (res != OK ==> fp.fs.promise == old(fp.fs.promise))
    ensures res == OK && old(fp.Sound()) ==> fp.Sound()
  {
    hide Fil.Core, EntryIs, EntryKept, EntryGivenUp, Rewritten, Outside, Valid, InFat, Shadow, Fil.Cursor, Fil.Tight;
    DirFacts(fp);
    SameEntry(fp.fs.vol[fp.dirSect], fp.dirOfs);
    res := FlushBuf(fp);
    NothingGivenUp(fp);
    if res != OK { return; }
    res := WriteEntry(fp, tm);
  }

  /** A promised sector of the entry is in the volume. */
  lemma EntryInVolume(fp: Fil)
    requires fp.Loose()
    ensures fp.dirSect in fp.fs.promise.secs ==> fp.fs.vol[fp.dirSect] == fp.fs.promise.secs[fp.dirSect]
  {
    hide Decodes, ValidGeometry, Held, Copies, SaysFree, Shadow;
  }

  /** The three steps of f_sync: buffer, directory entry, window and drive. */
  method SyncModified(fp: Fil, tm: dword) returns (res: FResult)
    requires fp.Loose() && fp.modified
    modifies fp`dirty, fp`modified, fp.fs`winsect, fp.fs`wflag, fp.fs`vol, fp.fs`promise, fp.fs`fsiFlag, fp.fs`fsiCount,
      fp.fs.win, fp.fs.disk`img
    ensures fp.fs.disk.reliable ==> res == OK
    ensures fp.Loose() && OnlyBuffered(fp)
    ensures !fp.modified ==> Rewritten(fp) && (old(fp.Sound()) ==> fp.Sound())
    ensures res == OK ==> !fp.fs.wflag && !fp.modified
    ensures res == OK && old(fp.dirty) ==> fp.fs.vol[fp.sect] == fp.buf[..]
    ensures res == OK && old(fp.Sound()) && fp.fs.fsiUsed ==> fp.fs.fsiFlag == 0
    ensures Spares(old(fp.fs.promise), fp.fs.promise, [fp.dirSect], 0, 0)
    ensures fp.modified ==> fp.fs.promise == old(fp.fs.promise)
    ensures fp.fs.disk.atomic ==> EntryOldOrNew(fp, old(fp.fs.promise))
  {
    hide Valid, EntryIs, InFat, Shadow, Fil.Core, Fil.Cursor, Fil.Tight, Fil.Covers, EntryOldOrNew, Spares, EntryKept;
    EntryInVolume(fp);
    EntryStays(fp);
    ghost var was, whole := fp.fs.promise, fp.Sound();
    res := RewriteEntry(fp, tm);
    if res != OK {
      EntryStays(fp);
      return;
    }
    GeoFacts(fp.fs);
    if whole { CountsOk(fp); }
    ghost var img := fp.fs.disk.img;
    label rewritten:
    res := SyncFs(fp.fs);
    fp.modified := false;
    GeoFacts(fp.fs);
    if fp.fs.disk.atomic { EntryCaught(fp, was, img); }
    if whole { StillSound@rewritten(fp); }
  }

  /** sync_fs changes nothing that the file depends on. */
  twostate lemma StillSound(fp: Fil)
    requires old(fp.Sound()) && Valid(fp.fs) && FreeCountOk(fp.fs)
    requires fp.fs.vol == old(fp.fs.vol) && fp.fs.fat == old(fp.fs.fat) && fp.fs.promise == old(fp.fs.promise)
    requires fp.fs.winsect == old(fp.fs.winsect) || fp.fs.winsect < fp.fs.geo.database
    requires fp.dirty == old(fp.dirty) && fp.sect == old(fp.sect) && fp.buf[..] == old(fp.buf[..])
    requires fp.chain == old(fp.chain) && fp.secs == old(fp.secs) && fp.body == old(fp.body)
    requires fp.sclust == old(fp.sclust) && fp.clust == old(fp.clust)
    requires fp.fptr == old(fp.fptr) && fp.objsize == old(fp.objsize)
    ensures fp.Sound()
  {
    hide Valid, FreeCountOk, NoOnes, Chained, SecsAre, BodyMatches, DirSafe, Clusters, Idx, NoneSpare;
  }

  /** In an open file that is nothing but its own sectors and its entry. */
  twostate lemma BufferedBeside(fp: Fil)
    requires old(fp.Core()) && OnlyBuffered(fp)
    ensures Beside(fp.fs.geo, old(fp.secs), fp.dirSect, fp.dirOfs, old(fp.fs.vol), fp.fs.vol)
  {
    hide Fil.VolumeOk, Fil.WindowOk, Chained, SecsAre, BodyMatches, EntryKept, InFat;
  }

  /**
    If the sector of the entry was promised, the disk has it as it was, or with the start cluster and
    size of now, the name it had and all other entries; then the FAT is on the disk.
  */
  ghost predicate EntryOldOrNew(fp: Fil, was: Promise)
    reads fp`sclust, fp`objsize, fp.fs`fat, fp.fs.disk
  {
    fp.dirSect in was.secs ==>
      && fp.dirSect < |fp.fs.disk.img| && fp.dirOfs + 32 <= 512
      && (fp.fs.disk.img[fp.dirSect] == was.secs[fp.dirSect] ||
            (&& EntryKept(was.secs[fp.dirSect], fp.fs.disk.img[fp.dirSect], fp.dirOfs)
             && EntryIs(fp.fs.geo, fp.fs.disk.img[fp.dirSect], fp.dirOfs, fp.sclust, fp.objsize)
             && ValidGeometry(fp.fs.geo, |fp.fs.disk.img|) && FatOf(fp.fs.geo, fp.fs.disk.img) == fp.fs.fat))
  }

  lemma EntryCaught(fp: Fil, was: Promise, img: seq<Sector>)
    requires fp.Loose() && Rewritten(fp) && OldOrNew(fp.fs.geo, img, fp.fs.disk.img, fp.fs.vol)
    requires fp.dirSect in was.secs ==> fp.dirSect < |img| && img[fp.dirSect] == was.secs[fp.dirSect]
    requires fp.dirSect in was.secs ==> EntryKept(was.secs[fp.dirSect], fp.fs.vol[fp.dirSect], fp.dirOfs)
    ensures EntryOldOrNew(fp, was)
  {
    hide EntryKept, EntryIs, Decodes, Fatfs.Coherent, Held;
    DirFacts(fp);
    FatWritten(fp);
  }

  /** With nothing but the entry pending, the FAT is on the disk. */
  lemma FatWritten(fp: Fil)
    requires fp.Loose() && Rewritten(fp)
    ensures |fp.fs.disk.img| == |fp.fs.vol| && ValidGeometry(fp.fs.geo, |fp.fs.vol|)
    ensures FatOf(fp.fs.geo, fp.fs.disk.img) == fp.fs.fat
  {
    hide Entry, EntryIs;
    Areas(fp.fs.geo, |fp.fs.vol|);
    DecodesFrame(fp.fs.geo, fp.fs.vol, fp.fs.disk.img, fp.fs.fat);
  }

  /**
    With nothing but the last flush missing, the file can be read back from the disk exactly if the
    entry that is there already has its start cluster and size.
  */
  lemma DurableIff(fp: Fil)
    requires fp.Sound() && Rewritten(fp)
    ensures fp.dirSect < |fp.fs.disk.img| && fp.dirOfs + 32 <= 512
    ensures FileOnDisk(fp.fs.geo, fp.fs.disk.img, fp.dirSect, fp.dirOfs, fp.chain, fp.Data()) <==>
      EntryIs(fp.fs.geo, fp.fs.disk.img[fp.dirSect], fp.dirOfs, fp.sclust, fp.objsize)
    ensures !fp.fs.wflag ==> FileOnDisk(fp.fs.geo, fp.fs.disk.img, fp.dirSect, fp.dirOfs, fp.chain, fp.Data())
  {
    hide Fil.BufOk, Fil.WindowOk, FreeCountOk, NoOnes, Entry, SecsOf, Bytes, ValidGeometry, Clusters, EntryClust,
      EntrySize;
    hide Linked, SectorsAt;
    var g, img := fp.fs.geo, fp.fs.disk.img;
    GeoFacts(fp.fs);
    PendingApart(fp);
    assert SecsListed(g, fp.chain) == fp.secs;
    assert SectorsAt(img, fp.secs) == fp.body by { SectorsAre(img, fp.secs, fp.body); }
    if !fp.fs.wflag { CleanEntry(fp); }
  }

  lemma SectorsAre(img: seq<Sector>, secs: seq<nat>, body: seq<Sector>)
    requires |body| == |secs| && forall k | 0 <= k < |secs| :: secs[k] < |img| && body[k] == img[secs[k]]
    ensures SectorsAt(img, secs) == body
  {
  }

  /** FAT and data are on the disk. */
  lemma PendingApart(fp: Fil)
    requires fp.Core() && Rewritten(fp)
    ensures |fp.fs.disk.img| == |fp.fs.vol| && ValidGeometry(fp.fs.geo, |fp.fs.vol|)
    ensures FatOf(fp.fs.geo, fp.fs.disk.img) == fp.fs.fat
    ensures |fp.body| == |fp.secs| && forall k | 0 <= k < |fp.secs| ::
      fp.secs[k] < |fp.fs.vol| && fp.body[k] == fp.fs.disk.img[fp.secs[k]]
  {
    hide FreeCountOk, NoOnes, SecsOf, Entry, Linked, EntryIs;
    GeoFacts(fp.fs);
    Areas(fp.fs.geo, |fp.fs.vol|);
    DirApart(fp.fs.geo, |fp.fs.vol|, fp.fs.fat, fp.chain, fp.secs, fp.dirSect, fp.dirClust);
    DecodesFrame(fp.fs.geo, fp.fs.vol, fp.fs.disk.img, fp.fs.fat);
  }

  /**
    A flush that failed is forgotten: the next call answers success without touching the disk. That
    answer is right exactly if the entry on the disk is up to date all the same; it is if the window is
    clean, so that only the drive failed.
  */
  method SyncAgain(fp: Fil, tm: dword) returns (first: FResult, second: FResult, ghost img: seq<Sector>)
    requires fp.Sound() && fp.modified
    modifies fp`dirty, fp`modified, fp.fs`winsect, fp.fs`wflag, fp.fs`vol, fp.fs`promise, fp.fs`fsiFlag, fp.fs`fsiCount,
      fp.fs.win, fp.fs.disk`img
    ensures first != OK && !fp.modified ==> (second == OK || second == InvalidObject) && fp.fs.disk.img == img
    ensures first != OK && !fp.modified ==> fp.Covers() && fp.dirSect < |img| && fp.dirOfs + 32 <= 512
    ensures first != OK && !fp.modified ==>
      (FileOnDisk(fp.fs.geo, fp.fs.disk.img, fp.dirSect, fp.dirOfs, fp.chain, fp.Data()) <==>
        EntryIs(fp.fs.geo, img[fp.dirSect], fp.dirOfs, fp.sclust, fp.objsize))
    ensures first != OK && !fp.modified && !fp.fs.wflag ==>
      FileOnDisk(fp.fs.geo, fp.fs.disk.img, fp.dirSect, fp.dirOfs, fp.chain, fp.Data())
  {
    hide Valid, FreeCountOk, NoOnes, Linked, SecsAre, BodyMatches, EntryIs, DirSafe, Clusters, Idx, Beside, Fil.Core,
      Fil.Cursor;
    hide FileOnDisk, Rewritten;
    CoreLoose(fp);
    first := Sync(fp, tm);
    img, second := fp.fs.disk.img, first;
    if first != OK && !fp.modified {
      DurableIff(fp);
      second := Sync(fp, tm);
    }
  }

  /**
    f_sync on a disk that works up to the last write, which fails and leaves the old entry s. The next
    call reports success for a file that is not on the disk.
  */
  method LostFlush(fp: Fil, tm: dword, s: Sector) returns (second: FResult)
    requires fp.Sound() && fp.modified && fp.fs.disk.reliable && fp.id == fp.fs.id
    requires fp.dirOfs + 32 <= 512 && EntrySize(s, fp.dirOfs) != fp.objsize
    modifies fp`dirty, fp`modified, fp.fs`winsect, fp.fs`wflag, fp.fs`vol, fp.fs`promise, fp.fs`fsiFlag, fp.fs`fsiCount,
      fp.fs.win, fp.fs.disk`img
    ensures second == OK && fp.Sound() &&
      !FileOnDisk(fp.fs.geo, fp.fs.disk.img, fp.dirSect, fp.dirOfs, fp.chain, fp.Data())
  {
    hide Valid, FreeCountOk, NoOnes, Linked, SecsAre, BodyMatches, DirSafe, Clusters, Idx, Beside, Fil.Core,
      Fil.Cursor, FileOnDisk;
    hide EntrySize, EntryClust;
    CoreLoose(fp);
    var first := RewriteEntry(fp, tm);
    LoseSector(fp, s);
    CoreLoose(fp);
    DurableIff(fp);
    second := Sync(fp, tm);
  }

  /**
    So the wrong report can happen to any file: it was synced, a write made it longer, and the flush of
    the next sync leaves its entry as it was.
  */
  method GrownAndLost(fp: Fil, x: seq<byte>, tm: dword) returns (bw: nat, second: FResult)
    requires fp.Sound() && fp.Synced() && fp.err == OK && fp.canWrite && fp.id == fp.fs.id && fp.fs.disk.reliable
    requires |x| < 0x1_0000_0000 && fp.fptr == fp.objsize
    modifies fp, fp.buf, fp.fs, fp.fs.win, fp.fs.disk`img
    ensures bw == 0 ==> WriteLimit(old(fp.fptr), |x|) == 0 || CountFree(fp.fs.fat) == 0
    ensures bw > 0 ==> second == OK && fp.Covers()
    ensures bw > 0 ==> !FileOnDisk(fp.fs.geo, fp.fs.disk.img, fp.dirSect, fp.dirOfs, fp.chain, fp.Data())
  {
    hide Valid, FreeCountOk, NoOnes, Linked, SecsAre, BodyMatches, DirSafe, Clusters, Idx, Beside, Fil.Core,
      Fil.Cursor, FileOnDisk;
    hide EntrySize, EntryClust, Stretched, CountFree;
    CleanEntry(fp);
    var entry := fp.fs.disk.img[fp.dirSect];
    var res;
    res, bw := Write(fp, x);
    second := OK;
    if bw > 0 { second := LostFlush(fp, tm, entry); }
  }

  /** The rest of f_sync when the write of the pending sector fails and leaves s there. */
  method LoseSector(fp: Fil, s: Sector)
    requires fp.Sound() && Rewritten(fp) && fp.fs.wflag && fp.fs.winsect == fp.dirSect
    modifies fp`modified, fp.fs.disk`img
    ensures fp.Sound() && Rewritten(fp) && !fp.modified && fp.dirSect < |fp.fs.disk.img| &&
      fp.fs.disk.img[fp.dirSect] == s
  {
    hide FreeCountOk, NoOnes, Linked, SecsAre, BodyMatches, Clusters, Idx, Valid, EntryIs, DirSafe, Fil.Tight,
      Fil.Cursor;
    CoreLoose(fp);
    DirFacts(fp);
    LoseWritten(fp.fs, s);
    fp.modified := false;
  }

  method LoseWritten(fs: Fatfs, s: Sector)
    requires Valid(fs) && fs.wflag && !InFat(fs.geo, fs.winsect)
    modifies fs.disk`img
    ensures Valid(fs) && |fs.disk.img| == |fs.vol| && fs.winsect < |fs.vol| &&
      fs.disk.img == old(fs.disk.img)[fs.winsect := s]
  {
    hide Decodes, ValidGeometry, Copies, SaysFree, HasLinks, Keeps;
    CoherentFacts(fs);
    MirrorIsShadow(fs.geo, fs.winsect);
    ghost var img := fs.disk.img;
    fs.disk.img := fs.disk.img[fs.winsect := s];
    HeldFrame(fs, fs.vol, img);
    EntryElsewhere(fs.geo, img, fs.disk.img, fs.winsect);
  }

  /** The sector of the entry is in no FAT and is not FSInfo. */
  lemma EntryElsewhere(g: Geometry, img: seq<Sector>, img': seq<Sector>, d: nat)
    requires ValidGeometry(g, |img|) && |img'| == |img| && !InFat(g, d) && !Shadow(g, d)
    requires forall s | 0 <= s < |img| && s != d :: img'[s] == img[s]
    ensures Copies(g, img, d) ==> Copies(g, img', d)
    ensures forall n :: g.fsType == FAT32 && SaysFree(g, img, n) ==> SaysFree(g, img', n)
  {
    hide FsInfoCounts, FatBytes, Times;
  }
}
