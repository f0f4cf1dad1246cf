/** What survives losing everything in memory: a synced file reopened from the disk. */
module FileReopen {
  import opened FatTypes
  import opened BlockDevice
  import opened Window
  import opened FatEntries
  import opened DirEntry
  import opened FatAccess
  import opened ChainTheory
  import opened Chains
  import opened ClusterMap
  import opened FileBytes
  import opened FileMap
  import opened FileObject
  import opened FileSync
  import opened BootSector
  import opened Mount

  /** The disk alone holds the file in the shape that opening it relies on. */
  ghost predicate Reopenable(g: Geometry, img: seq<Sector>, dirSect: nat, dirOfs: nat, dirClust: nat, chain: seq<nat>,
                             data: seq<byte>) {
    && FileOnDisk(g, img, dirSect, dirOfs, chain, data) && dirOfs % 32 == 0
    && NoOnes(FatOf(g, img)) && DirSafe(g, |img|, FatOf(g, img), chain, dirSect, dirClust)
  }

  /** f_sync leaves the file reopenable. */
  lemma SyncedReopenable(fp: Fil)
    requires fp.Sound() && fp.Synced()
    ensures Reopenable(fp.fs.geo, fp.fs.disk.img, fp.dirSect, fp.dirOfs, fp.dirClust, fp.chain, fp.Data())
  {
    hide FileOnDisk, Entry, SecsAre, BodyMatches, FreeCountOk, ValidGeometry, Linked, Idx, Clusters, Bytes, EntryIs,
      Fil.BufOk;
    GeoFacts(fp.fs);
    CleanFat(fp.fs);
    SyncedOnDisk(fp);
  }

  /** The boot sector at b is found and describes geo. */
  ghost predicate BootsAs(img: seq<Sector>, b: nat, geo: Geometry) {
    && Trusted(img) && VolumeAt(img) == Some(b) && b < |img| && b < 0x1_0000_0000 && ParseBpb(img[b], b) == Some(geo)
    && ValidGeometry(geo, |img|)
  }

  // ----- The count of free clusters

  /** The boot sector says that there is an FSInfo sector. */
  predicate HasFsInfo(g: Geometry, img: seq<Sector>) {
    g.fsType == FAT32 && g.volbase < |img| && LdWord(img[g.volbase], 48) == 1
  }

  /** The free count in FSInfo is right, or unknown. */
  ghost predicate CountSaved(g: Geometry, img: seq<Sector>) {
    HasFsInfo(g, img) && g.volbase + 1 < |img| && ValidGeometry(g, |img|) ==>
      FsInfoCounts(img[g.volbase + 1]).0 <= g.nFatent - 2 ==>
        FsInfoCounts(img[g.volbase + 1]).0 == CountFree(FatOf(g, img))
  }

  /** The count that a mount loads is exact or unknown exactly if FSInfo has one that is right or unknown. */
  lemma LoadedCount(fs: Fatfs)
    requires Attached(fs, fs.geo.volbase) && fs.disk.reliable
    ensures fs.exact <==> CountSaved(fs.geo, fs.vol)
    ensures HasFsInfo(fs.geo, fs.vol) ==> fs.fsiUsed
  {
    hide Fatfs.Coherent, Decodes, ParseBpb, FatOf, CountFree, FsInfoCounts, LdWord;
    ValidFacts(fs);
  }

  /** The count that a sync leaves in FSInfo. */
  lemma SavedCount(fs: Fatfs)
    requires Valid(fs) && FreeCountOk(fs) && !fs.wflag && fs.disk.reliable && fs.exact
    requires (HasFsInfo(fs.geo, fs.disk.img) ==> fs.fsiUsed) && (fs.fsiUsed ==> fs.fsiFlag == 0)
    ensures CountSaved(fs.geo, fs.disk.img)
  {
    hide Entry, FsInfoCounts, CountFree, LdWord;
    GeoFacts(fs);
    CleanFat(fs);
  }

  // ----- Mounting and reopening

  /** What a mount of such a disk has loaded. */
  lemma MountedAs(fs: Fatfs, b: nat, geo: Geometry)
    requires Attached(fs, b) && BootsAs(fs.disk.img, b, geo)
    ensures fs.geo == geo && Valid(fs) && FreeCountOk(fs) && !fs.wflag && fs.vol == fs.disk.img &&
      fs.fat == FatOf(geo, fs.vol)
    ensures fs.promise == NoPromise()
  {
    hide Trusted, VolumeAt, ParseBpb, Valid, FatOf, CountFree, FsInfoCounts, LdWord;
    ValidFacts(fs);
  }

  /**
    After a loss of power a file that was synced is mounted, found by its entry and read back from
    the disk with exactly the content it had.
  */
  method Reopen(disk: Disk, id: nat, dirSect: nat, dirOfs: nat, ghost b: nat, ghost geo: Geometry, ghost dirClust: nat,
                ghost chain: seq<nat>, ghost data: seq<byte>) returns (res: FResult, fp: Fil?)
    requires disk.reliable && BootsAs(disk.img, b, geo)
    requires Reopenable(geo, disk.img, dirSect, dirOfs, dirClust, chain, data)
    modifies disk`img
    ensures res == OK && fp != null && fresh(fp) && fp.fs.disk == disk && fp.id == fp.fs.id == id && fp.canRead &&
      fp.canWrite
    ensures fp.Good() && fp.err == OK && fp.fptr == 0 && fp.chain == chain && fp.Data() == data
  {
    hide Valid, FreeCountOk, NoOnes, ValidGeometry, Entry, SecsAre, Linked, Clusters, Bytes, EntryClust, EntrySize,
      CountFree, FatOf;
    hide Fil.VolumeOk, Fil.BufOk, Fil.WindowOk, BodyMatches, Idx, Shadow, Attached, Trusted, ParseBpb, VolumeAt,
      BootCandidate, HasVolume;
    fp := null;
    ghost var img := disk.img;
    var fs;
    ghost var at, kinds;
    res, fs, at, kinds := FindVolume(disk, id);
    MountedAs(fs, b, geo);
    DirReadable(fs, dirSect);
    GeoFacts(fs);
    res := MoveValid(fs, dirSect);
    fp := new Fil(fs, true, true, false, dirOfs, dirClust, chain);
    SameData(fp, img, data);
  }

  lemma DirReadable(fs: Fatfs, s: nat)
    requires Valid(fs) && s < |fs.vol| && !Shadow(fs.geo, s)
    ensures !InMirror(fs.geo, s) && s < ERR32 && |fs.disk.img| == |fs.vol|
  {
    hide Decodes, FatBytes, Times;
  }

  method MoveValid(fs: Fatfs, s: nat) returns (res: FResult)
    requires Valid(fs) && s < |fs.disk.img| && !InMirror(fs.geo, s) && !fs.wflag
    modifies fs`winsect, fs`wflag, fs.win, fs.disk`img
    ensures Valid(fs) && !fs.wflag && (res == OK || (res == DiskErr && !fs.disk.reliable))
    ensures res == OK ==> fs.winsect == s
  {
    hide Entry, ValidGeometry;
    res := ShowSector(fs, s);
  }

  /** The content of the new file object is what the image held. */
  lemma SameData(fp: Fil, img: seq<Sector>, data: seq<byte>)
    requires fp.Covers() && FileOnDisk(fp.fs.geo, img, fp.dirSect, fp.dirOfs, fp.chain, data) && fp.fs.vol == img
    requires fp.Core()
    requires EntryIs(fp.fs.geo, img[fp.dirSect], fp.dirOfs, fp.sclust, fp.objsize)
    requires forall k | 0 <= k < |fp.secs| :: fp.secs[k] < |img| && fp.body[k] == img[fp.secs[k]]
    ensures fp.Data() == data
  {
    hide Bytes, Clusters, Chained, GoodSecs, ValidGeometry, FatOf, EntryClust, EntrySize, SecsOf;
    hide Fil.VolumeOk, Fil.BufOk, Fil.WindowOk;
    assert SecsListed(fp.fs.geo, fp.chain) == fp.secs;
    assert SectorsAt(img, fp.secs) == fp.body;
  }
}
