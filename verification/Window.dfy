/** The one-sector write-back window of a mounted volume. */
module Window {
  import opened FatTypes
  import opened BlockDevice

  /** What the disk has and is to keep: whole sectors, and links of the FAT. */
  datatype Promise = Promise(secs: map<nat, Sector>, links: map<nat, nat>)

  class Fatfs {
    const geo: Geometry
    const disk: Disk
    const win: array<byte>
    var winsect: dword      // sector in win, ERR32 when win holds nothing reliable
    var wflag: bool         // win is dirty
    var fsiFlag: nat        // b7: FSInfo disabled, b0: FSInfo dirty
    var lastClst: dword
    var freeClst: dword
    var id: nat             // mount ID

    /** The logical volume: what every sector holds once pending writes are counted in. */
    ghost var vol: seq<Sector>

    /** The FAT as numbers, see FatEntries.Decodes. */
    ghost var fat: seq<nat>

    /** Kept by everything that does not say otherwise, also if it fails. */
    ghost var promise: Promise

    /** The free count in the FSInfo sector, for a volume that uses it. */
    ghost var fsiCount: dword
    ghost const fsiUsed: bool

    /** The free count was exact or unknown when the volume was mounted; FSInfo may have told a wrong one. */
    ghost const exact: bool

    /** The FAT copies were equal when the volume was mounted. */
    ghost const mirrored: bool

    /** Sectors of the disk. */
    ghost const size: nat

    /** A freshly mounted volume: nothing pending, the logical volume is the disk. */
    constructor (disk: Disk, geo: Geometry, id: nat, fsiFlag: nat, lastClst: dword, freeClst: dword, win: array<byte>,
                 winsect: dword, ghost exact: bool)
      requires ValidGeometry(geo, |disk.img|) && win.Length == 512
      requires winsect != ERR32 ==> winsect < geo.fatbase && winsect < |disk.img| && win[..] == disk.img[winsect]
      requires fsiFlag == 0 ==>
        geo.fsType == FAT32 && geo.volbase + 1 < |disk.img| &&
        FsInfoCounts(disk.img[geo.volbase + 1]).0 == freeClst
      ensures this.disk == disk && this.geo == geo && this.id == id && this.win == win && this.winsect == winsect
      ensures this.fsiFlag == fsiFlag && this.lastClst == lastClst && this.freeClst == freeClst
      ensures Coherent() && !wflag && vol == disk.img && (fsiUsed <==> fsiFlag == 0) && fsiCount == freeClst
      ensures this.exact == exact && promise == Promise(map[], map[])
    {
      this.disk, this.geo, this.id := disk, geo, id;
      this.fsiFlag, this.lastClst, this.freeClst := fsiFlag, lastClst, freeClst;
      this.win, this.winsect, wflag := win, winsect, false;
      vol, promise := disk.img, Promise(map[], map[]);
      fsiCount, fsiUsed, this.exact, size := freeClst, fsiFlag == 0, exact, |disk.img|;
      mirrored := geo.nFats == 2 ==> forall s: nat | InFat(geo, s) :: disk.img[s + geo.fsize] == disk.img[s];
    }

    /** vol is the disk overlaid by the window. */
    ghost predicate Coherent()
      reads `winsect, `wflag, `vol, `promise, `fsiCount, win, disk
    {
      && win.Length == 512 && |vol| == |disk.img| == size
      && ValidGeometry(geo, |vol|)
      && (winsect != ERR32 ==> winsect < |vol| && !InMirror(geo, winsect))
      && (winsect != ERR32 && !IsFsInfo(geo, winsect) ==> win[..] == vol[winsect])
      && (wflag ==> winsect != ERR32 && !IsFsInfo(geo, winsect))
      && (forall s | 0 <= s < |vol| && !Shadow(geo, s) && !(wflag && s == winsect) :: vol[s] == disk.img[s])
      && (disk.reliable && mirrored ==> Copies(geo, disk.img, if wflag then winsect else ERR32))
      && (fsiUsed ==> geo.fsType == FAT32 && (disk.reliable ==> SaysFree(geo, disk.img, fsiCount)))
      && Keeps(geo, vol, promise.secs, if wflag then winsect else ERR32)
    }
  }

  /** The promised sectors are as they were, outside the FAT and not those the window has changed. */
  ghost predicate Keeps(g: Geometry, vol: seq<Sector>, secs: map<nat, Sector>, dirty: nat) {
    forall s | s in secs :: s < |vol| && vol[s] == secs[s] && s != dirty && !InFat(g, s) && !Shadow(g, s)
  }

  /** Each sector of a later disk is as it was or as it is in the volume; the FAT copies apart. */
  ghost predicate Caught(g: Geometry, img: seq<Sector>, img': seq<Sector>, vol: seq<Sector>) {
    |img| == |img'| == |vol| && forall s | 0 <= s < |vol| && !InMirror(g, s) :: img'[s] == img[s] || img'[s] == vol[s]
  }

  /** With nothing pending the promised sectors are on the disk. */
  lemma PromisedSector(fs: Fatfs, s: nat)
    requires fs.Coherent() && s in fs.promise.secs
    ensures s < |fs.disk.img| && fs.disk.img[s] == fs.promise.secs[s]
  {
  }

  /** The FSInfo sector has this free count. */
  predicate SaysFree(g: Geometry, img: seq<Sector>, n: dword) {
    g.volbase + 1 < |img| && FsInfoCounts(img[g.volbase + 1]).0 == n
  }

  /** Every FAT sector but skip is the same in both copies. */
  ghost predicate Copies(g: Geometry, img: seq<Sector>, skip: nat) {
    g.nFats == 2 ==>
      forall s: nat | InFat(g, s) && s != skip && s + g.fsize < |img| :: img[s + g.fsize] == img[s]
  }

  /** A sector outside the FATs written. */
  lemma CopiesElsewhere(g: Geometry, img: seq<Sector>, img': seq<Sector>, w: nat, skip: nat)
    requires Copies(g, img, w) && |img'| == |img| && !InFat(g, w) && !InMirror(g, w)
    requires forall s | 0 <= s < |img| && s != w :: img'[s] == img[s]
    ensures Copies(g, img', skip)
  {
  }

  /** A FAT sector written to both copies. */
  lemma CopiesMirrored(g: Geometry, img: seq<Sector>, img': seq<Sector>, w: nat, skip: nat)
    requires Copies(g, img, w) && |img'| == |img| && InFat(g, w)
    requires forall s | 0 <= s < |img| && s != w && s != w + g.fsize :: img'[s] == img[s]
    requires g.nFats == 2 && w + g.fsize < |img| ==> img'[w + g.fsize] == img'[w]
    ensures Copies(g, img', skip)
  {
  }

  /** Repeats the clean FAT window to the other copies; failures are ignored. */
  method WriteMirrors(fs: Fatfs)
    requires fs.win.Length == 512 && |fs.vol| == |fs.disk.img| && ValidGeometry(fs.geo, |fs.vol|)
    requires InFat(fs.geo, fs.winsect) && fs.win[..] == fs.disk.img[fs.winsect]
    modifies fs.disk`img
    ensures |fs.disk.img| == |fs.vol|
    ensures forall s | 0 <= s < |fs.vol| && s != fs.winsect + fs.geo.fsize :: fs.disk.img[s] == old(fs.disk.img[s])
    ensures fs.geo.nFats == 1 ==> fs.disk.img == old(fs.disk.img)
    ensures fs.geo.nFats == 2 && fs.disk.reliable ==> fs.disk.img[fs.winsect + fs.geo.fsize] == fs.win[..]
  {
    var nf, wsect := fs.geo.nFats, fs.winsect as nat;
    while nf >= 2
      invariant nf <= fs.geo.nFats && (nf < 2 <= fs.geo.nFats ==> wsect == fs.winsect + fs.geo.fsize)
      invariant nf == 2 ==> wsect == fs.winsect
      invariant |fs.disk.img| == |fs.vol|
      invariant forall s | 0 <= s < |fs.vol| && s != fs.winsect + fs.geo.fsize :: fs.disk.img[s] == old(fs.disk.img[s])
      invariant 1 <= nf && (nf == fs.geo.nFats ==> fs.disk.img == old(fs.disk.img))
      invariant nf == 1 && fs.geo.nFats == 2 && fs.disk.reliable ==>
        fs.disk.img[fs.winsect + fs.geo.fsize] == fs.win[..]
    {
      wsect := wsect + fs.geo.fsize;
      var ignored := fs.disk.WriteSector(fs.win[..], wsect);
      nf := nf - 1;
    }
  }

  /** The parts of a valid geometry that the window relies on. */
  lemma Areas(g: Geometry, disk: nat)
    requires ValidGeometry(g, disk)
    ensures g.nFats == 1 || g.nFats == 2
    ensures g.volbase < g.fatbase && (g.fsType == FAT32 ==> g.volbase + 1 < g.fatbase)
    ensures g.fatbase + g.fsize + (if g.nFats == 2 then g.fsize else 0) <= g.database <= disk < 0x1_0000_0000
  {
  }

  lemma MirrorIsShadow(g: Geometry, s: nat)
    ensures g.nFats == 2 && InFat(g, s) ==> Shadow(g, s + g.fsize)
    ensures Shadow(g, s) ==> InMirror(g, s) || IsFsInfo(g, s)
    ensures IsFsInfo(g, s) <==> g.fsType == FAT32 && s == g.volbase + 1
  {
  }

  /** Writes a dirty window back, mirroring FAT sectors to the other copies. */
  method SyncWindow(fs: Fatfs) returns (res: FResult)
    requires fs.Coherent()
    modifies fs`wflag, fs.disk`img
    ensures fs.Coherent()
    ensures res == OK || (res == DiskErr && fs.wflag == old(fs.wflag))
    ensures res == OK || !old(fs.wflag) ==> !fs.wflag
    ensures !old(fs.wflag) ==> fs.disk.img == old(fs.disk.img)
    ensures fs.disk.atomic ==> Caught(fs.geo, old(fs.disk.img), fs.disk.img, fs.vol)
    ensures fs.disk.reliable ==> res == OK
  {
    res := OK;
    if fs.wflag { res := WriteBack(fs); }
  }

  lemma StillSays(g: Geometry, img: seq<Sector>, img': seq<Sector>)
    requires |img'| == |img| && (g.fsType == FAT32 && g.volbase + 1 < |img| ==>
      img'[g.volbase + 1] == img[g.volbase + 1])
    ensures g.fsType == FAT32 ==> forall n :: SaysFree(g, img, n) ==> SaysFree(g, img', n)
  {
  }

  /** The disk after the window, and for a FAT sector its copy, was written over img. */
  lemma CleanAgain(fs: Fatfs, img: seq<Sector>)
    requires fs.win.Length == 512 && |fs.vol| == |img| == |fs.disk.img| == fs.size
    requires ValidGeometry(fs.geo, |fs.vol|) && !fs.wflag
    requires fs.winsect != ERR32 && fs.winsect < |fs.vol| && !Shadow(fs.geo, fs.winsect)
    requires fs.win[..] == fs.vol[fs.winsect] == fs.disk.img[fs.winsect]
    requires forall s | 0 <= s < |img| && !Shadow(fs.geo, s) && s != fs.winsect :: fs.vol[s] == img[s]
    requires forall s | 0 <= s < |img| && s != fs.winsect && !CopyOf(fs.geo, fs.winsect, s) :: fs.disk.img[s] == img[s]
    requires fs.disk.reliable && fs.mirrored ==> Copies(fs.geo, img, fs.winsect)
    requires fs.disk.reliable && fs.geo.nFats == 2 && InFat(fs.geo, fs.winsect) ==>
      fs.winsect + fs.geo.fsize < |img| && fs.disk.img[fs.winsect + fs.geo.fsize] == fs.win[..]
    requires fs.fsiUsed ==> fs.geo.fsType == FAT32 && (fs.disk.reliable ==> SaysFree(fs.geo, img, fs.fsiCount))
    requires Keeps(fs.geo, fs.vol, fs.promise.secs, fs.winsect)
    ensures fs.Coherent()
  {
    hide ValidGeometry, Copies, SaysFree;
    Areas(fs.geo, |fs.vol|);
    MirrorIsShadow(fs.geo, fs.winsect);
    StillSays(fs.geo, img, fs.disk.img);
    if fs.disk.reliable && fs.mirrored {
      if InFat(fs.geo, fs.winsect) {
        CopiesMirrored(fs.geo, img, fs.disk.img, fs.winsect, ERR32);
      } else {
        CopiesElsewhere(fs.geo, img, fs.disk.img, fs.winsect, ERR32);
      }
    }
  }

  /** Sector s holds the second copy of FAT sector w. */
  predicate CopyOf(g: Geometry, w: nat, s: nat) { g.nFats == 2 && InFat(g, w) && s == w + g.fsize }

  /** disk_write of the window and, in the FAT, of its copy. */
  method WriteWindow(fs: Fatfs) returns (ok: bool)
    requires fs.win.Length == 512 && |fs.vol| == |fs.disk.img| && ValidGeometry(fs.geo, |fs.vol|)
    requires fs.winsect < |fs.vol| && fs.win[..] == fs.vol[fs.winsect] && fs.wflag
    modifies fs`wflag, fs.disk`img
    ensures |fs.disk.img| == |fs.vol| && ok == !fs.wflag && (fs.disk.reliable ==> ok)
    ensures forall s | 0 <= s < |fs.vol| && s != fs.winsect && !(ok && CopyOf(fs.geo, fs.winsect, s)) ::
      fs.disk.img[s] == old(fs.disk.img)[s]
    ensures ok ==> fs.disk.img[fs.winsect] == fs.vol[fs.winsect]
    ensures fs.disk.atomic ==>
      fs.disk.img[fs.winsect] == old(fs.disk.img)[fs.winsect] || fs.disk.img[fs.winsect] == fs.vol[fs.winsect]
    ensures ok && fs.disk.reliable && fs.geo.nFats == 2 && InFat(fs.geo, fs.winsect) ==>
      fs.winsect + fs.geo.fsize < |fs.vol| && fs.disk.img[fs.winsect + fs.geo.fsize] == fs.win[..]
  {
    hide ValidGeometry;
    Areas(fs.geo, |fs.vol|);
    var wsect := fs.winsect;
    ok := fs.disk.WriteSector(fs.win[..], wsect);
    if !ok { return; }
    fs.wflag := false;
    if Sub32(wsect, fs.geo.fatbase) < fs.geo.fsize {
      assert InFat(fs.geo, wsect);
      WriteMirrors(fs);
    }
  }

  /** One sector written, and perhaps its copy. */
  lemma CaughtOne(g: Geometry, img: seq<Sector>, img': seq<Sector>, vol: seq<Sector>, w: nat)
    requires |img| == |img'| == |vol| && w < |vol| && (img'[w] == img[w] || img'[w] == vol[w])
    requires forall s | 0 <= s < |vol| && s != w && !CopyOf(g, w, s) :: img'[s] == img[s]
    ensures Caught(g, img, img', vol)
  {
  }

  method WriteBack(fs: Fatfs) returns (res: FResult)
    requires fs.Coherent() && fs.wflag
    modifies fs`wflag, fs.disk`img
    ensures fs.Coherent() && (res == OK <==> !fs.wflag)
    ensures res == OK || (res == DiskErr && !fs.disk.reliable)
    ensures fs.disk.atomic ==> Caught(fs.geo, old(fs.disk.img), fs.disk.img, fs.vol)
  {
    hide ValidGeometry, Shadow, IsFsInfo, Copies, SaysFree, Keeps, Caught, CopyOf;
    Areas(fs.geo, |fs.vol|);
    MirrorIsShadow(fs.geo, fs.winsect);
    ghost var img := fs.disk.img;
    var ok := WriteWindow(fs);
    if fs.disk.atomic { CaughtOne(fs.geo, img, fs.disk.img, fs.vol, fs.winsect); }
    if ok {
      CleanAgain(fs, img);
      res := OK;
    } else {
      StillSays(fs.geo, img, fs.disk.img);
      res := DiskErr;
    }
  }

  /** Makes sector appear in the window. */
  method MoveWindow(fs: Fatfs, sector: nat) returns (res: FResult)
    requires fs.Coherent()
    requires sector < |fs.disk.img| && !InMirror(fs.geo, sector)
    modifies fs`winsect, fs`wflag, fs.win, fs.disk`img
    ensures fs.Coherent()
    ensures res == OK || res == DiskErr
    ensures res == OK ==> fs.winsect == sector && (!IsFsInfo(fs.geo, sector) ==> fs.win[..] == fs.vol[sector])
    ensures res == OK && sector == old(fs.winsect) ==> fs.wflag == old(fs.wflag)
    ensures (res == OK && sector != old(fs.winsect)) || !old(fs.wflag) ==> !fs.wflag
    ensures !old(fs.wflag) ==> fs.disk.img == old(fs.disk.img)
    ensures fs.winsect == sector || fs.winsect == old(fs.winsect) || fs.winsect == ERR32
    ensures fs.disk.atomic ==> Caught(fs.geo, old(fs.disk.img), fs.disk.img, fs.vol)
    ensures fs.disk.reliable ==> res == OK
  {
    res := OK;
    if sector != fs.winsect {
      res := SyncWindow(fs);
      if res == OK {
        var ok := fs.disk.ReadSector(fs.win, sector);
        if !ok {
          fs.winsect := ERR32;
          res := DiskErr;
        } else {
          fs.winsect := sector;
        }
      }
    }
  }

  /** Stores bytes through a pointer into the window and marks it dirty. */
  method PokeWindow(fs: Fatfs, pos: nat, data: seq<byte>)
    requires fs.Coherent() && pos + |data| <= 512
    requires fs.winsect != ERR32 && !IsFsInfo(fs.geo, fs.winsect) && fs.winsect !in fs.promise.secs
    modifies fs`wflag, fs`vol, fs.win
    ensures fs.Coherent() && fs.wflag
    ensures fs.vol == old(fs.vol)[fs.winsect := Overwrite(old(fs.win[..]), pos, data)]
    ensures fs.win[..] == Overwrite(old(fs.win[..]), pos, data)
  {
    ghost var was := fs.win[..];
    forall i | 0 <= i < |data| { fs.win[pos + i] := data[i]; }
    assert fs.win[..] == Overwrite(was, pos, data);
    fs.wflag := true;
    fs.vol := fs.vol[fs.winsect := fs.win[..]];
  }
}
