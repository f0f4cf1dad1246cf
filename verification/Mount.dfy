/** check_fs and find_volume: finding a FAT volume on a disk and attaching to it. */
module Mount {
  import opened FatTypes
  import opened BlockDevice
  import opened Window
  import opened FatEntries
  import opened FatAccess
  import opened ChainTheory
  import opened BootSector

  /** Loads a sector into the invalidated window and classifies it. */
  method CheckFs(disk: Disk, win: array<byte>, sect: dword) returns (fmt: Found)
    requires win.Length == 512
    modifies win
    ensures fmt != ReadError ==> sect < |disk.img| && win[..] == disk.img[sect] && fmt == BootKind(disk.img[sect])
    ensures disk.reliable && sect < |disk.img| ==> fmt != ReadError
  {
    var ok := disk.ReadSector(win, sect);
    if !ok { return ReadError; }
    fmt := BootKind(win[..]);
  }

  /** A sector the search may look at: sector 0 or the start of a partition. */
  predicate BootCandidate(img: seq<Sector>, b: nat) {
    && b < |img|
    && (b == 0 || (BootKind(img[0]) == NotFat && exists i | 0 <= i < 4 :: PartitionStart(img[0], i) == b))
  }

  predicate HasVolume(img: seq<Sector>, b: nat) {
    b < |img| && BootKind(img[b]) == FatVbr
  }

  /** What checking partition i would find if no read failed. */
  predicate PartitionHas(img: seq<Sector>, i: nat)
    requires |img| > 0 && i < 4
  {
    PartitionStart(img[0], i) != 0 && HasVolume(img, PartitionStart(img[0], i))
  }

  /** The volume that a search without read errors ends at: sector 0, or the first partition with a FAT boot sector. */
  function VolumeAt(img: seq<Sector>): (r: Option<nat>) {
    if img == [] then None
    else if HasVolume(img, 0) then Some(0)
    else if BootKind(img[0]) != NotFat then None
    else FirstPartition(img, 0)
  }

  function FirstPartition(img: seq<Sector>, i: nat): (r: Option<nat>)
    requires img != [] && i <= 4
    decreases 4 - i
  {
    if i == 4 then None
    else if PartitionHas(img, i) then Some(PartitionStart(img[0], i) as nat)
    else FirstPartition(img, i + 1)
  }

  /** The last thing a search without read errors looks at lies beyond the end of the disk. */
  predicate EndsBeyond(img: seq<Sector>) {
    img == [] || (VolumeAt(img).None? && BootKind(img[0]) == NotFat && PartitionStart(img[0], 3) >= |img|)
  }

  /** What a mount of a working disk comes to. */
  function MountOutcome(img: seq<Sector>): FResult {
    if EndsBeyond(img) then DiskErr
    else match VolumeAt(img)
      case None => NoFilesystem
      case Some(v) => if v < |img| && v < 0x1_0000_0000 && ParseBpb(img[v], v).Some? then OK else NoFilesystem
  }

  /** The outcome that the partition loop stops with: it goes on after anything but a FAT boot sector. */
  function Settled(kinds: seq<Found>): Found
    requires kinds != []
  {
    if kinds[0] == FatVbr || |kinds| == 1 then kinds[0] else Settled(kinds[1..])
  }

  lemma {:induction false} SettledMore(kinds: seq<Found>, k: Found)
    requires kinds != [] && FatVbr !in kinds
    ensures Settled(kinds + [k]) == k
    ensures kinds[|kinds| - 1] == Settled(kinds)
  {
    if |kinds| > 1 {
      assert (kinds + [k])[1..] == kinds[1..] + [k];
      SettledMore(kinds[1..], k);
    } else {
      assert (kinds + [k])[1..] == [k];
    }
  }

  /** What a check of partition i came to: NoSignature if it is not in use, otherwise a read error or the kind of its
      first sector. */
  predicate Checked(img: seq<Sector>, i: nat, k: Found)
    requires img != [] && i < 4
  {
    var b := PartitionStart(img[0], i);
    if b == 0 then k == NoSignature else k == ReadError || (b < |img| && k == BootKind(img[b]))
  }

  /** The outcomes the search can go through: that of sector 0, or those of the partitions up to the first FAT boot
      sector read. */
  ghost predicate Outcomes(img: seq<Sector>, kinds: seq<Found>) {
    || kinds == [ReadError]
    || (img != [] && BootKind(img[0]) != NotFat && kinds == [BootKind(img[0])])
    || (img != [] && BootKind(img[0]) == NotFat && Partitions(img, kinds))
  }

  ghost predicate Partitions(img: seq<Sector>, kinds: seq<Found>)
    requires img != []
  {
    && 1 <= |kinds| <= 4 && (forall i | 0 <= i < |kinds| :: Checked(img, i, kinds[i]))
    && (forall i | 0 <= i < |kinds| - 1 :: kinds[i] != FatVbr) && (|kinds| == 4 || kinds[|kinds| - 1] == FatVbr)
  }

  /**
    The search of find_volume. Without read errors it finds VolumeAt; with read errors it may still
    settle on a later partition, or report NoSignature for a disk that has a volume.
  */
  method Locate(disk: Disk, win: array<byte>) returns (fmt: Found, bsect: dword, ghost kinds: seq<Found>)
    requires win.Length == 512
    modifies win
    ensures kinds != [] && fmt == Settled(kinds) && Outcomes(disk.img, kinds)
    ensures fmt == FatVbr ==> BootCandidate(disk.img, bsect) && HasVolume(disk.img, bsect) && win[..] == disk.img[bsect]
    ensures disk.reliable && disk.img != [] ==> (fmt == FatVbr <==> VolumeAt(disk.img).Some?)
    ensures disk.reliable && fmt == FatVbr ==> VolumeAt(disk.img) == Some(bsect as nat)
    ensures disk.reliable ==> (fmt == ReadError <==> EndsBeyond(disk.img))
  {
    hide PartitionStart, BootKind;
    bsect := 0;
    fmt := CheckFs(disk, win, 0);
    kinds := [fmt];
    if fmt != NotFat { return; }
    var img0: Sector := win[..];
    var i := 0;
    kinds := [];
    while true
      invariant 0 <= i < 4 && disk.img != [] && img0 == disk.img[0] && BootKind(disk.img[0]) == NotFat
      invariant |kinds| == i && FatVbr !in kinds && forall j | 0 <= j < i :: Checked(disk.img, j, kinds[j])
      invariant disk.reliable ==> FirstPartition(disk.img, 0) == FirstPartition(disk.img, i)
      invariant i == 0 || kinds[i - 1] == fmt
      decreases 4 - i
    {
      bsect := PartitionStart(img0, i);
      fmt := NoSignature;
      if bsect != 0 { fmt := CheckFs(disk, win, bsect); }
      if kinds != [] { SettledMore(kinds, fmt); }
      kinds := kinds + [fmt];
      if fmt == FatVbr { return; }
      i := i + 1;
      if i == 4 { return; }
    }
  }

  /** The loop ends with a volume exactly if one check found one, and otherwise with the last outcome. */
  lemma {:induction false} SettledIs(kinds: seq<Found>)
    requires kinds != []
    ensures Settled(kinds) == FatVbr <==> FatVbr in kinds
    ensures FatVbr !in kinds ==> Settled(kinds) == kinds[|kinds| - 1]
  {
    if kinds[0] != FatVbr && |kinds| > 1 { SettledIs(kinds[1..]); }
  }

  /** The search ended without a FAT boot sector and without a read error to report. */
  predicate Empty(kinds: seq<Found>)
    requires kinds != []
  {
    Settled(kinds) != FatVbr && Settled(kinds) != ReadError
  }

  /**
    When a disk that has a volume is taken for an empty one: exactly if sector 0 was read as a
    partition table, the checks of all FAT partitions failed to read, and the last of the four checks
    did not. The read errors are forgotten.
  */
  lemma ReadErrorForgotten(img: seq<Sector>, kinds: seq<Found>)
    requires img != [] && VolumeAt(img).Some? && Outcomes(img, kinds) && kinds != []
    ensures Empty(kinds) <==>
      |kinds| == 4 && kinds[3] != ReadError && forall i | 0 <= i < 4 :: PartitionHas(img, i) ==> kinds[i] == ReadError
  {
    hide PartitionStart, BootKind, FirstPartition;
    SettledIs(kinds);
    if kinds == [ReadError] || BootKind(img[0]) != NotFat {
    } else {
      forall i | 0 <= i < |kinds| && PartitionHas(img, i) ensures kinds[i] == ReadError || kinds[i] == FatVbr {
        assert Checked(img, i, kinds[i]);
      }
      forall i | 0 <= i < |kinds| && kinds[i] == FatVbr ensures PartitionHas(img, i) {
        assert Checked(img, i, kinds[i]);
      }
    }
  }

  /** In particular on a disk with one partition, the first: one failing read of its boot sector does it. */
  lemma OnlyPartition(img: seq<Sector>, kinds: seq<Found>)
    requires img != [] && BootKind(img[0]) == NotFat && PartitionHas(img, 0) && Outcomes(img, kinds) && kinds != []
    requires PartitionStart(img[0], 1) == PartitionStart(img[0], 2) == PartitionStart(img[0], 3) == 0
    ensures Empty(kinds) <==> kinds == [ReadError, NoSignature, NoSignature, NoSignature]
    ensures Outcomes(img, [ReadError, NoSignature, NoSignature, NoSignature])
  {
    hide PartitionStart, BootKind;
    ReadErrorForgotten(img, kinds);
    if |kinds| == 4 {
      assert Checked(img, 0, kinds[0]) && Checked(img, 1, kinds[1]) && Checked(img, 2, kinds[2]) &&
        Checked(img, 3, kinds[3]);
    }
  }

  /** Reads FSInfo of a FAT32 volume that says it has one; the window then shows that sector. */
  method LoadFsInfo(disk: Disk, win: array<byte>, geo: Geometry)
    returns (flag: nat, free: dword, last: dword, winsect: dword)
    requires win.Length == 512 && ValidGeometry(geo, |disk.img|) && geo.volbase < |disk.img|
    requires win[..] == disk.img[geo.volbase]
    modifies win
    ensures winsect != ERR32 ==> winsect < geo.fatbase && winsect < |disk.img| && win[..] == disk.img[winsect]
    ensures geo.fsType != FAT32 || LdWord(disk.img[geo.volbase], 48) != 1 ==>
      flag == 0x80 && free == last == ERR32 && winsect == geo.volbase
    ensures geo.fsType == FAT32 && LdWord(disk.img[geo.volbase], 48) == 1 && disk.reliable ==>
      flag == 0 && winsect == geo.volbase + 1 < |disk.img| && (free, last) == FsInfoCounts(disk.img[winsect])
    ensures flag == 0x80 ==> free == last == ERR32
    ensures flag != 0x80 ==> flag == 0 && geo.fsType == FAT32 && geo.volbase + 1 < |disk.img|
    ensures flag == 0 ==> (free, last) == FsInfoCounts(disk.img[geo.volbase + 1])
  {
    hide FatBytes, Times;
    flag, free, last, winsect := 0x80, ERR32, ERR32, geo.volbase;
    if geo.fsType == FAT32 && LdWord(win[..], 48) == 1 {
      var ok := disk.ReadSector(win, geo.volbase + 1);
      winsect := ERR32;
      if ok {
        winsect, flag := geo.volbase + 1, 0;
        free, last := FsInfoCounts(win[..]).0, FsInfoCounts(win[..]).1;
      }
    }
  }

  /** Every boot sector the search may choose is one the BPB analysis can be trusted with. */
  ghost predicate Trusted(img: seq<Sector>) {
    |img| < 0x1_0000_0000
    && forall b: nat | BootCandidate(img, b) && HasVolume(img, b) :: ParseBpb(img[b], b).Some? ==>
      BpbInRange(img[b], b, |img|)
  }

  /** fs is attached to the volume whose boot sector is b, with nothing pending. */
  ghost predicate Attached(fs: Fatfs, b: nat)
    reads fs`winsect, fs`wflag, fs`vol, fs`fat, fs`lastClst, fs`freeClst, fs`promise, fs`fsiCount, fs`fsiFlag, fs.win,
      fs.disk
  {
    && Valid(fs) && !fs.wflag && fs.vol == fs.disk.img && fs.promise == NoPromise() && b < |fs.vol| && b < 0x1_0000_0000
    && ParseBpb(fs.vol[b], b) == Some(fs.geo) && fs.fat == FatOf(fs.geo, fs.vol)
    && (fs.geo.fsType != FAT32 || LdWord(fs.vol[b], 48) != 1 ==>
      fs.fsiFlag == 0x80 && fs.freeClst == fs.lastClst == ERR32)
    && (fs.disk.reliable && fs.geo.fsType == FAT32 && LdWord(fs.vol[b], 48) == 1 ==>
          fs.fsiUsed && b + 1 < |fs.vol| && (fs.freeClst, fs.lastClst) == FsInfoCounts(fs.vol[b + 1]))
    && (fs.fsiUsed ==> fs.fsiFlag == 0 && fs.fsiCount == fs.freeClst)
    && (fs.exact <==> (fs.freeClst <= fs.geo.nFatent - 2 ==> fs.freeClst == CountFree(fs.fat)))
  }

  lemma AttachedParts(fs: Fatfs, b: nat)
    requires Attached(fs, b)
    ensures Valid(fs) && !fs.wflag && fs.vol == fs.disk.img && fs.promise == NoPromise()
  {
  }

  /** Without a volume there is no boot sector to be trusted. */
  lemma {:induction false} NothingAfter(img: seq<Sector>, i: nat, j: nat)
    requires img != [] && i <= j < 4 && FirstPartition(img, i).None?
    ensures !PartitionHas(img, j)
    decreases j - i
  {
    if i < j { NothingAfter(img, i + 1, j); }
  }

  lemma NothingTrusted(img: seq<Sector>)
    requires img != [] && VolumeAt(img).None? && |img| < 0x1_0000_0000
    ensures Trusted(img)
  {
    hide PartitionStart, BootKind, BpbInRange, ParseBpb, FirstPartition;
    forall b: nat | BootCandidate(img, b) ensures !HasVolume(img, b) {
      if b != 0 {
        var i :| 0 <= i < 4 && PartitionStart(img[0], i) == b;
        NothingAfter(img, 0, i);
      }
    }
  }

  lemma SettledIn(kinds: seq<Found>)
    requires kinds != []
    ensures Settled(kinds) in kinds
  {
    if kinds[0] != FatVbr && |kinds| > 1 { SettledIn(kinds[1..]); }
  }

  lemma BeginsInside(img: seq<Sector>, b: nat)
    requires HasVolume(img, b)
    ensures b < |img|
  {
  }

  /** The mounting part of find_volume. */
  method FindVolume(disk: Disk, id: nat) returns (res: FResult, fs: Fatfs?, ghost b: nat, ghost kinds: seq<Found>)
    requires Trusted(disk.img)
    ensures res == OK || res == NotReady || res == DiskErr || res == NoFilesystem
    ensures res == OK <==> fs != null
    ensures fs != null ==> fresh(fs) && fresh(fs.win) && fs.disk == disk && fs.id == id
    ensures fs != null ==> BootCandidate(disk.img, b) && HasVolume(disk.img, b) && Attached(fs, b)
    ensures disk.reliable ==> res == MountOutcome(disk.img) && (res == OK ==> VolumeAt(disk.img) == Some(b))
    ensures res == NotReady <==> kinds == []
    ensures kinds != [] ==> Outcomes(disk.img, kinds) && (res == DiskErr <==> Settled(kinds) == ReadError)
    ensures kinds != [] && Empty(kinds) ==> res == NoFilesystem
    ensures res == NoFilesystem && !Empty(kinds) ==>
      b < |disk.img| && b < 0x1_0000_0000 && ParseBpb(disk.img[b], b).None?
  {
    hide ValidGeometry, ParseBpb, Trusted, Attached, VolumeAt, BootCandidate, HasVolume, Settled, Outcomes,
      EndsBeyond;
    fs, b, kinds := null, 0, [];
    var ok := disk.Ready();
    if !ok { return NotReady, null, 0, []; }
    var win := new byte[512](_ => 0);
    var fmt, bsect;
    fmt, bsect, kinds := Locate(disk, win);
    SettledIn(kinds);
    if fmt == ReadError { return DiskErr, null, 0, kinds; }
    if fmt != FatVbr { return NoFilesystem, null, 0, kinds; }
    b := bsect;
    var parsed := ParseBpb(win[..], bsect);
    if parsed.None? {
      BeginsInside(disk.img, b);
      return NoFilesystem, null, b, kinds;
    }
    TrustedAt(disk.img, b);
    fs := Attach(disk, id, parsed.value, win, b);
    res := OK;
  }

  /** The end of find_volume: the file system object is filled in. */
  method Attach(disk: Disk, id: nat, geo: Geometry, win: array<byte>, ghost b: nat) returns (fs: Fatfs)
    requires ValidGeometry(geo, |disk.img|) && win.Length == 512 && b < |disk.img| && b < 0x1_0000_0000
    requires ParseBpb(disk.img[b], b) == Some(geo) && geo.volbase == b && win[..] == disk.img[b]
    modifies win
    ensures fresh(fs) && fs.disk == disk && fs.id == id && fs.win == win && Attached(fs, b)
  {
    hide ValidGeometry, ParseBpb, Entry, FsInfoCounts, LdWord, CountFree;
    var flag, free, last, winsect := LoadFsInfo(disk, win, geo);
    ghost var exact := free <= geo.nFatent - 2 ==> free == CountFree(FatOf(geo, disk.img));
    fs := new Fatfs(disk, geo, id, flag, last, free, win, winsect, exact);
    fs.fat := FatOf(fs.geo, fs.vol);
  }

  lemma TrustedAt(img: seq<Sector>, b: nat)
    requires Trusted(img) && BootCandidate(img, b) && HasVolume(img, b)
    ensures b < |img| < 0x1_0000_0000 && (ParseBpb(img[b], b).Some? ==> ValidGeometry(ParseBpb(img[b], b).value, |img|))
    ensures ParseBpb(img[b], b).Some? ==> ParseBpb(img[b], b).value.volbase == b
  {
    hide ValidGeometry, BpbInRange;
    if ParseBpb(img[b], b).Some? { ParsedValid(img[b], b, |img|); }
  }
}
