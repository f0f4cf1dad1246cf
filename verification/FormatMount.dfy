/** What f_mkfs formats, find_volume mounts: the same geometry, and an empty FAT. */
module FormatMount {
  import opened FatTypes
  import opened BlockDevice
  import opened Window
  import opened FatEntries
  import opened DirEntry
  import opened FatAccess
  import opened ChainTheory
  import opened Chains
  import opened VolumePlan
  import opened BootSector
  import opened Mount
  import opened Format
  import opened FreeCount

  /** The search ends at the formatted volume and the analysis recovers what was planned. */
  lemma BootableMounts(img: seq<Sector>, p: Plan, bVol: nat)
    requires Bootable(img, p, bVol)
    ensures forall b: nat | BootCandidate(img, b) && HasVolume(img, b) :: b == bVol
    ensures bVol < |img| && VolumeAt(img) == Some(bVol) && ParseBpb(img[bVol], bVol) == Some(PlanGeometry(p, bVol))
    ensures Trusted(img) && ValidGeometry(PlanGeometry(p, bVol), |img|)
  {
    hide Sensible, Filled, ParseBpb, BpbInRange, ValidGeometry, LdWord, LdDword, PartitionStart, FirstFatSector;
    VbrParses(img[bVol], p, |img| - bVol, bVol);
    ParsedValid(img[bVol], bVol, |img|);
    forall b: nat | BootCandidate(img, b) && HasVolume(img, b) ensures b == bVol {
      if bVol != 0 { OnePartition(img, bVol, b); }
    }
  }

  lemma OnePartition(img: seq<Sector>, bVol: nat, b: nat)
    requires bVol < |img| && IsMbr(img[0], bVol, |img| - bVol) && BootCandidate(img, b) && HasVolume(img, b)
    ensures b == bVol
  {
    hide PartitionStart, BootKind;
    if b != 0 {
      var i :| 0 <= i < 4 && PartitionStart(img[0], i) == b;
      assert i == 0 || i == 1 || i == 2 || i == 3;
    }
  }

  /** So it does right after formatting. */
  lemma FormattedMounts(img: seq<Sector>, p: Plan, bVol: nat)
    requires Formatted(img, p, bVol)
    ensures forall b: nat | BootCandidate(img, b) && HasVolume(img, b) :: b == bVol
    ensures bVol < |img| && VolumeAt(img) == Some(bVol) && ParseBpb(img[bVol], bVol) == Some(PlanGeometry(p, bVol))
    ensures Trusted(img) && ValidGeometry(PlanGeometry(p, bVol), |img|)
  {
    hide Bootable, VolumeAt, ParseBpb, Trusted, ValidGeometry, Filled, FirstFatSector;
    BootableMounts(img, p, bVol);
  }

  /** A formatted disk whose one partition cannot be read is taken for an empty one, and would be formatted again. */
  lemma FormattedForgotten(img: seq<Sector>, p: Plan, bVol: nat)
    requires Bootable(img, p, bVol) && bVol != 0
    ensures var kinds := [ReadError, NoSignature, NoSignature, NoSignature]; Outcomes(img, kinds) && Empty(kinds)
  {
    hide Sensible, PartitionStart, BootKind, Settled;
    OnlyPartition(img, [ReadError, NoSignature, NoSignature, NoSignature]);
  }

  /** The FAT of an empty volume: on FAT32 the root directory has cluster 2. */
  function FreshFat(p: Plan): (fat: seq<nat>) {
    seq(p.nClst + 2, c => if p.fmt == FAT32 && c == 2 then 0x0FFF_FFFF else 0)
  }

  /** Bytes of the formatted FAT. */
  lemma FreshBytes(img: seq<Sector>, p: Plan, g: Geometry, k: nat)
    requires Filled(img, g.fatbase, p.szFat, FirstFatSector(p.fmt)) && k / 512 < p.szFat
    ensures g.fatbase + k / 512 < |img|
    ensures FatByte(g, img, k) == if k < 512 then FirstFatSector(p.fmt)[k] else 0
  {
    hide FirstFatSector;
  }

  lemma FirstBytes(t: FsType, k: nat)
    requires k < 512
    ensures t == FAT12 && k >= 3 ==> FirstFatSector(t)[k] == 0
    ensures t == FAT16 && k >= 4 ==> FirstFatSector(t)[k] == 0
    ensures t == FAT32 && 8 <= k ==> FirstFatSector(t)[k] == if k < 11 then 0xFF else if k == 11 then 0x0F else 0
  {
    assert StDword(0x0FFF_FFFF) == [0xFF, 0xFF, 0xFF, 0x0F];
    assert StDword(0xFF_FFF8) == [0xF8, 0xFF, 0xFF, 0];
  }

  lemma FreshEntry(img: seq<Sector>, p: Plan, bVol: nat, c: nat)
    requires Formatted(img, p, bVol) && 2 <= c < p.nClst + 2 && ValidGeometry(PlanGeometry(p, bVol), |img|)
    ensures Entry(PlanGeometry(p, bVol), img, c) == FreshFat(p)[c]
  {
    hide ValidGeometry, Sensible, IsVbr, IsMbr, FirstFatSector, FatByte, Filled;
    var g := PlanGeometry(p, bVol);
    EntryInside(g, |img|, c);
    var o := EntryOffset(g.fsType, c);
    var n := EntryWidth(g.fsType);
    forall k: nat | o <= k < o + n ensures k / 512 < p.szFat && FatByte(g, img, k) == FreshByte(p, c, k - o) {
      FreshBytes(img, p, g, k);
      if k < 512 { FirstBytes(p.fmt, k); }
    }
    assert FatByte(g, img, o) == FreshByte(p, c, 0) && FatByte(g, img, o + 1) == FreshByte(p, c, 1);
    if p.fmt == FAT32 {
      assert FatByte(g, img, o + 2) == FreshByte(p, c, 2) && FatByte(g, img, o + 3) == FreshByte(p, c, 3);
    }
  }

  /** Byte i of entry c. */
  function FreshByte(p: Plan, c: nat, i: nat): byte {
    if p.fmt == FAT32 && c == 2 then (if i == 3 then 0x0F else 0xFF) else 0
  }

  /** Every cluster is free, except the root directory's on FAT32. */
  lemma FormattedFat(img: seq<Sector>, p: Plan, bVol: nat)
    requires Formatted(img, p, bVol)
    ensures ValidGeometry(PlanGeometry(p, bVol), |img|) && FatOf(PlanGeometry(p, bVol), img) == FreshFat(p)
  {
    hide ValidGeometry, Formatted, Entry;
    FormattedMounts(img, p, bVol);
    var g := PlanGeometry(p, bVol);
    forall c: nat | 2 <= c < p.nClst + 2 ensures FatOf(g, img)[c] == FreshFat(p)[c] { FreshEntry(img, p, bVol, c); }
  }

  /** f_getfree counts a formatted volume right: the reserved entries are not zero. */
  lemma FreshSurplus(img: seq<Sector>, p: Plan, bVol: nat)
    requires Formatted(img, p, bVol)
    ensures ValidGeometry(PlanGeometry(p, bVol), |img|) && Surplus(PlanGeometry(p, bVol), img) == 0
  {
    hide ValidGeometry, Sensible, IsVbr, IsMbr, FirstFatSector, FatByte, Filled, Word, Dword;
    FormattedMounts(img, p, bVol);
    var g := PlanGeometry(p, bVol);
    if p.fmt != FAT12 {
      PlanAreas(p, |img| - bVol);
      SurplusZero(g, img);
      forall c: nat | c < 2 ensures !RawZero(g, img, c) {
        RawInside(g, |img|, c);
        var w := EntryWidth(p.fmt);
        forall k: nat | c * w <= k < c * w + w
          ensures k / 512 < p.szFat && FatByte(g, img, k) == if k == 0 then 0xF8 else 0xFF
        {
          FreshBytes(img, p, g, k);
          FirstReserved(p.fmt, k);
        }
        ReservedNonzero(FatByte(g, img, c * w));
      }
    }
  }

  lemma FirstReserved(t: FsType, k: nat)
    requires t != FAT12 && k < 2 * EntryWidth(t)
    ensures FirstFatSector(t)[k] == if k == 0 then 0xF8 else 0xFF
  {
    assert StDword(0xFFFF_FFF8) == [0xF8, 0xFF, 0xFF, 0xFF];
    assert StDword(0xFFFF_FFFF) == [0xFF, 0xFF, 0xFF, 0xFF];
  }

  lemma ReservedNonzero(b: byte)
    requires b == 0xF8 || b == 0xFF
    ensures Word(b, 0xFF) != 0 && Dword(b, 0xFF, 0xFF, 0xFF) % 0x1000_0000 != 0
  {
  }

  lemma {:induction false} FreshBelow(p: Plan, n: nat)
    requires n <= p.nClst + 2
    ensures FreeBelow(FreshFat(p), n) == if n <= 2 then 0 else n - 2 - if p.fmt == FAT32 then 1 else 0
  {
    if n > 2 { FreshBelow(p, n - 1); }
  }

  /** The chains of an empty volume. */
  function FreshChains(p: Plan): map<nat, seq<nat>> { if p.fmt == FAT32 then map[2 := [2]] else map[] }

  /** An empty volume is a proper set of chains, and the number of its free clusters is the one FSInfo is given. */
  lemma FreshLayout(img: seq<Sector>, p: Plan, bVol: nat)
    requires Formatted(img, p, bVol)
    ensures Layout(FreshFat(p), FreshChains(p)) && NoOnes(FreshFat(p))
    ensures CountFree(FreshFat(p)) == p.nClst - if p.fmt == FAT32 then 1 else 0
  {
    hide FatBytes, Div, IsVbr, IsMbr, Filled;
    FreshBelow(p, p.nClst + 2);
    var fat, m := FreshFat(p), FreshChains(p);
    if p.fmt == FAT32 {
      assert Linked(fat, [2]);
      forall c: nat | Cluster(fat, c) && fat[c] != 0 ensures exists h :: Owner(m, h, c) { assert Owner(m, 2, c); }
    }
  }

  /** What a mount of a freshly formatted disk has loaded. */
  lemma MountedFresh(fs: Fatfs, p: Plan, bVol: nat)
    requires fs.disk.reliable && Attached(fs, bVol) && Formatted(fs.vol, p, bVol)
    requires p.fmt == FAT32 && bVol + 1 < |fs.vol| ==> FreshFsInfo(fs.vol[bVol + 1], p)
    ensures fs.geo == PlanGeometry(p, bVol) && fs.fat == FreshFat(p) && Layout(fs.fat, FreshChains(p)) &&
      FreeCountOk(fs)
    ensures (p.fmt == FAT32 ==> fs.fsiUsed) && fs.exact
  {
    hide Formatted, Valid, Layout, FsInfoCounts, CountFree, Trusted, ValidGeometry, ParseBpb, VolumeAt, FatOf;
    FormattedMounts(fs.vol, p, bVol);
    FormattedFat(fs.vol, p, bVol);
    FreshLayout(fs.vol, p, bVol);
    SaysFsInfo(fs.vol, p, bVol);
  }

  lemma SaysFsInfo(img: seq<Sector>, p: Plan, bVol: nat)
    requires Formatted(img, p, bVol)
    ensures p.fmt == FAT32 ==> LdWord(img[bVol], 48) == 1
    ensures 0 < p.nClst <= MAX_FAT32
  {
  }

  /**
    f_mkfs followed by a mount: on a working disk the mount succeeds whenever f_mkfs did, for every
    option and allocation unit, with the planned geometry; every cluster is free but the FAT32 root
    directory, and the free-cluster count is exact or unknown.
  */
  method MakeAndMount(disk: Disk, opt: byte, au: dword, work: array<byte>, stamp: dword, id: nat)
    returns (res: FResult, fs: Fatfs?, ghost p: Plan, ghost bVol: nat, ghost made: FResult)
    requires |disk.img| < 0x1_0000_0000
    modifies work, disk`img
    ensures (res == OK <==> fs != null) && (made != OK ==> res == made)
    ensures disk.reliable && made == OK ==> res == OK
    ensures fs != null ==> fresh(fs) && fresh(fs.win) && fs.disk == disk && fs.id == id && |disk.img| == |old(disk.img)|
    ensures fs != null ==> Formatted(disk.img, p, bVol) && Attached(fs, bVol)
    ensures fs != null && disk.reliable ==> FreeCountOk(fs) && fs.exact && (p.fmt == FAT32 ==> fs.fsiUsed)
    ensures fs != null && disk.reliable ==>
      fs.geo == PlanGeometry(p, bVol) && fs.fat == FreshFat(p) && Layout(fs.fat, FreshChains(p))
    ensures disk.reliable && au == 0 && AnyFat(opt) && work.Length >= 512 && |old(disk.img)| >= Smallest(opt) ==>
      res == OK
  {
    hide Formatted, Valid, ParseBpb, Layout, VolumeAt, Trusted, FsInfoCounts, FreshFsInfo, PlanGeometry, HasVolume,
      FatOf, BootCandidate, FreshFat, LdWord, Attached, Outcomes, Settled, ValidGeometry;
    fs := null;
    res, p, bVol := MakeFs(disk, opt, au, work, stamp);
    made := res;
    if res != OK { return; }
    FormattedMounts(disk.img, p, bVol);
    ghost var b, kinds;
    res, fs, b, kinds := FindVolume(disk, id);
    if res == OK && disk.reliable {
      AttachedParts(fs, bVol);
      MountedFresh(fs, p, bVol);
    }
  }
}
