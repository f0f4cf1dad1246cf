/** f_mkfs: what it writes, and that a mount recovers the volume it planned. */
module Format {
  import opened FatTypes
  import opened BlockDevice
  import opened DirEntry
  import opened VolumePlan
  import opened BootSector

  function Zero(): (s: Sector)
    ensures forall j | 0 <= j < 512 :: s[j] == 0
  {
    seq(512, i => 0)
  }

  /** The geometry a plan stands for on a volume that starts at bVol. */
  function PlanGeometry(p: Plan, bVol: nat): Geometry {
    Geometry(p.fmt, 1, p.pau, if p.fmt == FAT32 then 0 else 512, p.nClst + 2, p.szFat, bVol, bVol + p.szRsv,
             if p.fmt == FAT32 then 2 else bVol + p.szRsv + p.szFat, bVol + p.szRsv + p.szFat + p.szDir)
  }

  /** The fields of a boot sector that describe plan p. */
  predicate IsVbr(s: Sector, p: Plan, szVol: nat) {
    && BootKind(s) == FatVbr
    && LdWord(s, 11) == 512 && s[13] == p.pau && LdWord(s, 14) == p.szRsv && s[16] == 1
    && LdWord(s, 17) == (if p.fmt == FAT32 then 0 else 512)
    && LdWord(s, 19) == (if szVol < 0x1_0000 then szVol else 0)
    && (szVol >= 0x1_0000 ==> LdDword(s, 32) == szVol)
    && LdWord(s, 22) == (if p.fmt == FAT32 then 0 else p.szFat)
    && (p.fmt == FAT32 ==> LdDword(s, 36) == p.szFat && LdWord(s, 42) == 0 && LdDword(s, 44) == 2 && LdWord(s, 48) == 1)
  }

  lemma TypeOfPlan(p: Plan, szVol: nat)
    requires Sensible(p, szVol)
    ensures TypeOf(p.nClst) == p.fmt && p.nClst > 0 && p.nClst <= MAX_FAT32 && p.szFat > 0
    ensures p.fmt != FAT32 ==> p.szFat < 0x1_0000
  {
  }

  lemma Enough(n: nat, s: nat)
    requires n <= s * 512
    ensures (n + 511) / 512 <= s
  {
  }

  /** The analysis of the boot sector returns the plan it was written from. */
  lemma VbrParses(s: Sector, p: Plan, szVol: nat, bVol: nat)
    requires Sensible(p, szVol) && IsVbr(s, p, szVol) && bVol + szVol < 0x1_0000_0000
    ensures ParseBpb(s, bVol) == Some(PlanGeometry(p, bVol)) && BpbInRange(s, bVol, bVol + szVol)
  {
    hide LdWord, LdDword, W32, FatBytes, Div, BootKind, NeededBytes;
    TypeOfPlan(p, szVol);
    VbrSizes(s, p, szVol);
    NoWrap(bVol + p.szRsv);
    NoWrap(bVol + p.szRsv + p.szFat);
    NoWrap(bVol + p.szRsv + p.szFat + p.szDir);
    NeededIsFatBytes(p.fmt, p.nClst + 2);
    NoWrap(FatBytes(p.fmt, p.nClst + 2) + 511);
    Enough(FatBytes(p.fmt, p.nClst + 2), p.szFat);
  }

  lemma VbrSizes(s: Sector, p: Plan, szVol: nat)
    requires Sensible(p, szVol) && IsVbr(s, p, szVol) && szVol < 0x1_0000_0000
    ensures FatSz(s) == p.szFat && TotSec(s) == szVol && SysSectors(s) == p.szRsv + p.szFat + p.szDir
    ensures FatArea(s) == p.szFat
  {
    hide LdWord, LdDword, W32, FatBytes, Div, BootKind;
    TypeOfPlan(p, szVol);
    NoWrap(p.szFat);
    NoWrap(p.szRsv + p.szFat + p.szDir);
  }

  // ----- Writing the boot sector

  /** The first sector of the work buffer. */
  function Head(buf: array<byte>): Sector
    requires buf.Length >= 512
    reads buf
  {
    buf[..512]
  }

  /** Fields outside the n bytes at o load the same. */
  ghost predicate Untouched(s: Sector, t: Sector, o: nat, n: nat) {
    && (forall p: nat | p + 2 <= 512 && (p + 2 <= o || o + n <= p) :: LdWord(t, p) == LdWord(s, p))
    && (forall p: nat | p + 4 <= 512 && (p + 4 <= o || o + n <= p) :: LdDword(t, p) == LdDword(s, p))
    && (forall p: nat | p < 512 && !(o <= p < o + n) :: t[p] == s[p])
  }

  lemma OverwriteUntouched(s: Sector, o: nat, x: seq<byte>)
    requires o + |x| <= 512
    ensures Untouched(s, Overwrite(s, o, x), o, |x|)
  {
  }

  lemma ZeroLoads(p: nat)
    ensures p + 2 <= 512 ==> LdWord(Zero(), p) == 0
    ensures p + 4 <= 512 ==> LdDword(Zero(), p) == 0
  {
  }

  /** mem_set(buf, 0, ss). */
  method ClearHead(buf: array<byte>)
    requires buf.Length >= 512
    modifies buf
    ensures Head(buf) == Zero()
    ensures forall j | 512 <= j < buf.Length :: buf[j] == old(buf[j])
  {
    forall i | 0 <= i < 512 { buf[i] := 0; }
  }

  /** mem_cpy into the work buffer. */
  method Store(buf: array<byte>, o: nat, x: seq<byte>)
    requires o + |x| <= 512 <= buf.Length
    modifies buf
    ensures Head(buf) == Overwrite(old(Head(buf)), o, x) && Untouched(old(Head(buf)), Head(buf), o, |x|)
    ensures forall j | 512 <= j < buf.Length :: buf[j] == old(buf[j])
  {
    hide Untouched;
    ghost var was := Head(buf);
    forall i | 0 <= i < |x| { buf[o + i] := x[i]; }
    assert Head(buf) == Overwrite(was, o, x);
    OverwriteUntouched(was, o, x);
  }

  /** st_word. */
  method StoreWord(buf: array<byte>, o: nat, v: nat)
    requires o + 2 <= 512 <= buf.Length && v < 0x1_0000
    modifies buf
    ensures LdWord(Head(buf), o) == v && Untouched(old(Head(buf)), Head(buf), o, 2)
    ensures forall j | 512 <= j < buf.Length :: buf[j] == old(buf[j])
  {
    hide Untouched, LdWord, StWord;
    Store(buf, o, StWord(v));
    OverwriteHit(old(Head(buf)), o, StWord(v));
    WordStored(Head(buf), o, v);
  }

  /** st_dword. */
  method StoreDword(buf: array<byte>, o: nat, v: dword)
    requires o + 4 <= 512 <= buf.Length
    modifies buf
    ensures Head(buf) == Overwrite(old(Head(buf)), o, StDword(v))
    ensures LdDword(Head(buf), o) == v && Untouched(old(Head(buf)), Head(buf), o, 4)
    ensures forall j | 512 <= j < buf.Length :: buf[j] == old(buf[j])
  {
    hide Untouched, LdDword, StDword;
    Store(buf, o, StDword(v));
    OverwriteHit(old(Head(buf)), o, StDword(v));
    DwordStored(Head(buf), o, v);
  }

  /** One byte. */
  method StoreByte(buf: array<byte>, o: nat, v: byte)
    requires o < 512 <= buf.Length
    modifies buf
    ensures Head(buf)[o] == v && Untouched(old(Head(buf)), Head(buf), o, 1)
    ensures forall j | 512 <= j < buf.Length :: buf[j] == old(buf[j])
  {
    hide Untouched;
    Store(buf, o, [v]);
  }

  const OEM: seq<byte> := [0xEB, 0xFE, 0x90, 77, 83, 68, 79, 83, 53, 46, 48]
  const LABEL: seq<byte> := [78, 79, 32, 78, 65, 77, 69, 32, 32, 32, 32]
  const FAT_MARK: seq<byte> := [70, 65, 84, 32, 32, 32, 32, 32]
  const FAT32_MARK: seq<byte> := [70, 65, 84, 51, 50, 32, 32, 32]

  /** The fields of the boot sector that all FAT types share. */
  predicate CommonFields(s: Sector, p: Plan, szVol: nat) {
    && s[0] == 0xEB && s[2] == 0x90
    && LdWord(s, 11) == 512 && s[13] == p.pau && LdWord(s, 14) == p.szRsv && s[16] == 1
    && LdWord(s, 17) == (if p.fmt == FAT32 then 0 else 512)
    && LdWord(s, 19) == (if szVol < 0x1_0000 then szVol else 0)
    && (szVol >= 0x1_0000 ==> LdDword(s, 32) == szVol)
  }

  lemma OemBytes(s: Sector)
    ensures Overwrite(s, 0, OEM)[0] == 0xEB && Overwrite(s, 0, OEM)[2] == 0x90
  {
  }

  method MakeBpb(buf: array<byte>, p: Plan, bVol: dword, szVol: dword)
    requires buf.Length >= 512 && ClusterSize(p.pau) && p.szRsv < 0x1_0000
    modifies buf
    ensures CommonFields(Head(buf), p, szVol) && LdWord(Head(buf), 22) == 0 && LdWord(Head(buf), 42) == 0
    ensures forall j | 512 <= j < buf.Length :: buf[j] == old(buf[j])
  {
    hide LdWord, LdDword, Overwrite, Head, Zero;
    ClearHead(buf);
    ZeroLoads(22);
    ZeroLoads(42);
    ZeroLoads(19);
    OemBytes(Zero());
    Store(buf, 0, OEM);
    StoreWord(buf, 11, 512);
    StoreByte(buf, 13, p.pau);
    StoreWord(buf, 14, p.szRsv);
    StoreByte(buf, 16, 1);
    StoreWord(buf, 17, if p.fmt == FAT32 then 0 else 512);
    if szVol < 0x1_0000 {
      StoreWord(buf, 19, szVol);
    } else {
      StoreDword(buf, 32, szVol);
    }
    StoreByte(buf, 21, 0xF8);
    StoreWord(buf, 24, 63);
    StoreWord(buf, 26, 255);
    StoreDword(buf, 28, bVol);
  }

  /** The FAT-VBR of plan p. */
  method MakeVbr(buf: array<byte>, p: Plan, bVol: dword, szVol: dword, stamp: dword)
    requires buf.Length >= 512 && Sensible(p, szVol)
    modifies buf
    ensures IsVbr(Head(buf), p, szVol)
    ensures forall j | 512 <= j < buf.Length :: buf[j] == old(buf[j])
  {
    hide LdWord, LdDword, Overwrite, Head, FatBytes, Div;
    TypeOfPlan(p, szVol);
    MakeBpb(buf, p, bVol, szVol);
    if p.fmt == FAT32 { MakeTail32(buf, p, szVol, stamp); } else { MakeTail16(buf, p, szVol, stamp); }
  }

  lemma Mark32(s: Sector)
    ensures LdDword(Overwrite(s, 71, LABEL + FAT32_MARK), 82) == 0x3354_4146
  {
    var t, x := Overwrite(s, 71, LABEL + FAT32_MARK), LABEL + FAT32_MARK;
    assert t[82] == x[11] && t[83] == x[12] && t[84] == x[13] && t[85] == x[14];
  }

  lemma Mark16(s: Sector)
    ensures LdDword(Overwrite(s, 43, LABEL + FAT_MARK), 54) % 0x100_0000 == 0x54_4146
  {
    var t, x := Overwrite(s, 43, LABEL + FAT_MARK), LABEL + FAT_MARK;
    assert t[54] == x[11] && t[55] == x[12] && t[56] == x[13] && t[57] == x[14];
  }

  method MakeTail32(buf: array<byte>, p: Plan, szVol: nat, stamp: dword)
    requires buf.Length >= 512 && p.szFat < 0x1_0000_0000 && p.fmt == FAT32
    requires CommonFields(Head(buf), p, szVol) && LdWord(Head(buf), 22) == 0 && LdWord(Head(buf), 42) == 0
    modifies buf
    ensures IsVbr(Head(buf), p, szVol)
    ensures forall j | 512 <= j < buf.Length :: buf[j] == old(buf[j])
  {
    hide LdWord, LdDword, Overwrite, Head;
    StoreDword(buf, 67, stamp);
    StoreDword(buf, 36, p.szFat);
    StoreDword(buf, 44, 2);
    StoreWord(buf, 48, 1);
    StoreWord(buf, 50, 6);
    StoreByte(buf, 64, 0x80);
    StoreByte(buf, 66, 0x29);
    Mark32(Head(buf));
    Store(buf, 71, LABEL + FAT32_MARK);
    StoreWord(buf, 510, 0xAA55);
  }

  method MakeTail16(buf: array<byte>, p: Plan, szVol: nat, stamp: dword)
    requires buf.Length >= 512 && p.szFat < 0x1_0000 && p.fmt != FAT32
    requires CommonFields(Head(buf), p, szVol)
    modifies buf
    ensures IsVbr(Head(buf), p, szVol)
    ensures forall j | 512 <= j < buf.Length :: buf[j] == old(buf[j])
  {
    hide LdWord, LdDword, Overwrite, Head;
    StoreDword(buf, 39, stamp);
    StoreWord(buf, 22, p.szFat);
    StoreByte(buf, 36, 0x80);
    StoreByte(buf, 38, 0x29);
    Mark16(Head(buf));
    Store(buf, 43, LABEL + FAT_MARK);
    StoreWord(buf, 510, 0xAA55);
  }

  // ----- Writing the areas

  /** FSInfo of an empty FAT32 volume: every cluster but the root directory's is free. */
  predicate FreshFsInfo(s: Sector, p: Plan) { p.nClst > 0 && FsInfoCounts(s) == (p.nClst - 1, 2) }

  method MakeFsInfo(buf: array<byte>, p: Plan)
    requires buf.Length >= 512 && 0 < p.nClst < 0x1_0000_0000
    modifies buf
    ensures FreshFsInfo(Head(buf), p)
    ensures forall j | 512 <= j < buf.Length :: buf[j] == old(buf[j])
  {
    hide LdWord, LdDword, Overwrite, Head, Zero;
    ClearHead(buf);
    StoreDword(buf, 0, 0x4161_5252);
    StoreDword(buf, 484, 0x6141_7272);
    StoreDword(buf, 488, p.nClst - 1);
    StoreDword(buf, 492, 2);
    StoreWord(buf, 510, 0xAA55);
  }

  /** The first sector of an empty FAT: the reserved entries 0 and 1, on FAT32 also the root directory's. */
  function FirstFatSector(t: FsType): Sector {
    match t
    case FAT12 => Overwrite(Zero(), 0, StDword(0xFF_FFF8))
    case FAT16 => Overwrite(Zero(), 0, StDword(0xFFFF_FFF8))
    case FAT32 => Overwrite(Overwrite(Overwrite(Zero(), 0, StDword(0xFFFF_FFF8)), 4, StDword(0xFFFF_FFFF)), 8,
      StDword(0x0FFF_FFFF))
  }

  method MakeFirstFat(buf: array<byte>, t: FsType)
    requires buf.Length >= 512 && Head(buf) == Zero()
    modifies buf
    ensures Head(buf) == FirstFatSector(t)
    ensures forall j | 512 <= j < buf.Length :: buf[j] == old(buf[j])
  {
    hide LdDword, Overwrite, Head, Zero, StDword, Untouched;
    if t == FAT32 {
      StoreDword(buf, 0, 0xFFFF_FFF8);
      StoreDword(buf, 4, 0xFFFF_FFFF);
      StoreDword(buf, 8, 0x0FFF_FFFF);
    } else {
      StoreDword(buf, 0, if t == FAT12 then 0xFF_FFF8 else 0xFFFF_FFF8);
    }
  }

  /** img holds sector first at from and zeros in the cnt - 1 sectors behind it. */
  ghost predicate Filled(img: seq<Sector>, from: nat, cnt: nat, first: Sector) {
    && from + cnt <= |img| && (cnt > 0 ==> img[from] == first)
    && forall s: nat | from < s < from + cnt :: img[s] == Zero()
  }

  /** Writes nsect sectors in pieces of the work buffer, whose first sector is cleared after each piece. */
  method Fill(disk: Disk, work: array<byte>, sect0: nat, nsect0: nat) returns (ok: bool)
    requires work.Length >= 512 && nsect0 > 0 && forall j | 512 <= j < work.Length :: work[j] == 0
    modifies work, disk`img
    ensures |disk.img| == |old(disk.img)|
    ensures forall s | 0 <= s < |disk.img| && !(sect0 <= s < sect0 + nsect0) :: disk.img[s] == old(disk.img)[s]
    ensures ok ==> Filled(disk.img, sect0, nsect0, old(Head(work)))
    ensures disk.reliable && sect0 + nsect0 <= |disk.img| ==> ok
    ensures ok ==> forall j | 0 <= j < work.Length :: work[j] == 0
  {
    var szBuf := work.Length / 512;
    var sect, nsect := sect0, nsect0;
    ghost var first := Head(work);
    while true
      invariant sect + nsect == sect0 + nsect0 && sect0 <= sect && 0 < nsect
      invariant |disk.img| == |old(disk.img)| && forall j | 512 <= j < work.Length :: work[j] == 0
      invariant forall s | 0 <= s < |disk.img| && !(sect0 <= s < sect) :: disk.img[s] == old(disk.img)[s]
      invariant Filled(disk.img, sect0, sect - sect0, first) || sect == sect0
      invariant Head(work) == if sect == sect0 then first else Zero()
      decreases nsect
    {
      var n := if nsect > szBuf then szBuf else nsect;
      ghost var was := disk.img;
      ok := disk.WriteRun(work[..n * 512], sect, n);
      if !ok { return; }
      FillMore(was, disk.img, work[..n * 512], sect0, sect, n, first);
      ClearHead(work);
      sect, nsect := sect + n, nsect - n;
      if nsect == 0 { return; }
    }
  }

  lemma FillMore(was: seq<Sector>, img: seq<Sector>, data: seq<byte>, sect0: nat, sect: nat, n: nat, first: Sector)
    requires sect0 <= sect && n > 0 && |data| == n * 512 && sect + n <= |img| == |was|
    requires forall j | 512 <= j < |data| :: data[j] == 0
    requires data[..512] == if sect == sect0 then first else Zero()
    requires Filled(was, sect0, sect - sect0, first) || sect == sect0
    requires forall s | 0 <= s < |img| && !(sect <= s < sect + n) :: img[s] == was[s]
    requires forall s: nat | sect <= s < sect + n :: img[s] == Chunk(data, s - sect)
    ensures Filled(img, sect0, sect + n - sect0, first)
  {
    assert Chunk(data, 0) == data[..512];
    forall s: nat | sect < s < sect + n ensures img[s] == Zero() { assert img[s] == Chunk(data, s - sect); }
  }

  /** A partition table with one entry, for szVol sectors from bVol on. */
  predicate IsMbr(s: Sector, bVol: nat, szVol: nat) {
    BootKind(s) == NotFat && PartitionStart(s, 0) == bVol && LdDword(s, 458) == szVol
    && PartitionStart(s, 1) == PartitionStart(s, 2) == PartitionStart(s, 3) == 0
  }

  method MakeMbr(buf: array<byte>, sys: byte, bVol: dword, szVol: dword)
    requires buf.Length >= 512 && sys != 0
    modifies buf
    ensures IsMbr(Head(buf), bVol, szVol) && Head(buf)[450] == sys
  {
    hide LdDword, LdWord, Overwrite, Head, Zero;
    ClearHead(buf);
    ZeroBytes();
    StoreWord(buf, 510, 0xAA55);
    var n := W32(bVol + szVol) / (63 * 255);
    StoreByte(buf, 446, 0);
    StoreByte(buf, 447, 1);
    StoreByte(buf, 448, 1);
    StoreByte(buf, 449, 0);
    StoreByte(buf, 450, sys);
    StoreByte(buf, 451, 254);
    StoreByte(buf, 452, (n / 4) % 0x100 / 64 * 64 + 63);
    StoreByte(buf, 453, n % 0x100);
    StoreDword(buf, 454, bVol);
    StoreDword(buf, 458, szVol);
  }

  lemma ZeroBytes()
    ensures Zero()[0] == 0 && Zero()[466] == 0 && Zero()[482] == 0 && Zero()[498] == 0
  {
  }

  /** Sectors of the root directory that f_mkfs clears. */
  function RootSectors(p: Plan): nat { if p.fmt == FAT32 then p.pau else p.szDir }

  /** The backup boot sector and FSInfo of a FAT32 volume are copies. */
  predicate BackedUp(img: seq<Sector>, bVol: nat) {
    bVol + 7 < |img| && img[bVol + 6] == img[bVol] && img[bVol + 7] == img[bVol + 1]
  }

  /** img says that a volume laid out by plan p goes from sector bVol to the end of the disk. */
  ghost predicate Bootable(img: seq<Sector>, p: Plan, bVol: nat) {
    && bVol < |img| < 0x1_0000_0000 && Sensible(p, |img| - bVol)
    && IsVbr(img[bVol], p, |img| - bVol) && (bVol != 0 ==> IsMbr(img[0], bVol, |img| - bVol))
  }

  /** And that volume is empty. */
  ghost predicate Formatted(img: seq<Sector>, p: Plan, bVol: nat) {
    && Bootable(img, p, bVol)
    && Filled(img, bVol + p.szRsv, p.szFat, FirstFatSector(p.fmt))
    && Filled(img, bVol + p.szRsv + p.szFat, RootSectors(p), Zero())
  }

  /** The areas of a sensible plan follow each other inside the volume. */
  lemma PlanAreas(p: Plan, szVol: nat)
    requires Sensible(p, szVol)
    ensures 0 < p.szFat && 0 < RootSectors(p) && p.szRsv + p.szFat + RootSectors(p) <= szVol
    ensures if p.fmt == FAT32 then p.szRsv == 32 else p.szRsv == 1
    ensures 0 < p.nClst < 0x1_0000_0000
  {
    hide Div;
  }

  /** Boot sector, FSInfo, FAT and root directory. The copies and FSInfo are written without looking at the result. */
  method WriteVolume(disk: Disk, work: array<byte>, p: Plan, bVol: dword, stamp: dword) returns (ok: bool)
    requires work.Length >= 512 && bVol < |disk.img| < 0x1_0000_0000 && Sensible(p, |disk.img| - bVol)
    modifies work, disk`img
    ensures |disk.img| == |old(disk.img)| && forall s: nat | s < bVol :: disk.img[s] == old(disk.img)[s]
    ensures ok ==> IsVbr(disk.img[bVol], p, |disk.img| - bVol)
    ensures ok ==> Filled(disk.img, bVol + p.szRsv, p.szFat, FirstFatSector(p.fmt))
    ensures ok ==> Filled(disk.img, bVol + p.szRsv + p.szFat, RootSectors(p), Zero())
    ensures disk.reliable ==> ok
    ensures disk.reliable && p.fmt == FAT32 ==> FreshFsInfo(disk.img[bVol + 1], p) && BackedUp(disk.img, bVol)
  {
    hide Sensible, IsVbr, FreshFsInfo, FirstFatSector;
    PlanAreas(p, |disk.img| - bVol);
    ok := WriteBoot(disk, work, p, bVol, stamp);
    if !ok { return; }
    ghost var booted := disk.img;
    ClearAll(work);
    MakeFirstFat(work, p.fmt);
    ok := Fill(disk, work, bVol + p.szRsv, p.szFat);
    if !ok { return; }
    ghost var filled := disk.img;
    ZeroHead(work);
    ok := Fill(disk, work, bVol + p.szRsv + p.szFat, RootSectors(p));
  }

  /** mem_set(buf, 0, szb_buf). */
  method ClearAll(buf: array<byte>)
    requires buf.Length >= 512
    modifies buf
    ensures Head(buf) == Zero() && forall j | 0 <= j < buf.Length :: buf[j] == 0
  {
    forall i | 0 <= i < buf.Length { buf[i] := 0; }
  }

  lemma ZeroHead(buf: array<byte>)
    requires buf.Length >= 512 && forall j | 0 <= j < buf.Length :: buf[j] == 0
    ensures Head(buf) == Zero()
  {
  }

  method WriteBoot(disk: Disk, work: array<byte>, p: Plan, bVol: dword, stamp: dword) returns (ok: bool)
    requires work.Length >= 512 && bVol < |disk.img| < 0x1_0000_0000 && Sensible(p, |disk.img| - bVol)
    modifies work, disk`img
    ensures |disk.img| == |old(disk.img)|
    ensures forall s: nat | s < |disk.img| && !(bVol <= s < bVol + p.szRsv) :: disk.img[s] == old(disk.img)[s]
    ensures ok ==> IsVbr(disk.img[bVol], p, |disk.img| - bVol)
    ensures disk.reliable ==> ok
    ensures disk.reliable && p.fmt == FAT32 ==> bVol + 1 < |disk.img| && FreshFsInfo(disk.img[bVol + 1], p)
    ensures disk.reliable && p.fmt == FAT32 ==> BackedUp(disk.img, bVol)
  {
    hide Sensible, IsVbr, FreshFsInfo;
    PlanAreas(p, |disk.img| - bVol);
    MakeVbr(work, p, bVol, |disk.img| - bVol, stamp);
    ok := disk.WriteSector(Head(work), bVol);
    if !ok { return; }
    if p.fmt == FAT32 {
      var ignored := disk.WriteSector(Head(work), bVol + 6);
      MakeFsInfo(work, p);
      ignored := disk.WriteSector(Head(work), bVol + 7);
      ignored := disk.WriteSector(Head(work), bVol + 1);
    }
  }

  /** au & (au - 1) is zero. */
  predicate OneBit(n: nat) { n <= 1 || (n % 2 == 0 && OneBit(n / 2)) }

  predicate AuOk(au: nat) { (au == 0 || au >= 512) && au <= 0x100_0000 && OneBit(au) }

  lemma Half(n: nat) returns (h: nat)
    requires OneBit(n) && n >= 2
    ensures n == 2 * h && OneBit(h)
  {
    h := n / 2;
  }

  /** A single bit at or above bit 9, shifted down by nine. */
  lemma ShiftedBit(n: nat) returns (k: nat)
    requires OneBit(n) && n >= 512
    ensures n == k * 512 && OneBit(k)
  {
    hide OneBit;
    k := Half(n);
    k := Half(k);
    k := Half(k);
    k := Half(k);
    k := Half(k);
    k := Half(k);
    k := Half(k);
    k := Half(k);
    k := Half(k);
  }

  lemma SmallPower(n: nat)
    requires OneBit(n) && 1 <= n <= 128
    ensures ClusterSize(n)
  {
    if n > 1 { SmallPower(n / 2); }
  }

  /** System ID of the partition. */
  function SystemId(p: Plan, szVol: nat): byte {
    if p.fmt == FAT32 then 0x0C else if szVol >= 0x1_0000 then 0x06 else if p.fmt == FAT16 then 0x04 else 0x01
  }

  /** FAT type to start from; None is FR_INVALID_PARAMETER. */
  function StartType(opt: byte, auSectors: nat): Option<FsType> {
    if auSectors > 128 then None
    else if WantsFat32(opt) && !WantsFat(opt) then Some(FAT32)
    else if !WantsFat(opt) then None
    else Some(FAT16)
  }

  /** Any FAT type will do. */
  predicate AnyFat(opt: byte) { WantsFat(opt) && WantsFat32(opt) }

  /** Sectors of the smallest disk f_mkfs takes. */
  function Smallest(opt: byte): nat { if WantsSfd(opt) then 128 else 191 }

  /**
    f_mkfs on an unpartitioned drive. Success means an empty volume that follows a sensible plan and
    the caller's wishes; with automatic cluster size and any FAT type a working disk is never refused.
  */
  method MakeFs(disk: Disk, opt: byte, au: dword, work: array<byte>, stamp: dword)
    returns (res: FResult, ghost p: Plan, ghost bVol: nat)
    requires |disk.img| < 0x1_0000_0000
    modifies work, disk`img
    ensures |disk.img| == |old(disk.img)|
    ensures res == OK ==> Formatted(disk.img, p, bVol) && bVol == if WantsSfd(opt) then 0 else 63
    ensures res == OK ==> (au != 0 ==> p.pau * 512 == au) && if p.fmt == FAT32 then WantsFat32(opt) else WantsFat(opt)
    ensures res == OK && disk.reliable && p.fmt == FAT32 ==>
      FreshFsInfo(disk.img[bVol + 1], p) && BackedUp(disk.img, bVol)
    ensures res == InvalidParameter <== disk.reliable && !AuOk(au)
    ensures !AuOk(au) || work.Length < 512 || |disk.img| < Smallest(opt) ==> res != OK && disk.img == old(disk.img)
    ensures disk.reliable && au == 0 && AnyFat(opt) && work.Length >= 512 && |disk.img| >= Smallest(opt) ==> res == OK
    ensures disk.reliable && au == 0 && WantsFat(opt) && work.Length >= 512 && Smallest(opt) <= |disk.img| < BIG ==>
      res == OK
  {
    hide Sensible, IsVbr, IsMbr, FreshFsInfo, FirstFatSector, Filled;
    p, bVol := Plan(FAT16, 0, 0, 0, 0, 0), 0;
    var ok := disk.Ready();
    if !ok { return NotReady, p, 0; }
    if !AuOk(au) { return InvalidParameter, p, 0; }
    AuSectors(au);
    if work.Length / 512 == 0 { return MkfsAborted, p, 0; }
    ok := disk.Ready();
    if !ok { return DiskErr, p, 0; }
    var base: dword := if WantsSfd(opt) then 0 else 63;
    var total: dword := |disk.img|;
    if total < base || total - base < 128 { return MkfsAborted, p, 0; }
    var start := StartType(opt, au / 512);
    if start.None? { return InvalidParameter, p, 0; }
    var plan;
    ok, plan := ChoosePlan(start.value, au / 512, opt, total - base, base);
    if !ok { return MkfsAborted, p, 0; }
    p, bVol := plan, base;
    PlanAreas(plan, total - base);
    ok := WriteVolume(disk, work, plan, base, stamp);
    if !ok { return DiskErr, p, bVol; }
    if !WantsSfd(opt) {
      MakeMbr(work, SystemId(plan, total - base), base, total - base);
      ghost var was := disk.img;
      ok := disk.WriteSector(Head(work), 0);
      if !ok { return DiskErr, p, bVol; }
      FilledAbove(was, disk.img, plan, base);
    }
    ok := disk.Sync();
    res := if ok then OK else DiskErr;
  }

  lemma AuSectors(au: nat)
    requires AuOk(au)
    ensures au / 512 == 0 <==> au == 0
    ensures au / 512 <= 128 && au != 0 ==> ClusterSize(au / 512) && au / 512 * 512 == au
  {
    if au >= 512 {
      var k := ShiftedBit(au);
      if au / 512 <= 128 { SmallPower(k); }
    }
  }

  /** The partition table does not touch the volume. */
  lemma FilledAbove(was: seq<Sector>, img: seq<Sector>, p: Plan, bVol: nat)
    requires 0 < bVol && |img| == |was| && forall s: nat | 0 < s < |img| :: img[s] == was[s]
    requires Filled(was, bVol + p.szRsv, p.szFat, FirstFatSector(p.fmt))
    requires Filled(was, bVol + p.szRsv + p.szFat, RootSectors(p), Zero())
    ensures Filled(img, bVol + p.szRsv, p.szFat, FirstFatSector(p.fmt))
    ensures Filled(img, bVol + p.szRsv + p.szFat, RootSectors(p), Zero())
  {
    hide FirstFatSector;
  }
}
