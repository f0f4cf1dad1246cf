/** The boot sector, the partition table and FSInfo: how a mount reads them. */
module BootSector {
  import opened FatTypes
  import opened VolumePlan

  datatype Option<T> = None | Some(value: T)

  /** What check_fs finds in a sector. */
  datatype Found = FatVbr | NotFat | NoSignature | ReadError

  /** check_fs on a sector that was read. */
  function BootKind(s: Sector): Found {
    if LdWord(s, 510) != 0xAA55 then NoSignature
    else if (s[0] == 0xE9 || (s[0] == 0xEB && s[2] == 0x90))
            && (LdDword(s, 54) % 0x100_0000 == 0x54_4146 || LdDword(s, 82) == 0x3354_4146) then FatVbr
    else NotFat
  }

  /** Start sector in the i-th entry of the partition table, 0 if the entry is not in use. */
  function PartitionStart(mbr: Sector, i: nat): dword
    requires i < 4
  {
    if mbr[446 + i * 16 + 4] != 0 then LdDword(mbr, 446 + i * 16 + 8) else 0
  }

  /** BPB_FATSz16 or BPB_FATSz32, BPB_TotSec16 or BPB_TotSec32. */
  function FatSz(s: Sector): dword { if LdWord(s, 22) != 0 then LdWord(s, 22) else LdDword(s, 36) }
  function TotSec(s: Sector): dword { if LdWord(s, 19) != 0 then LdWord(s, 19) else LdDword(s, 32) }

  /** Sectors of all FATs; where it is used there are one or two of them. */
  function AllFats(s: Sector): nat { FatSz(s) + if s[16] == 2 then FatSz(s) else 0 }

  /** The same in DWORD arithmetic. */
  function FatArea(s: Sector): dword { W32(AllFats(s)) }

  /** Reserved area, FATs and static root directory. */
  function SysSectors(s: Sector): dword { W32(LdWord(s, 14) + FatArea(s) + LdWord(s, 17) / 16) }

  function TypeOf(nclst: nat): FsType {
    if nclst <= MAX_FAT12 then FAT12 else if nclst <= MAX_FAT16 then FAT16 else FAT32
  }

  /** Bytes of FAT that n entries need. */
  function NeededBytes(t: FsType, n: nat): dword {
    match t
    case FAT12 => W32(n * 3) / 2 + n % 2
    case FAT16 => W32(n * 2)
    case FAT32 => W32(n * 4)
  }

  /** The analysis of the BPB in find_volume; None is FR_NO_FILESYSTEM. */
  function ParseBpb(s: Sector, bsect: dword): Option<Geometry> {
    var nFats, csize, nRoot, nRsv, tsect, sysect :=
      s[16], s[13], LdWord(s, 17), LdWord(s, 14), TotSec(s), SysSectors(s);
    if LdWord(s, 11) != 512 || (nFats != 1 && nFats != 2) || !ClusterSize(csize) || nRoot % 16 != 0 then None
    else if nRsv == 0 || tsect < sysect || Div(tsect - sysect, csize) == 0 then None
    else
      var nclst := Div(tsect - sysect, csize);
      var t, fatbase := TypeOf(nclst), W32(bsect + nRsv);
      if t == FAT32 && (LdWord(s, 42) != 0 || nRoot != 0) then None
      else if t != FAT32 && nRoot == 0 then None
      else if FatSz(s) < W32(NeededBytes(t, nclst + 2) + 511) / 512 then None
      else
        var dirbase := if t == FAT32 then LdDword(s, 44) else W32(fatbase + FatArea(s));
        Some(Geometry(t, nFats, csize, nRoot, nclst + 2, FatSz(s), bsect, fatbase, dirbase, W32(bsect + sysect)))
  }

  /**
    What the BPB analysis takes for granted: the sums do not wrap, the volume lies on the disk, FAT32
    stays below its reserved cluster numbers and keeps FSInfo out of its FAT.
  */
  predicate BpbInRange(s: Sector, bsect: dword, disk: nat) {
    && bsect + TotSec(s) <= disk < 0x1_0000_0000
    && LdWord(s, 14) + AllFats(s) + LdWord(s, 17) / 16 < 0x1_0000_0000
    && (TotSec(s) >= SysSectors(s) && ClusterSize(s[13]) ==>
          Div(TotSec(s) - SysSectors(s), s[13]) <= MAX_FAT32
          && (TypeOf(Div(TotSec(s) - SysSectors(s), s[13])) == FAT32 ==> LdWord(s, 14) >= 2))
  }

  /** A volume that passes the analysis is laid out as the rest of the file system relies on. */
  lemma ParsedValid(s: Sector, bsect: dword, disk: nat)
    requires ParseBpb(s, bsect).Some? && BpbInRange(s, bsect, disk)
    ensures ValidGeometry(ParseBpb(s, bsect).value, disk) && RootOk(ParseBpb(s, bsect).value)
  {
    hide LdWord, LdDword, W32, FatBytes, Times;
    var g := ParseBpb(s, bsect).value;
    var sys := LdWord(s, 14) + AllFats(s) + LdWord(s, 17) / 16;
    NoWrap(AllFats(s));
    NoWrap(sys);
    NoWrap(bsect + LdWord(s, 14));
    NoWrap(bsect + LdWord(s, 14) + AllFats(s));
    NoWrap(bsect + sys);
    DivBounds(TotSec(s) - sys, s[13]);
    TimesIsProduct(g.nFatent - 2, g.csize);
    NeededIsFatBytes(g.fsType, g.nFatent);
    NoWrap(FatBytes(g.fsType, g.nFatent) + 511);
  }

  lemma NeededIsFatBytes(t: FsType, n: nat)
    requires n <= MAX_FAT32 + 2
    ensures NeededBytes(t, n) == FatBytes(t, n) < 0x1_0000_0000 - 511
  {
  }
}
