/** f_getfree: counting free clusters by stepping through the FAT sectors. */
module FreeCount {
  import opened FatTypes
  import opened Window
  import opened FatEntries
  import opened FatAccess
  import opened ChainTheory
  import opened Chains

  /** Entry c of a FAT16 or FAT32 volume is zero in the FAT sectors; also for the reserved entries 0 and 1. */
  function RawZero(g: Geometry, vol: seq<Sector>, c: nat): bool
    requires ValidGeometry(g, |vol|) && g.fsType != FAT12 && c < g.nFatent
  {
    RawInside(g, |vol|, c);
    if g.fsType == FAT16 then Word(FatByte(g, vol, c * 2), FatByte(g, vol, c * 2 + 1)) == 0
    else Dword(FatByte(g, vol, c * 4), FatByte(g, vol, c * 4 + 1), FatByte(g, vol, c * 4 + 2),
      FatByte(g, vol, c * 4 + 3)) % 0x1000_0000 == 0
  }

  lemma RawInside(g: Geometry, disk: nat, c: nat)
    requires ValidGeometry(g, disk) && g.fsType != FAT12 && c < g.nFatent
    ensures var w := EntryWidth(g.fsType);
      c * w + w <= g.fsize * 512 &&
      g.fatbase + (c * w + w - 1) / 512 < g.fatbase + g.fsize <= disk
  {
  }

  /** The reserved bits do not count. */
  lemma RawIsEntry(g: Geometry, vol: seq<Sector>, c: nat)
    requires ValidGeometry(g, |vol|) && g.fsType != FAT12 && HasEntry(g, c)
    ensures RawZero(g, vol, c) <==> Entry(g, vol, c) == 0
  {
    hide FatByte, ValidGeometry, Word, Dword, Unpack28;
    EntryInside(g, |vol|, c);
    RawInside(g, |vol|, c);
    if g.fsType == FAT32 {
      Masked(FatByte(g, vol, c * 4), FatByte(g, vol, c * 4 + 1), FatByte(g, vol, c * 4 + 2),
        FatByte(g, vol, c * 4 + 3));
    }
  }

  lemma Masked(b0: byte, b1: byte, b2: byte, b3: byte)
    ensures Dword(b0, b1, b2, b3) % 0x1000_0000 == Unpack28(b0, b1, b2, b3)
  {
    DivMod(Dword(b0, b1, b2, b3), 0x1000_0000, b3 / 16, Unpack28(b0, b1, b2, b3));
  }

  /** Zero entries below n, the reserved ones included. */
  function RawBelow(g: Geometry, vol: seq<Sector>, n: nat): (k: nat)
    requires ValidGeometry(g, |vol|) && g.fsType != FAT12 && n <= g.nFatent
    ensures k <= n
  {
    if n == 0 then 0 else RawBelow(g, vol, n - 1) + if RawZero(g, vol, n - 1) then 1 else 0
  }

  /** Reserved entries that are zero and so counted as if they were clusters. */
  function Surplus(g: Geometry, vol: seq<Sector>): nat
    requires ValidGeometry(g, |vol|)
  {
    if g.fsType == FAT12 then 0 else RawBelow(g, vol, 2)
  }

  lemma {:induction false} RawCount(g: Geometry, vol: seq<Sector>, fat: seq<nat>, n: nat)
    requires ValidGeometry(g, |vol|) && g.fsType != FAT12 && Decodes(g, vol, fat) && 2 <= n <= g.nFatent
    ensures RawBelow(g, vol, n) == RawBelow(g, vol, 2) + FreeBelow(fat, n)
  {
    hide RawZero, Entry;
    if n > 2 {
      RawCount(g, vol, fat, n - 1);
      RawIsEntry(g, vol, n - 1);
    }
  }

  /** The FAT12 scan: entry by entry. */
  method ScanEntries(fs: Fatfs) returns (res: FResult, nfree: nat)
    requires Valid(fs)
    modifies fs`winsect, fs`wflag, fs.win, fs.disk`img
    ensures Valid(fs) && (res == OK || (res == DiskErr && !fs.disk.reliable) || (res == IntErr && !NoOnes(fs.fat)))
    ensures res == OK ==> nfree == CountFree(fs.fat)
    ensures nfree < 0x1_0000_0000
  {
    hide Valid, NoOnes;
    ValidFacts(fs);
    nfree := 0;
    var clst := 2;
    while true
      invariant Valid(fs) && 2 <= clst < fs.geo.nFatent == |fs.fat|
      invariant nfree == FreeBelow(fs.fat, clst)
      decreases fs.geo.nFatent - clst
    {
      var stat := GetFat(fs, clst);
      if stat == ERR32 { return DiskErr, nfree; }
      if stat == 1 { OneFound(fs.fat, clst); return IntErr, nfree; }
      if stat == 0 { nfree := nfree + 1; }
      clst := clst + 1;
      if clst == fs.geo.nFatent { break; }
    }
    res := OK;
  }

  /** The FAT16/32 scan: sector by sector. */
  method ScanSectors(fs: Fatfs) returns (res: FResult, nfree: nat)
    requires Valid(fs) && fs.geo.fsType != FAT12
    modifies fs`winsect, fs`wflag, fs.win, fs.disk`img
    ensures Valid(fs) && ValidGeometry(fs.geo, |fs.vol|) && (res == OK || (res == DiskErr && !fs.disk.reliable))
    ensures res == OK ==> nfree == CountFree(fs.fat) + Surplus(fs.geo, fs.vol)
    ensures nfree < 0x1_0000_0000
  {
    hide Valid, ValidGeometry, RawZero, RawBelow, Touched, CountFree, Surplus;
    ValidFacts(fs);
    ghost var g := fs.geo;
    nfree := 0;
    var clst, sect, i, p := fs.geo.nFatent, fs.geo.fatbase, 0, 0;
    var w := EntryWidth(fs.geo.fsType);
    ghost var c, k := 0, 0;
    RawNone(g, fs.vol);
    SectorOf(0);
    while true
      invariant Valid(fs) && ValidGeometry(g, |fs.vol|) && fs.vol == old(fs.vol) && |fs.fat| == g.nFatent <= 0x0FFF_FFF7
      invariant c + clst == g.nFatent && 0 < clst && nfree == RawBelow(g, fs.vol, c) <= c && k == c * w
      invariant i == 0 || (i + p == 512 && fs.winsect == g.fatbase + k / 512 && p == k % 512)
      invariant i == 0 <==> k % 512 == 0
      invariant sect == g.fatbase + Touched(k)
      decreases clst
    {
      RawInside(g, |fs.vol|, c);
      SectorOf(k);
      NextEntry(c, w, k);
      if i == 0 {
        res := ShowFat(fs, sect);
        sect := sect + 1;
        if res != OK { return; }
        p, i := 0, 512;
      }
      var zero := EntryIsZero(fs, c, k, p);
      if zero { nfree := nfree + 1; }
      p, i := p + w, i - w;
      RawStep(g, fs.vol, c);
      clst, c, k := clst - 1, c + 1, k + w;
      if clst == 0 { break; }
    }
    RawTotal(fs);
    res := OK;
  }

  lemma RawTotal(fs: Fatfs)
    requires Valid(fs) && ValidGeometry(fs.geo, |fs.vol|) && fs.geo.fsType != FAT12
    ensures RawBelow(fs.geo, fs.vol, fs.geo.nFatent) == CountFree(fs.fat) + Surplus(fs.geo, fs.vol)
  {
    hide Entry, RawZero;
    ValidFacts(fs);
    RawCount(fs.geo, fs.vol, fs.fat, fs.geo.nFatent);
  }

  lemma RawNone(g: Geometry, vol: seq<Sector>)
    requires ValidGeometry(g, |vol|) && g.fsType != FAT12
    ensures RawBelow(g, vol, 0) == 0
  {
  }

  lemma RawStep(g: Geometry, vol: seq<Sector>, c: nat)
    requires ValidGeometry(g, |vol|) && g.fsType != FAT12 && c < g.nFatent
    ensures RawBelow(g, vol, c + 1) == RawBelow(g, vol, c) + if RawZero(g, vol, c) then 1 else 0
  {
  }

  lemma SectorOf(k: nat)
    ensures Touched(k) == if k % 512 == 0 then k / 512 else k / 512 + 1
  {
  }

  /** Sectors that hold the first k bytes. */
  function Touched(k: nat): nat { (k + 511) / 512 }

  lemma Aligned(c: nat, w: nat, k: nat)
    requires (w == 2 || w == 4) && k == c * w
    ensures (c + 1) * w == k + w && k % 512 + w <= 512
  {
    var q := k / 512;
    if w == 2 { assert k % 512 == 2 * (c - 256 * q); } else { assert k % 512 == 4 * (c - 128 * q); }
  }

  /** Entries do not straddle sectors. */
  lemma NextEntry(c: nat, w: nat, k: nat)
    requires (w == 2 || w == 4) && k == c * w
    ensures (c + 1) * w == k + w && k % 512 + w <= 512
    ensures k % 512 + w == 512 ==> (k + w) % 512 == 0
    ensures k % 512 + w < 512 ==> (k + w) / 512 == k / 512 && (k + w) % 512 == k % 512 + w
    ensures k % 512 + w < 512 ==> (k + w) % 512 != 0
    ensures Touched(k + w) == k / 512 + 1
  {
    Aligned(c, w, k);
    StepIn(k, w);
  }

  lemma StepIn(k: nat, w: nat)
    requires 0 < w <= 4 && k % 512 + w <= 512
    ensures k % 512 + w == 512 ==> (k + w) % 512 == 0
    ensures k % 512 + w < 512 ==> (k + w) / 512 == k / 512 && (k + w) % 512 == k % 512 + w
    ensures Touched(k + w) == k / 512 + 1
  {
  }

  method ShowFat(fs: Fatfs, sect: nat) returns (res: FResult)
    requires Valid(fs) && InFat(fs.geo, sect)
    modifies fs`winsect, fs`wflag, fs.win, fs.disk`img
    ensures Valid(fs) && (res == OK || (res == DiskErr && !fs.disk.reliable))
    ensures res == OK ==> fs.winsect == sect
  {
    hide Entry, ValidGeometry;
    Areas(fs.geo, |fs.vol|);
    res := ShowSector(fs, sect);
  }

  /** ld_word and ld_dword on the entry at offset p of the window. */
  method EntryIsZero(fs: Fatfs, ghost c: nat, ghost k: nat, p: nat) returns (zero: bool)
    requires Valid(fs) && fs.geo.fsType != FAT12 && c < fs.geo.nFatent && ValidGeometry(fs.geo, |fs.vol|)
    requires k == c * EntryWidth(fs.geo.fsType) && p == k % 512 && fs.winsect == fs.geo.fatbase + k / 512
    ensures zero == RawZero(fs.geo, fs.vol, c)
  {
    hide Decodes, ValidGeometry, FatByte, Fatfs.Coherent, Word, Dword;
    RawInside(fs.geo, |fs.vol|, c);
    NextEntry(c, EntryWidth(fs.geo.fsType), k);
    ByteShown(fs, k, 0);
    ByteShown(fs, k, 1);
    if fs.geo.fsType == FAT16 {
      zero := Word(fs.win[p], fs.win[p + 1]) == 0;
    } else {
      ByteShown(fs, k, 2);
      ByteShown(fs, k, 3);
      zero := Dword(fs.win[p], fs.win[p + 1], fs.win[p + 2], fs.win[p + 3]) % 0x1000_0000 == 0;
    }
  }

  /** Bytes of the FAT sector in the window. */
  lemma ByteShown(fs: Fatfs, k: nat, j: nat)
    requires fs.Coherent() && k % 512 + j < 512 && k / 512 < fs.geo.fsize && fs.winsect == fs.geo.fatbase + k / 512
    ensures fs.win.Length == 512 && fs.geo.fatbase + (k + j) / 512 < |fs.vol| &&
      fs.win[k % 512 + j] == FatByte(fs.geo, fs.vol, k + j)
  {
    Areas(fs.geo, |fs.vol|);
    assert (k + j) / 512 == k / 512 && (k + j) % 512 == k % 512 + j;
    assert fs.win[..][k % 512 + j] == fs.win[k % 512 + j];
  }

  /**
    f_getfree on a mounted volume. A stored count in range is returned as it is, right or wrong;
    otherwise the FAT is scanned and the count stored, even a partial one when the scan fails.
  */
  method GetFree(fs: Fatfs) returns (res: FResult, nclst: nat)
    requires Valid(fs) && FreeCountOk(fs)
    modifies fs`winsect, fs`wflag, fs`freeClst, fs`fsiFlag, fs.win, fs.disk`img
    ensures Valid(fs) && ValidGeometry(fs.geo, |fs.vol|)
    ensures res == OK || (res == DiskErr && !fs.disk.reliable) || (res == IntErr && !NoOnes(fs.fat))
    ensures old(fs.freeClst) <= fs.geo.nFatent - 2 ==>
      res == OK && nclst == old(fs.freeClst) && FreeCountOk(fs) && (fs.exact ==> nclst == CountFree(fs.fat))
    ensures res == OK && old(fs.freeClst) > fs.geo.nFatent - 2 ==> nclst == CountFree(fs.fat) + Surplus(fs.geo, fs.vol)
    ensures res == OK && old(fs.freeClst) > fs.geo.nFatent - 2 && Surplus(fs.geo, fs.vol) == 0 ==> FreeCountOk(fs)
    ensures res == OK ==> fs.freeClst == nclst
    ensures res == OK && old(fs.freeClst) > fs.geo.nFatent - 2 ==> fs.fsiFlag == SetDirty(old(fs.fsiFlag))
  {
    hide Valid, NoOnes, CountFree;
    ValidFacts(fs);
    if fs.freeClst <= fs.geo.nFatent - 2 { return OK, fs.freeClst; }
    if fs.geo.fsType == FAT12 {
      res, nclst := ScanEntries(fs);
    } else {
      res, nclst := ScanSectors(fs);
    }
    fs.freeClst := nclst;
    fs.fsiFlag := SetDirty(fs.fsiFlag);
  }

  /** The sector-stepping scan counts right exactly if neither reserved entry is zero. */
  lemma SurplusZero(g: Geometry, vol: seq<Sector>)
    requires ValidGeometry(g, |vol|)
    ensures Surplus(g, vol) == 0 <==> g.fsType == FAT12 || (!RawZero(g, vol, 0) && !RawZero(g, vol, 1))
  {
    hide RawZero;
    if g.fsType != FAT12 { RawStep(g, vol, 0); RawStep(g, vol, 1); RawNone(g, vol); }
  }

  /** Allocation and removal leave the reserved entries alone, so the count stays as right or wrong as it was. */
  lemma SurplusKept(g: Geometry, vol: seq<Sector>, vol': seq<Sector>)
    requires ValidGeometry(g, |vol|) && |vol'| == |vol| && KeepsReserved(g, vol, vol')
    ensures Surplus(g, vol') == Surplus(g, vol)
  {
    hide Word, Dword, FatBytes, Times, RawZero;
    if g.fsType != FAT12 {
      RawInside(g, |vol|, 1);
      forall k: nat | k < EntryOffset(g.fsType, 2) ensures FatByte(g, vol', k) == FatByte(g, vol, k) {
        assert vol'[g.fatbase][..EntryOffset(g.fsType, 2)][k] == vol[g.fatbase][..EntryOffset(g.fsType, 2)][k];
      }
      RawSame(g, vol, vol', 0);
      RawSame(g, vol, vol', 1);
      assert RawBelow(g, vol', 1) == RawBelow(g, vol, 1);
    }
  }

  lemma RawSame(g: Geometry, vol: seq<Sector>, vol': seq<Sector>, c: nat)
    requires ValidGeometry(g, |vol|) && |vol'| == |vol| && g.fsType != FAT12 && c < 2 < g.nFatent
    requires forall k: nat | k < EntryOffset(g.fsType, 2) && g.fatbase + k / 512 < |vol| ::
      FatByte(g, vol', k) == FatByte(g, vol, k)
    ensures RawZero(g, vol', c) == RawZero(g, vol, c)
  {
    hide Word, Dword, FatByte, ValidGeometry;
    RawInside(g, |vol|, c);
  }
}
