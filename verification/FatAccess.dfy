/** get_fat and put_fat: FAT entries accessed through the window. */
module FatAccess {
  import opened FatTypes
  import opened Window
  import opened FatEntries

  /** The promised links are in the volume and, if sectors are written as a whole, on the disk. */
  ghost predicate Held(fs: Fatfs)
    reads fs`vol, fs`promise, fs.disk
  {
    && ValidGeometry(fs.geo, |fs.vol|) && |fs.disk.img| == |fs.vol| && HasLinks(fs.geo, fs.vol, fs.promise.links)
    && (fs.disk.atomic ==> HasLinks(fs.geo, fs.disk.img, fs.promise.links))
  }

  /** A coherent volume whose ghost FAT is what the logical sectors hold. */
  ghost predicate Valid(fs: Fatfs)
    reads fs`winsect, fs`wflag, fs`vol, fs`fat, fs`promise, fs`fsiCount, fs.win, fs.disk
  {
    fs.Coherent() && Decodes(fs.geo, fs.vol, fs.fat) && Held(fs)
  }

  /** Writing the window back takes no link from the disk. */
  lemma CaughtHeld(fs: Fatfs, img: seq<Sector>)
    requires ValidGeometry(fs.geo, |fs.vol|) && |img| == |fs.disk.img| == |fs.vol|
    requires HasLinks(fs.geo, fs.vol, fs.promise.links)
    requires fs.disk.atomic ==> HasLinks(fs.geo, img, fs.promise.links) && Caught(fs.geo, img, fs.disk.img, fs.vol)
    ensures Held(fs)
  {
    hide HasLinks;
    Areas(fs.geo, |fs.vol|);
    if fs.disk.atomic { LinksMixed(fs.geo, img, fs.vol, fs.disk.img, fs.promise.links); }
  }

  /** p promises no more than q. */
  ghost predicate Weaker(p: Promise, q: Promise) {
    && (forall s | s in p.secs :: s in q.secs && p.secs[s] == q.secs[s])
    && (forall c | c in p.links :: c in q.links && p.links[c] == q.links[c])
  }

  function NoPromise(): Promise { Promise(map[], map[]) }

  /** Part of a promise is given up. */
  ghost method Release(fs: Fatfs, p: Promise)
    requires Valid(fs) && Weaker(p, fs.promise)
    modifies fs`promise
    ensures Valid(fs) && fs.promise == p
  {
    hide Decodes, Entry, ValidGeometry, Copies, SaysFree, Shadow;
    fs.promise := p;
  }

  /** Something new is promised. */
  ghost method Renew(fs: Fatfs, p: Promise)
    requires Valid(fs) && ValidGeometry(fs.geo, |fs.vol|) && |fs.disk.img| == |fs.vol|
    requires Keeps(fs.geo, fs.vol, p.secs, if fs.wflag then fs.winsect else ERR32)
    requires HasLinks(fs.geo, fs.vol, p.links) && HasLinks(fs.geo, fs.disk.img, p.links)
    modifies fs`promise
    ensures Valid(fs) && fs.promise == p
  {
    hide Decodes, HasLinks, ValidGeometry, Copies, SaysFree, Shadow, Keeps;
    fs.promise := p;
  }

  /** Nor does a change outside the FAT. */
  lemma HeldFrame(fs: Fatfs, vol: seq<Sector>, img: seq<Sector>)
    requires ValidGeometry(fs.geo, |vol|) && |img| == |vol| == |fs.vol| == |fs.disk.img|
    requires HasLinks(fs.geo, vol, fs.promise.links) && (fs.disk.atomic ==> HasLinks(fs.geo, img, fs.promise.links))
    requires forall s: nat | InFat(fs.geo, s) && s < |vol| :: fs.vol[s] == vol[s] && fs.disk.img[s] == img[s]
    ensures Held(fs)
  {
    hide HasLinks;
    Areas(fs.geo, |fs.vol|);
    LinksFrame(fs.geo, vol, fs.vol, fs.promise.links);
    if fs.disk.atomic { LinksFrame(fs.geo, img, fs.disk.img, fs.promise.links); }
  }

  ghost predicate FatHas(g: Geometry, fat: seq<nat>, links: map<nat, nat>) {
    forall c | c in links :: HasEntry(g, c) && 2 <= links[c] < g.nFatent && c < |fat| && fat[c] == links[c]
  }

  /** An entry that is none of the promised links was stored. */
  lemma HeldStored(fs: Fatfs, fat: seq<nat>, c: nat, v: nat)
    requires ValidGeometry(fs.geo, |fs.vol|) && |fs.disk.img| == |fs.vol| && c < |fat|
    requires Decodes(fs.geo, fs.vol, fat[c := v]) && FatHas(fs.geo, fat, fs.promise.links) && c !in fs.promise.links
    requires fs.disk.atomic ==> HasLinks(fs.geo, fs.disk.img, fs.promise.links)
    ensures Held(fs)
  {
    hide Entry;
  }

  lemma HeldFat(fs: Fatfs)
    requires Valid(fs)
    ensures FatHas(fs.geo, fs.fat, fs.promise.links)
  {
    hide Entry;
  }

  /** move_window and sync_window on a volume with its FAT. */
  method ShowSector(fs: Fatfs, sector: nat) returns (res: FResult)
    requires Valid(fs) && sector < |fs.disk.img| && !InMirror(fs.geo, sector)
    modifies fs`winsect, fs`wflag, fs.win, fs.disk`img
    ensures Valid(fs)
    ensures res == OK || (res == DiskErr && !fs.disk.reliable)
    ensures res == OK ==> fs.winsect == sector && (!IsFsInfo(fs.geo, sector) ==> fs.win[..] == fs.vol[sector])
    ensures res == OK && sector == old(fs.winsect) ==> fs.wflag == old(fs.wflag)
    ensures (res == OK && sector != old(fs.winsect)) || !old(fs.wflag) ==> !fs.wflag
    ensures !old(fs.wflag) ==> fs.disk.img == old(fs.disk.img)
    ensures fs.winsect == sector || fs.winsect == old(fs.winsect) || fs.winsect == ERR32
  {
    hide Decodes, Fatfs.Coherent, HasLinks, ValidGeometry;
    CoherentFacts(fs);
    ghost var img := fs.disk.img;
    res := MoveWindow(fs, sector);
    CoherentSize(fs);
    CaughtHeld(fs, img);
  }

  method FlushWindow(fs: Fatfs) returns (res: FResult)
    requires Valid(fs)
    modifies fs`wflag, fs.disk`img
    ensures Valid(fs)
    ensures res == OK || (res == DiskErr && fs.wflag == old(fs.wflag) && !fs.disk.reliable)
    ensures res == OK || !old(fs.wflag) ==> !fs.wflag
    ensures !old(fs.wflag) ==> fs.disk.img == old(fs.disk.img)
    ensures fs.disk.atomic ==> Caught(fs.geo, old(fs.disk.img), fs.disk.img, fs.vol)
  {
    hide Decodes, Fatfs.Coherent, HasLinks, ValidGeometry;
    CoherentFacts(fs);
    ghost var img := fs.disk.img;
    res := SyncWindow(fs);
    CoherentSize(fs);
    CaughtHeld(fs, img);
  }

  lemma CoherentSize(fs: Fatfs)
    requires fs.Coherent()
    ensures |fs.vol| == |fs.disk.img| && ValidGeometry(fs.geo, |fs.vol|)
  {
  }

  lemma CoherentFacts(fs: Fatfs)
    requires Valid(fs)
    ensures |fs.vol| == |fs.disk.img| && ValidGeometry(fs.geo, |fs.vol|) && |fs.fat| == fs.geo.nFatent
  {
  }

  /** Reads an entry: 1 for a number out of range, ERR32 for a disk error. */
  method GetFat(fs: Fatfs, clst: nat) returns (val: dword)
    requires Valid(fs)
    modifies fs`winsect, fs`wflag, fs.win, fs.disk`img
    ensures Valid(fs)
    ensures !HasEntry(fs.geo, clst) ==> val == 1
    ensures HasEntry(fs.geo, clst) ==> val == fs.fat[clst] < 0x1000_0000 || val == ERR32
    ensures fs.disk.reliable ==> val != ERR32
    ensures fs.winsect == old(fs.winsect) || fs.winsect == ERR32 || InFat(fs.geo, fs.winsect)
    ensures !old(fs.wflag) ==> !fs.wflag && fs.disk.img == old(fs.disk.img)
  {
    if !HasEntry(fs.geo, clst) { return 1; }
    match fs.geo.fsType
    case FAT12 => val := GetFat12(fs, clst);
    case FAT16 => val := GetFat16(fs, clst);
    case FAT32 => val := GetFat32(fs, clst);
  }

  /** move_window to the sector of FAT byte k, then a load through the window. */
  method LoadFatByte(fs: Fatfs, k: nat) returns (res: FResult, b: byte)
    requires fs.Coherent() && Held(fs) && k < fs.geo.fsize * 512
    modifies fs`winsect, fs`wflag, fs.win, fs.disk`img
    ensures fs.Coherent() && Held(fs)
    ensures res == OK || (res == DiskErr && !fs.disk.reliable)
    ensures res == OK ==> fs.winsect == fs.geo.fatbase + k / 512 && b == FatByte(fs.geo, fs.vol, k)
    ensures fs.winsect == old(fs.winsect) || fs.winsect == ERR32 || InFat(fs.geo, fs.winsect)
    ensures !old(fs.wflag) ==> !fs.wflag && fs.disk.img == old(fs.disk.img)
  {
    hide HasLinks;
    b := 0;
    ghost var img := fs.disk.img;
    res := MoveWindow(fs, fs.geo.fatbase + k / 512);
    CaughtHeld(fs, img);
    if res == OK { b := fs.win[k % 512]; }
  }

  /** Another byte of the FAT sector already in the window. */
  method PeekFatByte(fs: Fatfs, k: nat) returns (b: byte)
    requires fs.Coherent() && k < fs.geo.fsize * 512 && fs.winsect == fs.geo.fatbase + k / 512
    ensures b == FatByte(fs.geo, fs.vol, k)
  {
    b := fs.win[k % 512];
  }

  /** Stores FAT bytes from k on through the window that shows their sector (st_word, st_dword). */
  method StoreFatBytes(fs: Fatfs, k: nat, data: seq<byte>)
    requires fs.Coherent() && data != [] && k + |data| <= fs.geo.fsize * 512
    requires fs.winsect == fs.geo.fatbase + k / 512 && k % 512 + |data| <= 512
    modifies fs`wflag, fs`vol, fs.win
    ensures fs.Coherent() && fs.wflag && |fs.vol| == |old(fs.vol)|
    ensures OnlyBytes(fs.geo, old(fs.vol), fs.vol, k, |data|) && SameOutsideFat(fs.geo, old(fs.vol), fs.vol)
    ensures forall i: nat | k <= i < k + |data| :: FatByte(fs.geo, fs.vol, i) == data[i - k]
  {
    assert InFat(fs.geo, fs.winsect);
    PokeWindow(fs, k % 512, data);
    BytesStored(fs.geo, old(fs.vol), fs.vol, k, data);
  }

  /** FAT16 and FAT32 entries do not straddle sectors. */
  lemma EntryAligned(c: nat)
    ensures (c * 2 + 1) / 512 == c * 2 / 512 && c * 2 % 512 + 2 <= 512
    ensures (c * 4 + 1) / 512 == (c * 4 + 2) / 512 == (c * 4 + 3) / 512 == c * 4 / 512 && c * 4 % 512 + 4 <= 512
  {
    AlignedTo(c * 2, c - 256 * (c * 2 / 512), 2, 1);
    AlignedTo(c * 4, c - 128 * (c * 4 / 512), 4, 1);
    AlignedTo(c * 4, c - 128 * (c * 4 / 512), 4, 2);
    AlignedTo(c * 4, c - 128 * (c * 4 / 512), 4, 3);
  }

  lemma AlignedTo(k: nat, r: int, w: nat, j: nat)
    requires (w == 2 || w == 4) && k % 512 == r * w && j < w
    ensures k % 512 + w <= 512 && (k + j) / 512 == k / 512
  {
  }

  method GetFat12(fs: Fatfs, clst: nat) returns (val: dword)
    requires Valid(fs) && HasEntry(fs.geo, clst) && fs.geo.fsType == FAT12
    modifies fs`winsect, fs`wflag, fs.win, fs.disk`img
    ensures Valid(fs)
    ensures val == fs.fat[clst] < 0x1000_0000 || (val == ERR32 && !fs.disk.reliable)
    ensures fs.winsect == old(fs.winsect) || fs.winsect == ERR32 || InFat(fs.geo, fs.winsect)
    ensures !old(fs.wflag) ==> !fs.wflag && fs.disk.img == old(fs.disk.img)
  {
    hide FatByte, Pack12Low, Pack12High, Unpack12, Byte0, Byte1, Byte2, Pack28Top, Unpack28, Word;
    hide Fatfs.Coherent, ValidGeometry, Mask;
    CoherentFacts(fs);
    EntryInside(fs.geo, |fs.vol|, clst);
    var bc := clst + clst / 2;
    var res, b0 := LoadFatByte(fs, bc);
    if res != OK { return ERR32; }
    var b1;
    res, b1 := LoadFatByte(fs, bc + 1);
    if res != OK { return ERR32; }
    val := Unpack12(clst, b0, b1);
  }

  method GetFat16(fs: Fatfs, clst: nat) returns (val: dword)
    requires Valid(fs) && HasEntry(fs.geo, clst) && fs.geo.fsType == FAT16
    modifies fs`winsect, fs`wflag, fs.win, fs.disk`img
    ensures Valid(fs)
    ensures val == fs.fat[clst] < 0x1000_0000 || (val == ERR32 && !fs.disk.reliable)
    ensures fs.winsect == old(fs.winsect) || fs.winsect == ERR32 || InFat(fs.geo, fs.winsect)
    ensures !old(fs.wflag) ==> !fs.wflag && fs.disk.img == old(fs.disk.img)
  {
    hide FatByte, Pack12Low, Pack12High, Unpack12, Byte0, Byte1, Byte2, Pack28Top, Unpack28, Word;
    hide Fatfs.Coherent, ValidGeometry, Mask;
    CoherentFacts(fs);
    EntryAligned(clst);
    EntryInside(fs.geo, |fs.vol|, clst);
    var res, b0 := LoadFatByte(fs, clst * 2);
    if res != OK { return ERR32; }
    var b1 := PeekFatByte(fs, clst * 2 + 1);
    val := Word(b0, b1);
  }

  method GetFat32(fs: Fatfs, clst: nat) returns (val: dword)
    requires Valid(fs) && HasEntry(fs.geo, clst) && fs.geo.fsType == FAT32
    modifies fs`winsect, fs`wflag, fs.win, fs.disk`img
    ensures Valid(fs)
    ensures val == fs.fat[clst] < 0x1000_0000 || (val == ERR32 && !fs.disk.reliable)
    ensures fs.winsect == old(fs.winsect) || fs.winsect == ERR32 || InFat(fs.geo, fs.winsect)
    ensures !old(fs.wflag) ==> !fs.wflag && fs.disk.img == old(fs.disk.img)
  {
    hide FatByte, Pack12Low, Pack12High, Unpack12, Byte0, Byte1, Byte2, Pack28Top, Unpack28, Word;
    hide Fatfs.Coherent, ValidGeometry, Mask;
    CoherentFacts(fs);
    EntryAligned(clst);
    EntryInside(fs.geo, |fs.vol|, clst);
    var res, b0 := LoadFatByte(fs, clst * 4);
    if res != OK { return ERR32; }
    var b1 := PeekFatByte(fs, clst * 4 + 1);
    var b2 := PeekFatByte(fs, clst * 4 + 2);
    var b3 := PeekFatByte(fs, clst * 4 + 3);
    val := Unpack28(b0, b1, b2, b3);
  }

  lemma Unchanged(g: Geometry, vol: seq<Sector>)
    ensures SameOutsideFat(g, vol, vol) && KeepsReserved(g, vol, vol)
  {
  }

  /** Changes an entry, keeping the bits it shares with other data. */
  method PutFat(fs: Fatfs, clst: nat, val: dword) returns (res: FResult)
    requires Valid(fs) && clst !in fs.promise.links
    modifies fs`winsect, fs`wflag, fs`vol, fs`fat, fs.win, fs.disk`img
    ensures Valid(fs)
    ensures |fs.vol| == |old(fs.vol)| && SameOutsideFat(fs.geo, old(fs.vol), fs.vol)
    ensures !HasEntry(fs.geo, clst) ==> res == IntErr && fs.fat == old(fs.fat) && fs.vol == old(fs.vol)
    ensures HasEntry(fs.geo, clst) ==> res == OK || res == DiskErr
    ensures res == DiskErr && fs.geo.fsType != FAT12 ==> fs.vol == old(fs.vol) && fs.fat == old(fs.fat)
    ensures res == OK ==> fs.fat == old(fs.fat)[clst := Mask(fs.geo.fsType, val)]
    ensures HasEntry(fs.geo, clst) ==> |fs.fat| == |old(fs.fat)| > clst && fs.fat == old(fs.fat)[clst := fs.fat[clst]]
    ensures HasEntry(fs.geo, clst) ==>
      OnlyBytes(fs.geo, old(fs.vol), fs.vol, EntryOffset(fs.geo.fsType, clst), EntryWidth(fs.geo.fsType))
    ensures res == OK ==> Stored(fs.geo, old(fs.vol), fs.vol, clst, val)
    ensures KeepsReserved(fs.geo, old(fs.vol), fs.vol)
    ensures fs.disk.reliable ==> res != DiskErr
    ensures fs.winsect == old(fs.winsect) || fs.winsect == ERR32 || InFat(fs.geo, fs.winsect)
  {
    hide Fatfs.Coherent, ValidGeometry, Stored, OnlyBytes, KeepsReserved, Decodes, Mask, SameOutsideFat;
    CoherentFacts(fs);
    if !HasEntry(fs.geo, clst) {
      Unchanged(fs.geo, fs.vol);
      return IntErr;
    }
    ghost var was := fs.vol;
    match fs.geo.fsType {
      case FAT12 => res := PutFat12(fs, clst, val);
      case FAT16 => res := PutFat16(fs, clst, val);
      case FAT32 => res := PutFat32(fs, clst, val);
    }
    ReservedKept(fs.geo, was, fs.vol, clst);
  }

  /** Two single-byte updates; a window move between them may fail with the first one kept. */
  method PutFat12(fs: Fatfs, clst: nat, val: dword) returns (res: FResult)
    requires Valid(fs) && HasEntry(fs.geo, clst) && fs.geo.fsType == FAT12 && clst !in fs.promise.links
    modifies fs`winsect, fs`wflag, fs`vol, fs`fat, fs.win, fs.disk`img
    ensures Valid(fs)
    ensures |fs.vol| == |old(fs.vol)| && SameOutsideFat(fs.geo, old(fs.vol), fs.vol)
    ensures res == OK || (res == DiskErr && !fs.disk.reliable)
    ensures OnlyBytes(fs.geo, old(fs.vol), fs.vol, EntryOffset(fs.geo.fsType, clst), EntryWidth(fs.geo.fsType))
    ensures res == OK ==> Stored(fs.geo, old(fs.vol), fs.vol, clst, val)
    ensures res == OK ==> fs.fat == old(fs.fat)[clst := Mask(fs.geo.fsType, val)]
    ensures HasEntry(fs.geo, clst) ==> |fs.fat| == |old(fs.fat)| > clst && fs.fat == old(fs.fat)[clst := fs.fat[clst]]
    ensures fs.winsect == old(fs.winsect) || fs.winsect == ERR32 || InFat(fs.geo, fs.winsect)
  {
    hide FatByte, Pack12Low, Pack12High, Unpack12, Byte0, Byte1, Byte2, Pack28Top, Unpack28, Word;
    hide Fatfs.Coherent, ValidGeometry, Mask, Decodes, HasLinks, FatHas;
    CoherentFacts(fs);
    HeldFat(fs);
    EntryInside(fs.geo, |fs.vol|, clst);
    ghost var g, was := fs.geo, fs.vol;
    var bc := clst + clst / 2;
    var b;
    res, b := LoadFatByte(fs, bc);
    if res != OK { return; }
    StoreFatBytes(fs, bc, [Pack12Low(clst, val, b)]);
    ghost var half := fs.vol;
    HalfStored12(g, was, half, clst, val, fs.fat);
    HeldStored(fs, fs.fat, clst, Entry(g, half, clst));
    res, b := LoadFatByte(fs, bc + 1);
    if res != OK {
      fs.fat := fs.fat[clst := Entry(g, half, clst)];
      return;
    }
    StoreFatBytes(fs, bc + 1, [Pack12High(clst, val, b)]);
    StoredDecodes(g, was, fs.vol, clst, val, fs.fat);
    HeldStored(fs, fs.fat, clst, Mask(FAT12, val));
    fs.fat := fs.fat[clst := Mask(FAT12, val)];
  }

  method PutFat16(fs: Fatfs, clst: nat, val: dword) returns (res: FResult)
    requires Valid(fs) && HasEntry(fs.geo, clst) && fs.geo.fsType == FAT16 && clst !in fs.promise.links
    modifies fs`winsect, fs`wflag, fs`vol, fs`fat, fs.win, fs.disk`img
    ensures Valid(fs)
    ensures |fs.vol| == |old(fs.vol)| && SameOutsideFat(fs.geo, old(fs.vol), fs.vol)
    ensures res == OK || (res == DiskErr && !fs.disk.reliable && fs.fat == old(fs.fat) && fs.vol == old(fs.vol))
    ensures OnlyBytes(fs.geo, old(fs.vol), fs.vol, EntryOffset(fs.geo.fsType, clst), EntryWidth(fs.geo.fsType))
    ensures res == OK ==> Stored(fs.geo, old(fs.vol), fs.vol, clst, val)
    ensures res == OK ==> fs.fat == old(fs.fat)[clst := Mask(fs.geo.fsType, val)]
    ensures fs.winsect == old(fs.winsect) || fs.winsect == ERR32 || InFat(fs.geo, fs.winsect)
  {
    hide FatByte, Pack12Low, Pack12High, Unpack12, Byte0, Byte1, Byte2, Pack28Top, Unpack28, Word;
    hide Fatfs.Coherent, ValidGeometry, Mask, Decodes, HasLinks, FatHas;
    CoherentFacts(fs);
    HeldFat(fs);
    EntryAligned(clst);
    EntryInside(fs.geo, |fs.vol|, clst);
    ghost var g, was := fs.geo, fs.vol;
    var b;
    res, b := LoadFatByte(fs, clst * 2);
    if res != OK { return; }
    StoreFatBytes(fs, clst * 2, [Byte0(val), Byte1(val)]);
    StoredDecodes(g, was, fs.vol, clst, val, fs.fat);
    HeldStored(fs, fs.fat, clst, Mask(FAT16, val));
    fs.fat := fs.fat[clst := Mask(FAT16, val)];
  }

  /** The top four bits of a FAT32 entry are reserved and kept. */
  method PutFat32(fs: Fatfs, clst: nat, val: dword) returns (res: FResult)
    requires Valid(fs) && HasEntry(fs.geo, clst) && fs.geo.fsType == FAT32 && clst !in fs.promise.links
    modifies fs`winsect, fs`wflag, fs`vol, fs`fat, fs.win, fs.disk`img
    ensures Valid(fs)
    ensures |fs.vol| == |old(fs.vol)| && SameOutsideFat(fs.geo, old(fs.vol), fs.vol)
    ensures res == OK || (res == DiskErr && !fs.disk.reliable && fs.fat == old(fs.fat) && fs.vol == old(fs.vol))
    ensures OnlyBytes(fs.geo, old(fs.vol), fs.vol, EntryOffset(fs.geo.fsType, clst), EntryWidth(fs.geo.fsType))
    ensures res == OK ==> Stored(fs.geo, old(fs.vol), fs.vol, clst, val)
    ensures res == OK ==> fs.fat == old(fs.fat)[clst := Mask(fs.geo.fsType, val)]
    ensures fs.winsect == old(fs.winsect) || fs.winsect == ERR32 || InFat(fs.geo, fs.winsect)
  {
    hide FatByte, Pack12Low, Pack12High, Unpack12, Byte0, Byte1, Byte2, Pack28Top, Unpack28, Word;
    hide Fatfs.Coherent, ValidGeometry, Mask, Decodes, HasLinks, FatHas;
    CoherentFacts(fs);
    HeldFat(fs);
    EntryAligned(clst);
    EntryInside(fs.geo, |fs.vol|, clst);
    ghost var g, was := fs.geo, fs.vol;
    var b;
    res, b := LoadFatByte(fs, clst * 4);
    if res != OK { return; }
    var b3 := PeekFatByte(fs, clst * 4 + 3);
    var bytes := [Byte0(val), Byte1(val), Byte2(val), Pack28Top(val, b3)];
    StoreFatBytes(fs, clst * 4, bytes);
    Stored28(g, was, fs.vol, clst, val, bytes);
    StoredDecodes(g, was, fs.vol, clst, val, fs.fat);
    HeldStored(fs, fs.fat, clst, Mask(FAT32, val));
    fs.fat := fs.fat[clst := Mask(FAT32, val)];
  }
}
