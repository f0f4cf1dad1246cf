/** Packing of FAT entries into the bytes of the FAT area. */
module FatEntries {
  import opened FatTypes

  /** Byte k of FAT copy 1. */
  function FatByte(g: Geometry, vol: seq<Sector>, k: nat): byte
    requires g.fatbase + k / 512 < |vol|
  {
    vol[g.fatbase + k / 512][k % 512]
  }

  /** Offset of the first byte of entry c. */
  function EntryOffset(t: FsType, c: nat): nat {
    match t case FAT12 => c + c / 2 case FAT16 => c * 2 case FAT32 => c * 4
  }

  /** Number of bytes entry c touches. */
  function EntryWidth(t: FsType): nat {
    match t case FAT12 => 2 case FAT16 => 2 case FAT32 => 4
  }

  predicate HasEntry(g: Geometry, c: nat) { 2 <= c < g.nFatent }

  lemma EntryInside(g: Geometry, disk: nat, c: nat)
    requires ValidGeometry(g, disk) && HasEntry(g, c)
    ensures EntryOffset(g.fsType, c) + EntryWidth(g.fsType) <= g.fsize * 512
    ensures g.fatbase + (EntryOffset(g.fsType, c) + EntryWidth(g.fsType) - 1) / 512 < g.fatbase + g.fsize <=
      g.database <= disk
  {
  }

  function Unpack12(c: nat, b0: byte, b1: byte): (r: nat)
    ensures r < 0x1000
  {
    if c % 2 == 1 then (b0 + b1 * 0x100) / 16 else (b0 + b1 * 0x100) % 0x1000
  }

  function Unpack28(b0: byte, b1: byte, b2: byte, b3: byte): (r: nat)
    ensures r < 0x1000_0000
  {
    b0 + b1 * 0x100 + b2 * 0x1_0000 + (b3 % 16) * 0x100_0000
  }

  /** Value stored in entry c, read off the bytes. */
  function Entry(g: Geometry, vol: seq<Sector>, c: nat): nat
    requires ValidGeometry(g, |vol|) && HasEntry(g, c)
  {
    EntryInside(g, |vol|, c);
    var o := EntryOffset(g.fsType, c);
    match g.fsType
    case FAT12 => Unpack12(c, FatByte(g, vol, o), FatByte(g, vol, o + 1))
    case FAT16 => Word(FatByte(g, vol, o), FatByte(g, vol, o + 1))
    case FAT32 =>
      Unpack28(FatByte(g, vol, o), FatByte(g, vol, o + 1), FatByte(g, vol, o + 2), FatByte(g, vol, o + 3))
  }

  /** fat lists the entries of the volume, with 0 for the reserved ones. */
  ghost predicate Decodes(g: Geometry, vol: seq<Sector>, fat: seq<nat>)
    requires ValidGeometry(g, |vol|)
  {
    && |fat| == g.nFatent
    && (forall c: nat | HasEntry(g, c) :: fat[c] == Entry(g, vol, c))
    && forall c: nat | c < 2 && c < |fat| :: fat[c] == 0
  }

  /** The FAT as it is on a disk image. */
  function FatOf(g: Geometry, img: seq<Sector>): (fat: seq<nat>)
    requires ValidGeometry(g, |img|)
    ensures |fat| == g.nFatent
  {
    seq(g.nFatent, c requires 0 <= c < g.nFatent => if HasEntry(g, c) then Entry(g, img, c) else 0)
  }

  /** Width mask of put_fat. */
  function Mask(t: FsType, val: nat): nat {
    match t case FAT12 => val % 0x1000 case FAT16 => val % 0x1_0000 case FAT32 => val % 0x1000_0000
  }

  /** Entries depend on the FAT sectors only. */
  lemma DecodesFrame(g: Geometry, vol: seq<Sector>, vol': seq<Sector>, fat: seq<nat>)
    requires ValidGeometry(g, |vol|) && |vol'| == |vol|
    requires Decodes(g, vol, fat)
    requires forall s: nat | InFat(g, s) :: vol'[s] == vol[s]
    ensures Decodes(g, vol', fat)
  {
    forall c: nat | HasEntry(g, c) ensures fat[c] == Entry(g, vol', c) {
      EntryInside(g, |vol|, c);
    }
  }

  /** These links are in the FAT. */
  ghost predicate HasLinks(g: Geometry, vol: seq<Sector>, links: map<nat, nat>)
    requires ValidGeometry(g, |vol|)
  {
    forall c | c in links :: HasEntry(g, c) && 2 <= links[c] < g.nFatent && Entry(g, vol, c) == links[c]
  }

  /** The bytes of an entry are the same in both: it reads the same if they are taken from either. */
  lemma LinksMixed(g: Geometry, img: seq<Sector>, vol: seq<Sector>, img': seq<Sector>, links: map<nat, nat>)
    requires ValidGeometry(g, |vol|) && |img| == |img'| == |vol| && HasLinks(g, img, links) && HasLinks(g, vol, links)
    requires forall s: nat | InFat(g, s) :: img'[s] == img[s] || img'[s] == vol[s]
    ensures HasLinks(g, img', links)
  {
    hide Entry;
    forall c | c in links ensures Entry(g, img', c) == links[c] { EntryMixed(g, img, vol, img', c); }
  }

  lemma LinksFrame(g: Geometry, vol: seq<Sector>, vol': seq<Sector>, links: map<nat, nat>)
    requires ValidGeometry(g, |vol|) && |vol'| == |vol| && HasLinks(g, vol, links)
    requires forall s: nat | InFat(g, s) :: vol'[s] == vol[s]
    ensures HasLinks(g, vol', links)
  {
    LinksMixed(g, vol, vol, vol', links);
  }

  lemma EntryMixed(g: Geometry, img: seq<Sector>, vol: seq<Sector>, img': seq<Sector>, c: nat)
    requires ValidGeometry(g, |vol|) && |img| == |img'| == |vol| && HasEntry(g, c) &&
      Entry(g, img, c) == Entry(g, vol, c)
    requires forall s: nat | InFat(g, s) :: img'[s] == img[s] || img'[s] == vol[s]
    ensures Entry(g, img', c) == Entry(g, vol, c)
  {
    hide Unpack12, Unpack28, Word, ValidGeometry, FatByte;
    EntryInside(g, |vol|, c);
    var o := EntryOffset(g.fsType, c);
    OneSector(c);
    if g.fsType == FAT12 {
      Mixed12(c, FatByte(g, img, o), FatByte(g, img, o + 1), FatByte(g, vol, o), FatByte(g, vol, o + 1));
      ByteMixed(g, img, vol, img', o);
      ByteMixed(g, img, vol, img', o + 1);
    } else if img'[g.fatbase + o / 512] == img[g.fatbase + o / 512] {
      EntrySame(g, img, img', c);
    } else {
      EntrySame(g, vol, img', c);
    }
  }

  lemma ByteMixed(g: Geometry, img: seq<Sector>, vol: seq<Sector>, img': seq<Sector>, k: nat)
    requires |img| == |img'| == |vol| && k / 512 < g.fsize && g.fatbase + k / 512 < |vol|
    requires forall s: nat | InFat(g, s) :: s < |vol| ==> img'[s] == img[s] || img'[s] == vol[s]
    ensures FatByte(g, img', k) == FatByte(g, img, k) || FatByte(g, img', k) == FatByte(g, vol, k)
  {
    assert InFat(g, g.fatbase + k / 512);
  }

  lemma EntrySame(g: Geometry, vol: seq<Sector>, vol': seq<Sector>, c: nat)
    requires ValidGeometry(g, |vol|) && |vol'| == |vol| && HasEntry(g, c) && g.fsType != FAT12
    requires var s := g.fatbase + EntryOffset(g.fsType, c) / 512; s < |vol| ==> vol'[s] == vol[s]
    ensures Entry(g, vol', c) == Entry(g, vol, c)
  {
    hide Unpack12, Unpack28, Word, ValidGeometry;
    EntryInside(g, |vol|, c);
    OneSector(c);
  }

  /** The parts of a FAT12 entry are independent. */
  lemma Mixed12(c: nat, a0: byte, a1: byte, b0: byte, b1: byte)
    requires Unpack12(c, a0, a1) == Unpack12(c, b0, b1)
    ensures Unpack12(c, a0, b1) == Unpack12(c, b0, a1) == Unpack12(c, a0, a1)
  {
    hide Unpack12;
    Parts12(c, a0, a1);
    Parts12(c, a0, b1);
    Parts12(c, b0, a1);
    Parts12(c, b0, b1);
    if c % 2 == 1 { Nibbles(a1, a0 / 16, b1, b0 / 16); }
  }

  lemma Nibbles(h: nat, l: nat, h': nat, l': nat)
    requires h * 16 + l == h' * 16 + l' && l < 16 && l' < 16
    ensures h == h' && l == l'
  {
  }

  lemma Parts12(c: nat, b0: byte, b1: byte)
    ensures Unpack12(c, b0, b1) == if c % 2 == 1 then b1 * 16 + b0 / 16 else b1 % 16 * 0x100 + b0
  {
    if c % 2 == 1 {
      DivMod(b0 + b1 * 0x100, 16, b1 * 16 + b0 / 16, b0 % 16);
    } else {
      DivMod(b0 + b1 * 0x100, 0x1000, b1 / 16, b1 % 16 * 0x100 + b0);
    }
  }

  /** FAT16 and FAT32 entries do not straddle sectors. */
  lemma OneSector(c: nat)
    ensures (c * 2 + 1) / 512 == c * 2 / 512
    ensures (c * 4 + 1) / 512 == (c * 4 + 2) / 512 == (c * 4 + 3) / 512 == c * 4 / 512
  {
    var q, r := c / 256, c % 256;
    DivMod(c * 2 + 1, 512, q, r * 2 + 1);
    DivMod(c * 2, 512, q, r * 2);
    var p, t := c / 128, c % 128;
    DivMod(c * 4, 512, p, t * 4);
    DivMod(c * 4 + 1, 512, p, t * 4 + 1);
    DivMod(c * 4 + 2, 512, p, t * 4 + 2);
    DivMod(c * 4 + 3, 512, p, t * 4 + 3);
  }

  /** Every sector outside FAT copy 1 is the same. */
  ghost predicate SameOutsideFat(g: Geometry, vol: seq<Sector>, vol': seq<Sector>)
    requires |vol'| == |vol|
  {
    forall s: nat | s < |vol| && !InFat(g, s) :: vol'[s] == vol[s]
  }

  /** The reserved entries 0 and 1, which lie at the start of the FAT, are the same. */
  predicate KeepsReserved(g: Geometry, vol: seq<Sector>, vol': seq<Sector>) {
    g.fatbase < |vol| == |vol'| ==>
      vol'[g.fatbase][..EntryOffset(g.fsType, 2)] == vol[g.fatbase][..EntryOffset(g.fsType, 2)]
  }

  /** Byte updates: only bytes o .. o+n-1 of the FAT may differ. */
  ghost predicate OnlyBytes(g: Geometry, vol: seq<Sector>, vol': seq<Sector>, o: nat, n: nat)
    requires ValidGeometry(g, |vol|) && |vol'| == |vol|
  {
    forall k: nat | k < g.fsize * 512 && !(o <= k < o + n) :: FatByte(g, vol', k) == FatByte(g, vol, k)
  }

  /** First byte of a FAT12 entry after storing val over the byte was; an odd entry keeps the low nibble. */
  function Pack12Low(c: nat, val: dword, was: byte): byte {
    if c % 2 == 1 then was % 16 + (val % 16) * 16 else val % 0x100
  }

  /** Second byte; an even entry keeps the high nibble. */
  function Pack12High(c: nat, val: dword, was: byte): byte {
    if c % 2 == 1 then (val / 16) % 0x100 else (was / 16) * 16 + (val / 0x100) % 16
  }

  lemma MulAtLeast(e: int, d: int)
    requires e >= 1 && d >= 0
    ensures e * d >= d && -e * d == -(e * d)
  {
  }

  lemma DivMod(x: nat, d: nat, q: nat, r: nat)
    requires r < d && x == q * d + r
    ensures x / d == q && x % d == r
  {
    var e := x / d - q;
    assert e * d == r - x % d;
    if e > 0 { MulAtLeast(e, d); } else if e < 0 { MulAtLeast(-e, d); }
  }

  lemma Pack12OddRoundTrip(c: nat, val: dword, was0: byte)
    requires c % 2 == 1
    ensures Unpack12(c, Pack12Low(c, val, was0), (val / 16) % 0x100) == val % 0x1000
  {
    var q, n, h := val / 0x1000, val % 16, val / 16 % 0x100;
    DivMod(val / 16, 0x100, q, h);
    DivMod(val, 0x1000, q, n + h * 16);
    DivMod(was0 % 16 + n * 16 + h * 0x100, 16, n + h * 16, was0 % 16);
  }

  lemma Pack12EvenRoundTrip(c: nat, val: dword, was1: byte)
    requires c % 2 == 0
    ensures Unpack12(c, val % 0x100, Pack12High(c, val, was1)) == val % 0x1000
  {
    var q, n, h := val / 0x1000, val % 0x100, val / 0x100 % 16;
    DivMod(val / 0x100, 16, q, h);
    DivMod(val, 0x1000, q, n + h * 0x100);
    DivMod(n + ((was1 / 16) * 16 + h) * 0x100, 0x1000, was1 / 16, n + h * 0x100);
  }

  lemma Pack12RoundTrip(c: nat, val: dword, was0: byte, was1: byte)
    ensures Unpack12(c, Pack12Low(c, val, was0), Pack12High(c, val, was1)) == val % 0x1000
  {
    if c % 2 == 1 { Pack12OddRoundTrip(c, val, was0); } else { Pack12EvenRoundTrip(c, val, was1); }
  }

  /** The neighbour sharing a byte with an odd entry keeps its nibble. */
  lemma Pack12Below(c: nat, val: dword, b0: byte, other: byte)
    requires c % 2 == 1
    ensures Unpack12(c - 1, other, Pack12Low(c, val, b0)) == Unpack12(c - 1, other, b0)
  {
    var n, r := val % 16, b0 % 16;
    DivMod(other + (r + n * 16) * 0x100, 0x1000, n, other + r * 0x100);
    DivMod(other + b0 * 0x100, 0x1000, b0 / 16, other + r * 0x100);
  }

  lemma NibbleAbove(h: nat, n: nat, other: byte)
    requires n < 16
    ensures (h * 16 + n + other * 0x100) / 16 == h + other * 16
  {
    DivMod(h * 16 + n + other * 0x100, 16, h + other * 16, n);
  }

  lemma OddValue(c: nat, b0: byte, b1: byte)
    requires c % 2 == 1
    ensures Unpack12(c, b0, b1) == (b0 + b1 * 0x100) / 16
  {
  }

  lemma HighNibble(c: nat, val: dword, was: byte) returns (n: nat)
    requires c % 2 == 0
    ensures n < 16 && Pack12High(c, val, was) == was / 16 * 16 + n
  {
    n := (val / 0x100) % 16;
  }

  /** And so does the neighbour above an even entry. */
  lemma Pack12Above(c: nat, val: dword, b1: byte, other: byte)
    requires c % 2 == 0
    ensures Unpack12(c + 1, Pack12High(c, val, b1), other) == Unpack12(c + 1, b1, other)
  {
    hide Pack12High, Unpack12;
    var n := HighNibble(c, val, b1);
    OddValue(c + 1, Pack12High(c, val, b1), other);
    OddValue(c + 1, b1, other);
    NibbleAbove(b1 / 16, n, other);
    NibbleAbove(b1 / 16, b1 % 16, other);
  }

  /** Bytes of a little-endian store. */
  function Byte0(val: dword): byte { val % 0x100 }
  function Byte1(val: dword): byte { (val / 0x100) % 0x100 }
  function Byte2(val: dword): byte { (val / 0x1_0000) % 0x100 }
  function Byte3(val: dword): byte { val / 0x100_0000 }

  /** Last byte of a FAT32 entry: its top four bits are reserved and kept. */
  function Pack28Top(val: dword, was: byte): byte { (was / 16) * 16 + (val / 0x100_0000) % 16 }

  lemma WordRoundTrip(val: dword)
    ensures Word(Byte0(val), Byte1(val)) == val % 0x1_0000
  {
    DivMod(val, 0x1_0000, val / 0x100 / 0x100, Byte0(val) + Byte1(val) * 0x100);
  }

  lemma Pack28RoundTrip(val: dword, was3: byte)
    ensures Unpack28(Byte0(val), Byte1(val), Byte2(val), Pack28Top(val, was3)) == val % 0x1000_0000
    ensures Pack28Top(val, was3) / 16 == was3 / 16
  {
    var b0, q1 := val % 0x100, val / 0x100;
    var b1, q2 := q1 % 0x100, q1 / 0x100;
    DivMod(val, 0x1_0000, q2, b0 + b1 * 0x100);
    var b2, q3 := q2 % 0x100, q2 / 0x100;
    DivMod(val, 0x100_0000, q3, b0 + b1 * 0x100 + b2 * 0x1_0000);
    var b3, q4 := q3 % 16, q3 / 16;
    DivMod(val, 0x1000_0000, q4, b0 + b1 * 0x100 + b2 * 0x1_0000 + b3 * 0x100_0000);
    DivMod((was3 / 16) * 16 + b3, 16, was3 / 16, b3);
  }

  /** vol' is vol with val stored in entry c. */
  ghost predicate Stored(g: Geometry, vol: seq<Sector>, vol': seq<Sector>, c: nat, val: dword)
    requires ValidGeometry(g, |vol|) && |vol'| == |vol| && HasEntry(g, c)
  {
    EntryInside(g, |vol|, c);
    var o := EntryOffset(g.fsType, c);
    && OnlyBytes(g, vol, vol', o, EntryWidth(g.fsType))
    && match g.fsType
       case FAT12 =>
         && FatByte(g, vol', o) == Pack12Low(c, val, FatByte(g, vol, o))
         && FatByte(g, vol', o + 1) == Pack12High(c, val, FatByte(g, vol, o + 1))
       case FAT16 =>
         && FatByte(g, vol', o) == Byte0(val)
         && FatByte(g, vol', o + 1) == Byte1(val)
       case FAT32 =>
         && FatByte(g, vol', o) == Byte0(val)
         && FatByte(g, vol', o + 1) == Byte1(val)
         && FatByte(g, vol', o + 2) == Byte2(val)
         && FatByte(g, vol', o + 3) == Pack28Top(val, FatByte(g, vol, o + 3))
  }

  /** A store changes exactly one entry, to the masked value. */
  lemma StoredEntry(g: Geometry, vol: seq<Sector>, vol': seq<Sector>, c: nat, val: dword)
    requires ValidGeometry(g, |vol|) && |vol'| == |vol| && HasEntry(g, c)
    requires Stored(g, vol, vol', c, val)
    ensures Entry(g, vol', c) == Mask(g.fsType, val)
  {
    EntryInside(g, |vol|, c);
    hide FatByte, Pack12Low, Pack12High, Unpack12, Byte0, Byte1, Byte2, Pack28Top, Unpack28, Word;
    var o := EntryOffset(g.fsType, c);
    match g.fsType
    case FAT12 => Pack12RoundTrip(c, val, FatByte(g, vol, o), FatByte(g, vol, o + 1));
    case FAT16 => WordRoundTrip(val);
    case FAT32 => Pack28RoundTrip(val, FatByte(g, vol, o + 3));
  }

  lemma StoredOther12(g: Geometry, vol: seq<Sector>, vol': seq<Sector>, c: nat, val: dword, d: nat)
    requires ValidGeometry(g, |vol|) && |vol'| == |vol| && HasEntry(g, c) && HasEntry(g, d) && d != c
    requires Stored(g, vol, vol', c, val) && g.fsType == FAT12
    ensures Entry(g, vol', d) == Entry(g, vol, d)
  {
    hide FatByte, Pack12Low, Pack12High, Unpack12, ValidGeometry;
    EntryInside(g, |vol|, c);
    EntryInside(g, |vol|, d);
    var o, p := c + c / 2, d + d / 2;
    if d + 1 == c && c % 2 == 1 {
      assert p + 1 == o && FatByte(g, vol', p) == FatByte(g, vol, p);
      Pack12Below(c, val, FatByte(g, vol, o), FatByte(g, vol, p));
    } else if d == c + 1 && c % 2 == 0 {
      assert p == o + 1 && FatByte(g, vol', p + 1) == FatByte(g, vol, p + 1);
      Pack12Above(c, val, FatByte(g, vol, o + 1), FatByte(g, vol, p + 1));
    } else {
      assert p + 1 < o || o + 1 < p;
    }
  }

  lemma StoredOther(g: Geometry, vol: seq<Sector>, vol': seq<Sector>, c: nat, val: dword, d: nat)
    requires ValidGeometry(g, |vol|) && |vol'| == |vol| && HasEntry(g, c) && HasEntry(g, d) && d != c
    requires Stored(g, vol, vol', c, val)
    ensures Entry(g, vol', d) == Entry(g, vol, d)
  {
    EntryInside(g, |vol|, c);
    EntryInside(g, |vol|, d);
    match g.fsType
    case FAT12 => StoredOther12(g, vol, vol', c, val, d);
    case FAT16 =>
    case FAT32 =>
  }

  lemma StoredDecodes(g: Geometry, vol: seq<Sector>, vol': seq<Sector>, c: nat, val: dword, fat: seq<nat>)
    requires ValidGeometry(g, |vol|) && |vol'| == |vol| && HasEntry(g, c)
    requires Stored(g, vol, vol', c, val) && Decodes(g, vol, fat)
    ensures Decodes(g, vol', fat[c := Mask(g.fsType, val)])
  {
    StoredEntry(g, vol, vol', c, val);
    forall d: nat | HasEntry(g, d) && d != c ensures Entry(g, vol', d) == fat[d] {
      StoredOther(g, vol, vol', c, val, d);
    }
  }

  /** Some bytes of one FAT sector replaced. */
  lemma BytesStored(g: Geometry, vol: seq<Sector>, vol': seq<Sector>, k: nat, data: seq<byte>)
    requires ValidGeometry(g, |vol|) && data != [] && k + |data| <= g.fsize * 512 && k % 512 + |data| <= 512
    requires vol' == vol[g.fatbase + k / 512 := Overwrite(vol[g.fatbase + k / 512], k % 512, data)]
    ensures |vol'| == |vol| && OnlyBytes(g, vol, vol', k, |data|) && SameOutsideFat(g, vol, vol')
    ensures forall i: nat | k <= i < k + |data| :: FatByte(g, vol', i) == data[i - k]
  {
  }

  lemma Stored28(g: Geometry, vol: seq<Sector>, vol': seq<Sector>, c: nat, val: dword, data: seq<byte>)
    requires ValidGeometry(g, |vol|) && |vol'| == |vol| && HasEntry(g, c) && g.fsType == FAT32
    requires c * 4 + 4 <= g.fsize * 512 && OnlyBytes(g, vol, vol', c * 4, 4)
    requires data == [Byte0(val), Byte1(val), Byte2(val), Pack28Top(val, FatByte(g, vol, c * 4 + 3))]
    requires forall i: nat | c * 4 <= i < c * 4 + 4 :: FatByte(g, vol', i) == data[i - c * 4]
    ensures Stored(g, vol, vol', c, val)
  {
    hide FatByte, Byte0, Byte1, Byte2, Pack28Top;
  }

  lemma HalfOther12(g: Geometry, vol: seq<Sector>, vol': seq<Sector>, c: nat, val: dword, d: nat)
    requires ValidGeometry(g, |vol|) && |vol'| == |vol| && HasEntry(g, c) && HasEntry(g, d) && d != c &&
      g.fsType == FAT12
    requires EntryOffset(FAT12, c) < g.fsize * 512 && OnlyBytes(g, vol, vol', EntryOffset(FAT12, c), 1)
    requires FatByte(g, vol', EntryOffset(FAT12, c)) == Pack12Low(c, val, FatByte(g, vol, EntryOffset(FAT12, c)))
    ensures Entry(g, vol', d) == Entry(g, vol, d)
  {
    hide FatByte, Pack12Low, Pack12High, Unpack12, ValidGeometry;
    EntryInside(g, |vol|, c);
    EntryInside(g, |vol|, d);
    var o, p := c + c / 2, d + d / 2;
    if d + 1 == c && c % 2 == 1 {
      Pack12Below(c, val, FatByte(g, vol, o), FatByte(g, vol, p));
    } else {
      assert p + 1 < o || o < p;
    }
  }

  /** What the entry itself is then: the new low bits below the old high ones. */
  lemma HalfValue(c: nat, val: dword, b0: byte, b1: byte)
    ensures Unpack12(c, Pack12Low(c, val, b0), b1) == if c % 2 == 1 then b1 * 16 + val % 16
      else b1 % 16 * 0x100 + val % 0x100
  {
    if c % 2 == 1 {
      DivMod(b0 % 16 + val % 16 * 16 + b1 * 0x100, 16, b1 * 16 + val % 16, b0 % 16);
    } else {
      DivMod(val % 0x100 + b1 * 0x100, 0x1000, b1 / 16, b1 % 16 * 0x100 + val % 0x100);
    }
  }

  /** So it can be the number of any cluster, although neither the old value nor the new one is. */
  lemma HalfAny(c: nat, x: nat) returns (b0: byte, b1: byte, val: dword)
    requires x < 0x1000
    ensures Unpack12(c, b0, b1) != x && val < 0x1000 && val != x && Unpack12(c, Pack12Low(c, val, b0), b1) == x
  {
    if c % 2 == 1 {
      b0, b1, val := HalfOdd(x / 16, x % 16);
    } else {
      b0, b1, val := HalfEven(x / 0x100, x % 0x100);
    }
  }

  lemma HalfOdd(hi: nat, lo: nat) returns (b0: byte, b1: byte, val: dword)
    requires hi < 0x100 && lo < 16
    ensures forall c: nat | c % 2 == 1 ::
      Unpack12(c, b0, b1) != hi * 16 + lo && Unpack12(c, Pack12Low(c, val, b0), b1) == hi * 16 + lo
    ensures val < 0x1000 && val != hi * 16 + lo
  {
    b0, b1, val := if lo == 0 then 16 else 0, hi, if hi == 0 then lo + 16 else lo;
    DivMod(b0 + b1 * 0x100, 16, hi * 16 + b0 / 16, 0);
    forall c: nat | c % 2 == 1 ensures Unpack12(c, Pack12Low(c, val, b0), b1) == hi * 16 + lo {
      HalfValue(c, val, b0, b1);
    }
  }

  lemma HalfEven(hi: nat, lo: nat) returns (b0: byte, b1: byte, val: dword)
    requires hi < 16 && lo < 0x100
    ensures forall c: nat | c % 2 == 0 ::
      Unpack12(c, b0, b1) != hi * 0x100 + lo && Unpack12(c, Pack12Low(c, val, b0), b1) == hi * 0x100 + lo
    ensures val < 0x1000 && val != hi * 0x100 + lo
  {
    b0, b1, val := if lo == 0 then 1 else 0, hi, if hi == 0 then lo + 0x100 else lo;
    DivMod(b0 + b1 * 0x100, 0x1000, 0, b0 + hi * 0x100);
    DivMod(val, 0x100, if hi == 0 then 1 else 0, lo);
    DivMod(b1, 16, 0, hi);
    forall c: nat | c % 2 == 0 ensures Unpack12(c, Pack12Low(c, val, b0), b1) == hi * 0x100 + lo {
      HalfValue(c, val, b0, b1);
    }
  }

  /** Storing only the first byte of a FAT12 entry damages no other entry. */
  lemma HalfStored12(g: Geometry, vol: seq<Sector>, vol': seq<Sector>, c: nat, val: dword, fat: seq<nat>)
    requires ValidGeometry(g, |vol|) && |vol'| == |vol| && HasEntry(g, c) && g.fsType == FAT12
    requires EntryOffset(FAT12, c) < g.fsize * 512 && OnlyBytes(g, vol, vol', EntryOffset(FAT12, c), 1)
    requires FatByte(g, vol', EntryOffset(FAT12, c)) == Pack12Low(c, val, FatByte(g, vol, EntryOffset(FAT12, c)))
    requires Decodes(g, vol, fat)
    ensures Decodes(g, vol', fat[c := Entry(g, vol', c)])
  {
    hide FatByte, Pack12Low, Entry, OnlyBytes, ValidGeometry;
    forall d: nat | HasEntry(g, d) && d != c ensures Entry(g, vol', d) == fat[d] {
      HalfOther12(g, vol, vol', c, val, d);
    }
  }

  /** Whatever happens to the bytes of an entry, those of the reserved entries are not among them. */
  lemma ReservedKept(g: Geometry, vol: seq<Sector>, vol': seq<Sector>, c: nat)
    requires ValidGeometry(g, |vol|) && |vol'| == |vol| && HasEntry(g, c)
    requires OnlyBytes(g, vol, vol', EntryOffset(g.fsType, c), EntryWidth(g.fsType))
    ensures KeepsReserved(g, vol, vol')
  {
    EntryInside(g, |vol|, c);
    forall k: nat | k < EntryOffset(g.fsType, 2) ensures vol'[g.fatbase][k] == vol[g.fatbase][k] {
      assert FatByte(g, vol', k) == FatByte(g, vol, k);
    }
  }
}
