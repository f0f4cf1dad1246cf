/** Shared value types: bytes, sectors, result codes and the geometry of a mounted volume. */
module FatTypes {

  type byte = x: int | 0 <= x < 0x100

  /** Unsigned 32-bit values (DWORD, FSIZE_t, UINT). */
  type dword = x: int | 0 <= x < 0x1_0000_0000

  const ERR32: dword := 0xFFFF_FFFF

  type Sector = s: seq<byte> | |s| == 512 witness seq(512, i => 0)

  datatype FResult =
    | OK | DiskErr | IntErr | NotReady | NoFile | InvalidName | Denied | Exist | InvalidObject
    | NoFilesystem | MkfsAborted | InvalidParameter | Locked | TooManyOpenFiles

  datatype FsType = FAT12 | FAT16 | FAT32

  /** The FATFS fields that only mounting assigns. */
  datatype Geometry = Geometry(
    fsType: FsType,
    nFats: nat,      // number of FAT copies
    csize: nat,      // sectors per cluster
    nRootdir: nat,   // entries in the static root directory (FAT12/16)
    nFatent: nat,    // number of FAT entries (clusters + 2)
    fsize: nat,      // sectors per FAT copy
    volbase: nat,
    fatbase: nat,
    dirbase: nat,    // root directory: start sector (FAT12/16) or start cluster (FAT32)
    database: nat)   // first data sector

  /** Bytes that nFatent entries take, as find_volume computes them. */
  function FatBytes(t: FsType, n: nat): nat {
    match t
    case FAT12 => n * 3 / 2 + n % 2
    case FAT16 => n * 2
    case FAT32 => n * 4
  }

  /** n * d, by repeated addition: keeps products of two variables out of the larger proofs. */
  function Times(n: nat, d: nat): (r: nat) {
    if n == 0 then 0 else Times(n - 1, d) + d
  }

  lemma {:induction false} TimesIsProduct(n: nat, d: nat)
    ensures Times(n, d) == n * d
  {
    if n > 0 { TimesIsProduct(n - 1, d); }
  }

  /** Value that the EOC mark 0xFFFFFFFF becomes once masked to the entry width. */
  function Eoc(t: FsType): nat {
    match t case FAT12 => 0xFFF case FAT16 => 0xFFFF case FAT32 => 0x0FFF_FFFF
  }

  /** A power of two that fits the BPB_SecPerClus byte. */
  predicate ClusterSize(n: nat) {
    n == 1 || n == 2 || n == 4 || n == 8 || n == 16 || n == 32 || n == 64 || n == 128
  }

  /** What a successful mount guarantees, with 32-bit sector arithmetic that does not wrap. */
  predicate ValidGeometry(g: Geometry, disk: nat) {
    && 1 <= g.nFats <= 2
    && ClusterSize(g.csize)
    && 3 <= g.nFatent <= (match g.fsType case FAT12 => 0xFF7 case FAT16 => 0xFFF7 case FAT32 => 0x0FFF_FFF7)
    && FatBytes(g.fsType, g.nFatent) <= g.fsize * 512
    && g.volbase < g.fatbase
    && (g.fsType == FAT32 ==> g.volbase + 1 < g.fatbase)
    && g.fatbase + g.fsize + (if g.nFats == 2 then g.fsize else 0) <= g.database
    && g.database + Times(g.nFatent - 2, g.csize) <= disk < 0x1_0000_0000
  }

  /** The static root directory of FAT12/16 fills the space between the FATs and the data area. */
  predicate RootOk(g: Geometry) {
    g.fsType != FAT32 ==>
      && g.nRootdir > 0 && g.nRootdir % 16 == 0
      && g.dirbase == g.fatbase + g.fsize + (if g.nFats == 2 then g.fsize else 0)
      && g.database == g.dirbase + g.nRootdir / 16
  }

  /** Sectors of FAT copy 1, the one that is read. */
  predicate InFat(g: Geometry, s: nat) { g.fatbase <= s < g.fatbase + g.fsize }

  /** Sectors of FAT copy 2, written behind the back of the window. */
  predicate InMirror(g: Geometry, s: nat) { g.nFats == 2 && g.fatbase + g.fsize <= s < g.fatbase + 2 * g.fsize }

  /** FAT32 keeps advisory counters in the FSInfo sector; its write is allowed to fail. */
  predicate IsFsInfo(g: Geometry, s: nat) { g.fsType == FAT32 && s == g.volbase + 1 }

  /** Sectors whose content is not part of the logical volume. */
  predicate Shadow(g: Geometry, s: nat) { InMirror(g, s) || IsFsInfo(g, s) }

  /** Subtraction of DWORDs. */
  function Sub32(a: int, b: int): (r: dword) { (a - b) % 0x1_0000_0000 }

  /** data written over s at pos. */
  function Overwrite(s: Sector, pos: nat, data: seq<byte>): Sector
    requires pos + |data| <= 512
  {
    s[..pos] + data + s[pos + |data|..]
  }

  /** The e-th sector-sized piece of x. */
  function Chunk(x: seq<byte>, e: nat): Sector
    requires e * 512 + 512 <= |x|
  {
    x[e * 512..e * 512 + 512]
  }

  // ----- Little-endian fields

  function Word(b0: byte, b1: byte): (r: nat) ensures r < 0x1_0000 { b0 + b1 * 0x100 }

  function LdWord(s: Sector, o: nat): (r: nat)
    requires o + 2 <= 512
    ensures r < 0x1_0000
  {
    s[o] as nat + s[o + 1] as nat * 0x100
  }

  function Dword(b0: byte, b1: byte, b2: byte, b3: byte): dword { b0 + b1 * 0x100 + b2 * 0x1_0000 + b3 * 0x100_0000 }

  function LdDword(s: Sector, o: nat): (r: dword)
    requires o + 4 <= 512
  {
    s[o] as nat + s[o + 1] as nat * 0x100 + s[o + 2] as nat * 0x1_0000 + s[o + 3] as nat * 0x100_0000
  }

  /** The counters that a mount takes from an FSInfo sector: both unknown if its signatures are wrong. */
  function FsInfoCounts(s: Sector): (dword, dword) {
    if LdWord(s, 510) == 0xAA55 && LdDword(s, 0) == 0x4161_5252 && LdDword(s, 484) == 0x6141_7272
    then (LdDword(s, 488), LdDword(s, 492)) else (ERR32, ERR32)
  }
}
