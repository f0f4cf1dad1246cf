/** The arithmetic of f_mkfs: FAT type, cluster size and areas of a new volume. */
module VolumePlan {
  import opened FatTypes

  const MAX_FAT12: nat := 0xFF5
  const MAX_FAT16: nat := 0xFFF5
  const MAX_FAT32: nat := 0x0FFF_FFF5

  /** DWORD arithmetic: x modulo 2^32. */
  function W32(x: nat): dword {
    if x < 0x1_0000_0000 then x else W32(x - 0x1_0000_0000)
  }

  /** Not used by other proofs: it justifies the definition. */
  lemma {:induction false} W32IsRemainder(x: nat)
    ensures W32(x) == x % 0x1_0000_0000
  {
    if x >= 0x1_0000_0000 { W32IsRemainder(x - 0x1_0000_0000); }
  }

  /** x / d for a cluster size d, power by power: keeps division by a variable out of the larger proofs. */
  function Div(x: nat, d: nat): (q: nat)
    requires ClusterSize(d)
  {
    if d == 1 then x
    else if d == 2 then x / 2
    else if d == 4 then x / 4
    else if d == 8 then x / 8
    else if d == 16 then x / 16
    else if d == 32 then x / 32
    else if d == 64 then x / 64
    else x / 128
  }

  /** Not used by other proofs: it justifies the definition. */
  lemma DivIsDivision(x: nat, d: nat)
    requires ClusterSize(d)
    ensures Div(x, d) == x / d
  {
  }

  lemma DivBounds(x: nat, d: nat)
    requires ClusterSize(d)
    ensures Div(x, d) * d <= x < Div(x, d) * d + d
  {
  }

  /** What f_mkfs decides on. */
  datatype Plan = Plan(fmt: FsType, pau: nat, szRsv: nat, szFat: nat, szDir: nat, nClst: nat)

  /** Cluster size tables: thresholds in units of 4K sectors (FAT12/16) and 128K sectors (FAT32). */
  const CST: seq<nat> := [1, 4, 16, 64, 256, 512, 0]
  const CST32: seq<nat> := [1, 2, 4, 8, 16, 32, 0]

  const POWERS: seq<nat> := [1, 2, 4, 8, 16, 32, 64]

  /** Walks a table of thresholds, doubling the cluster size at each one that n reaches. */
  method AutoCluster(tbl: seq<nat>, n: nat) returns (pau: nat)
    requires |tbl| == 7 && tbl[6] == 0
    ensures ClusterSize(pau) && Looked(tbl, n, pau)
  {
    var i := 0;
    pau := 1;
    while tbl[i] != 0 && tbl[i] <= n
      invariant 0 <= i < 7
      invariant pau == POWERS[i] && (i > 0 ==> tbl[i - 1] <= n)
      decreases 7 - i
    {
      i, pau := i + 1, pau * 2;
    }
  }

  /** A plan that fits szVol sectors and is what its FAT type needs. */
  ghost predicate Sensible(p: Plan, szVol: nat) {
    && ClusterSize(p.pau)
    && p.szRsv == (if p.fmt == FAT32 then 32 else 1) && p.szDir == (if p.fmt == FAT32 then 0 else 32)
    && p.szRsv + p.szFat + p.szDir + 16 * p.pau <= szVol
    && p.nClst == Div(szVol - p.szRsv - p.szFat - p.szDir, p.pau)
    && FatBytes(p.fmt, p.nClst + 2) <= p.szFat * 512
    && match p.fmt
       case FAT12 => 0 < p.nClst <= MAX_FAT12 && p.szFat < 0x1_0000
       case FAT16 => MAX_FAT12 < p.nClst <= MAX_FAT16 && p.szFat < 0x1_0000
       case FAT32 => MAX_FAT16 < p.nClst <= MAX_FAT32
  }

  lemma DivMonotone(x: nat, y: nat, d: nat)
    requires x <= y && ClusterSize(d)
    ensures Div(x, d) <= Div(y, d)
  {
  }

  /** Sectors of a FAT sized for q clusters. */
  function FatSectors(t: FsType, q: nat): nat {
    match t
    case FAT12 => W32(W32((q * 3 + 1) / 2 + 3) + 511) / 512
    case FAT16 => W32(W32(q * 2 + 4) + 511) / 512
    case FAT32 => W32(W32(q * 4 + 8) + 511) / 512
  }

  lemma NoWrap(x: nat)
    requires x < 0x1_0000_0000
    ensures W32(x) == x
  {
  }

  /** Bytes rounded up to sectors. */
  lemma RoundUp(n: nat, s: nat)
    requires s == (n + 511) / 512
    ensures n <= s * 512 <= n + 511
  {
  }

  /** The FAT sized for q clusters is large enough for them, and for any smaller number. */
  lemma FatSectorsEnough(t: FsType, q: nat)
    requires q <= match t case FAT12 => MAX_FAT12 case FAT16 => 0x1000_0000 case FAT32 => MAX_FAT32
    ensures FatBytes(t, q + 2) <= FatSectors(t, q) * 512 <= FatBytes(t, q + 2) + 511
  {
    hide W32;
    var n := match t case FAT12 => (q * 3 + 1) / 2 + 3 case FAT16 => q * 2 + 4 case FAT32 => q * 4 + 8;
    NoWrap(n);
    NoWrap(n + 511);
    RoundUp(n, FatSectors(t, q));
    FatBytesOf(t, q, n);
  }

  lemma Fat12Even(k: nat)
    ensures (2 * k * 3 + 1) / 2 + 3 == 3 * k + 3 == (2 * k + 2) * 3 / 2 + (2 * k + 2) % 2
  {
    assert 2 * k * 3 + 1 == 2 * (3 * k) + 1;
    assert (2 * k + 2) * 3 == 2 * (3 * k + 3);
  }

  lemma Fat12Odd(k: nat)
    ensures ((2 * k + 1) * 3 + 1) / 2 + 3 == 3 * k + 5 == (2 * k + 3) * 3 / 2 + (2 * k + 3) % 2
  {
    assert (2 * k + 1) * 3 + 1 == 2 * (3 * k + 2);
    assert (2 * k + 3) * 3 == 2 * (3 * k + 4) + 1;
  }

  lemma FatBytesOf(t: FsType, q: nat, n: nat)
    requires n == match t case FAT12 => (q * 3 + 1) / 2 + 3 case FAT16 => q * 2 + 4 case FAT32 => q * 4 + 8
    ensures FatBytes(t, q + 2) == n
  {
    if t == FAT12 { if q % 2 == 0 { Fat12Even(q / 2); } else { Fat12Odd(q / 2); } }
  }

  lemma FatBytesMonotone(t: FsType, a: nat, b: nat)
    requires a <= b
    ensures FatBytes(t, a) <= FatBytes(t, b)
  {
  }

  /** Sectors before the data area of a volume whose FAT is sized for q clusters. */
  function Overhead(t: FsType, q: nat): nat {
    FatSectors(t, q) + if t == FAT32 then 32 else 33
  }

  /** The volume has room for at least 16 clusters. */
  predicate PlanFits(t: FsType, q: nat, pau: nat, szVol: nat) { Overhead(t, q) + pau * 16 <= szVol }

  function PlanOf(t: FsType, q: nat, pau: nat, szVol: nat): Plan
    requires PlanFits(t, q, pau, szVol) && ClusterSize(pau)
  {
    Plan(t, pau, if t == FAT32 then 32 else 1, FatSectors(t, q), if t == FAT32 then 0 else 32,
         Div(szVol - Overhead(t, q), pau))
  }

  lemma FatSectorsOf(t: FsType, q: nat)
    ensures FatSectors(t, q) == SectorsFor(W32(match t case FAT12 => (q * 3 + 1) / 2 + 3 case FAT16 => q * 2 +
      4 case FAT32 => q * 4 + 8))
  {
  }

  /** A FAT16 candidate that is not rejected had no overflow, and its FAT fits the 16-bit field. */
  lemma Fat16Fits(szVol: nat, pau: nat, q: nat, szFat: nat)
    requires ClusterSize(pau) && q == Div(szVol, pau) && szVol < 0x1_0000_0000 && szFat == FatSectors(FAT16, q)
    requires 33 + szFat <= szVol && Div(szVol - 33 - szFat, pau) <= MAX_FAT16
    ensures q < 0x1_1000 && szFat < 0x1_0000
  {
    hide FatSectors, FatBytes;
    var n := Div(szVol - 33 - szFat, pau);
    DivBounds(szVol, pau);
    DivBounds(szVol - 33 - szFat, pau);
    FatSectorsBelow(q);
    CountApart(pau, q, n, szFat);
    FatSectorsEnough(FAT16, q);
    FatBytesOf(FAT16, q, q * 2 + 4);
  }

  lemma FatSectorsBelow(q: nat)
    ensures FatSectors(FAT16, q) <= 0x80_0000
  {
  }

  lemma CountApart(pau: nat, q: nat, n: nat, szFat: nat)
    requires ClusterSize(pau) && q * pau - 33 - szFat < n * pau + pau
    ensures q <= n + 33 + szFat
  {
  }

  /** n bytes in sectors, DWORD arithmetic: (n + ss - 1) / ss. */
  function SectorsFor(n: dword): nat { W32(n + 511) / 512 }

  /**
    One pass of the layout loop, erase blocks of one sector: areas and cluster count for a given
    cluster size; not fit when the cluster count cannot be FAT32 or the volume is too small.
  */
  method Candidate(fmt: FsType, pau: nat, szVol: dword, bVol: nat) returns (fit: bool, p: Plan)
    requires ClusterSize(pau) && bVol + szVol < 0x1_0000_0000
    ensures var q := Div(szVol, pau);
      var f := PassType(fmt, q);
      && fit == (PlanFits(f, q, pau, szVol) && (fmt == FAT32 ==> MAX_FAT16 < q <= MAX_FAT32))
      && (fit ==> p == PlanOf(f, q, pau, szVol))
  {
    hide W32, FatSectors;
    fit, p := false, Plan(fmt, pau, 0, 0, 0, 0);
    var q := Div(szVol, pau);
    var f := fmt;
    var szFat: nat, szRsv: nat, szDir: nat := 0, 32, 0;
    if fmt == FAT32 {
      szFat := SectorsFor(W32(q * 4 + 8));
      FatSectorsOf(FAT32, q);
      if q <= MAX_FAT16 || q > MAX_FAT32 { return; }
    } else {
      var n: dword;
      if q > MAX_FAT12 {
        f := FAT16;
        n := W32(q * 2 + 4);
      } else {
        f := FAT12;
        n := W32((q * 3 + 1) / 2 + 3);
      }
      szFat := SectorsFor(n);
      FatSectorsOf(f, q);
      szRsv, szDir := 1, 512 * 32 / 512;
    }
    var bFat := bVol + szRsv;
    var bData := bFat + szFat + szDir;
    if szVol < bData + pau * 16 - bVol { return; }
    p := Plan(f, pau, szRsv, szFat, szDir, Div(szVol - szRsv - szFat - szDir, pau));
    fit := true;
  }

  // ----- The retry loop

  /** Bits of the format option. */
  predicate WantsFat(opt: byte) { opt % 2 == 1 }
  predicate WantsFat32(opt: byte) { (opt / 2) % 2 == 1 }
  predicate WantsSfd(opt: byte) { (opt / 8) % 2 == 1 }
  const FM_ANY: byte := 7

  /** How a pass ends: with a plan, with another attempt, or not at all. */
  datatype Pass = Done(p: Plan) | Again(fmt: FsType, au: nat) | Abort

  /** The FAT type a pass ends up with. */
  function PassType(fmt: FsType, q: nat): FsType {
    if fmt == FAT32 then FAT32 else if q > MAX_FAT12 then FAT16 else FAT12
  }

  /** A pass with cluster size pau produces an acceptable plan. */
  predicate Accepts(fmt: FsType, pau: nat, szVol: nat) {
    ClusterSize(pau) &&
    var q := Div(szVol, pau);
    var f := PassType(fmt, q);
    PlanFits(f, q, pau, szVol) &&
    var n := PlanOf(f, q, pau, szVol).nClst;
    match f
    case FAT12 => true
    case FAT16 => MAX_FAT12 < n <= MAX_FAT16
    case FAT32 => MAX_FAT16 < n && q <= MAX_FAT32
  }

  /** An accepted plan is a sensible one. */
  lemma AcceptedSensible(fmt: FsType, pau: nat, szVol: dword)
    requires Accepts(fmt, pau, szVol)
    ensures fmt == FAT32 ==> Div(szVol, pau) > MAX_FAT16
    ensures Sensible(PlanOf(PassType(fmt, Div(szVol, pau)), Div(szVol, pau), pau, szVol), szVol)
  {
    hide FatSectors, FatBytes, W32, Div;
    var q := Div(szVol, pau);
    var f := PassType(fmt, q);
    var p := PlanOf(f, q, pau, szVol);
    DivMonotone(szVol - Overhead(f, q), szVol, pau);
    DivBounds(szVol - Overhead(f, q), pau);
    if f == FAT16 { Fat16Fits(szVol, pau, q, p.szFat); }
    FatSectorsEnough(f, q);
    FatBytesMonotone(f, p.nClst + 2, q + 2);
    if f == FAT12 { Fat12Small(q); }
  }

  lemma Fat12Small(q: nat)
    requires q <= MAX_FAT12
    ensures FatSectors(FAT12, q) < 0x1_0000
  {
  }

  /** From this size on a volume is too large for FAT16 clusters of 64 sectors. */
  const BIG: nat := 65526 * 64

  /** The sizes for which the FAT12/16 table picks pau. */
  predicate Picked16(szVol: nat, pau: nat) {
    && (pau == 1 || pau == 2 || pau == 4 || pau == 8 || pau == 16 || pau == 32 || pau == 64)
    && (pau == 1 ==> szVol < 4096) && (pau == 2 ==> 4096 <= szVol < 16384) && (pau == 4 ==> 16384 <= szVol < 65536)
    && (pau == 8 ==> 65536 <= szVol < 262144) && (pau == 16 ==> 262144 <= szVol < 1048576)
    && (pau == 32 ==> 1048576 <= szVol < 2097152) && (pau == 64 ==> 2097152 <= szVol)
  }

  /** pau is what the table tbl gives for n. */
  predicate Looked(tbl: seq<nat>, n: nat, pau: nat)
    requires |tbl| == 7
  {
    && pau in POWERS
    && forall i | 0 <= i < 7 :: pau == POWERS[i] ==>
      (i > 0 ==> tbl[i - 1] <= n) && (i < 6 ==> tbl[i] == 0 || n < tbl[i])
  }

  lemma Table16(szVol: nat, pau: nat)
    requires Looked(CST, szVol / 0x1000, pau)
    ensures Picked16(szVol, pau)
  {
    LookedAt(CST, szVol / 0x1000, pau);
  }

  lemma LookedAt(tbl: seq<nat>, n: nat, pau: nat)
    requires |tbl| == 7 && Looked(tbl, n, pau)
    ensures pau == 1 || pau == 2 || pau == 4 || pau == 8 || pau == 16 || pau == 32 || pau == 64
    ensures pau == 1 ==> tbl[0] == 0 || n < tbl[0]
    ensures pau == 2 ==> tbl[0] <= n && (tbl[1] == 0 || n < tbl[1])
    ensures pau == 4 ==> tbl[1] <= n && (tbl[2] == 0 || n < tbl[2])
    ensures pau == 8 ==> tbl[2] <= n && (tbl[3] == 0 || n < tbl[3])
    ensures pau == 16 ==> tbl[3] <= n && (tbl[4] == 0 || n < tbl[4])
    ensures pau == 32 ==> tbl[4] <= n && (tbl[5] == 0 || n < tbl[5])
    ensures pau == 64 ==> tbl[5] <= n
  {
    assert POWERS[0] == 1 && POWERS[1] == 2 && POWERS[2] == 4 && POWERS[3] == 8;
    assert POWERS[4] == 16 && POWERS[5] == 32 && POWERS[6] == 64;
  }

  lemma Table32(szVol: nat, pau: nat)
    requires Looked(CST32, szVol / 0x2_0000, pau)
    ensures szVol >= BIG ==> pau == if szVol < 0x40_0000 then 32 else 64
  {
    LookedAt(CST32, szVol / 0x2_0000, pau);
  }

  /** Bounds on the overhead of a FAT sized for q clusters. */
  lemma OverheadBounds(t: FsType, q: nat)
    requires q <= match t case FAT12 => MAX_FAT12 case FAT16 => 0x1000_0000 case FAT32 => MAX_FAT32
    ensures t == FAT12 ==> Overhead(t, q) <= 46
    ensures t == FAT16 ==> Overhead(t, q) <= 35 + q / 256
    ensures t == FAT32 ==> Overhead(t, q) <= 34 + q / 128
    ensures t != FAT32 ==> Overhead(t, q) >= 34
    ensures t == FAT16 ==> Overhead(t, q) >= 33 + q / 256
  {
    hide FatSectors;
    FatSectorsEnough(t, q);
    FatBytesOf(t, q, FatBytes(t, q + 2));
  }

  /** With FAT12/16 and the automatic cluster size only the count can be off, and one more pass settles that. */
  lemma Auto16(szVol: dword, pau: nat)
    requires szVol >= 128 && Picked16(szVol, pau)
    ensures var q := Div(szVol, pau); var f := PassType(FAT16, q);
      && PlanFits(f, q, pau, szVol)
      && (f == FAT16 && PlanOf(f, q, pau, szVol).nClst > MAX_FAT16 ==>
            if pau == 64 then szVol >= BIG else pau * 2 <= 64 && Accepts(FAT16, pau * 2, szVol))
      && (f == FAT16 && PlanOf(f, q, pau, szVol).nClst <= MAX_FAT12 ==> Accepts(FAT16, pau * 2, szVol))
  {
    hide FatSectors, Overhead;
    var q := Div(szVol, pau);
    var f := PassType(FAT16, q);
    DivBounds(szVol, pau);
    OverheadBounds(f, q);
    Fits16(f, szVol, pau, q, Overhead(f, q));
    if f == FAT16 {
      Count16(szVol, pau, q, Overhead(f, q));
      var n := PlanOf(f, q, pau, szVol).nClst;
      if n > MAX_FAT16 && pau == 32 { Last32(szVol); }
      if n <= MAX_FAT12 {
        Retry16(szVol, pau, q, Overhead(f, q));
        OverheadBounds(FAT12, Div(szVol, pau * 2));
      }
    }
  }

  lemma Fits16(f: FsType, szVol: dword, pau: nat, q: nat, ov: nat)
    requires szVol >= 128 && Picked16(szVol, pau) && q * pau <= szVol < q * pau + pau && f == PassType(FAT16, q)
    requires ov <= if f == FAT12 then 46 else 35 + q / 256
    ensures ov + pau * 16 <= szVol
  {
  }

  lemma Count16(szVol: dword, pau: nat, q: nat, ov: nat)
    requires szVol >= 128 && Picked16(szVol, pau) && q * pau <= szVol < q * pau + pau && ov <= szVol
    requires 33 + q / 256 <= ov <= 35 + q / 256
    ensures Div(szVol - ov, pau) > MAX_FAT16 ==> (pau == 64 && szVol >= BIG) || (pau == 32 && szVol >= 2097088)
  {
    DivBounds(szVol - ov, pau);
  }

  /** The one corner where FAT16 clusters of 32 sectors are just too many. */
  lemma Last32(szVol: dword)
    requires 2097088 <= szVol < 2097152
    ensures Accepts(FAT16, 64, szVol)
  {
    hide FatSectors, Overhead;
    var q := Div(szVol, 64);
    DivBounds(szVol, 64);
    OverheadBounds(FAT16, q);
    DivBounds(szVol - Overhead(FAT16, q), 64);
  }

  lemma Retry16(szVol: dword, pau: nat, q: nat, ov: nat)
    requires Picked16(szVol, pau) && q * pau <= szVol < q * pau + pau && ov <= szVol && q > MAX_FAT12
    requires ov <= 35 + q / 256 && Div(szVol - ov, pau) <= MAX_FAT12
    ensures Div(szVol, pau * 2) <= MAX_FAT12 && 46 + pau * 2 * 16 <= szVol && ClusterSize(pau * 2)
  {
    DivBounds(szVol - ov, pau);
    DivBounds(szVol, pau * 2);
  }

  /** The same for FAT32 on a volume that is too large for FAT16. */
  lemma Auto32(szVol: dword, pau: nat)
    requires szVol >= BIG && pau == if szVol < 0x40_0000 then 32 else 64
    ensures var q := Div(szVol, pau);
      && PlanFits(FAT32, q, pau, szVol) && MAX_FAT16 < q <= MAX_FAT32
      && (PlanOf(FAT32, q, pau, szVol).nClst <= MAX_FAT16 ==> Accepts(FAT32, pau / 2, szVol))
  {
    hide FatSectors, Overhead;
    var q, r := Div(szVol, pau), Div(szVol, pau / 2);
    DivBounds(szVol, pau);
    DivBounds(szVol, pau / 2);
    OverheadBounds(FAT32, q);
    OverheadBounds(FAT32, r);
    DivBounds(szVol - Overhead(FAT32, q), pau);
    DivBounds(szVol - Overhead(FAT32, r), pau / 2);
  }

  /** The overhead only lowers the cluster count. */
  lemma NeverMore(t: FsType, q: nat, pau: nat, szVol: nat)
    requires PlanFits(t, q, pau, szVol) && ClusterSize(pau) && q == Div(szVol, pau)
    ensures PlanOf(t, q, pau, szVol).nClst <= q
  {
    DivMonotone(szVol - Overhead(t, q), szVol, pau);
  }

  /** One iteration of the layout loop of f_mkfs. */
  method LayoutPass(fmt: FsType, au: nat, opt: byte, szVol: dword, bVol: nat) returns (pass: Pass)
    requires (au == 0 || ClusterSize(au)) && bVol + szVol < 0x1_0000_0000 && fmt != FAT12
    ensures pass.Done? ==> Sensible(pass.p, szVol) && (au != 0 ==> pass.p.pau == au)
    ensures pass.Done? ==> (pass.p.fmt == FAT32 <==> fmt == FAT32)
    ensures pass.Again? && au != 0 ==> pass.au == au
    ensures pass.Again? && pass.fmt == FAT32 != fmt ==> WantsFat32(opt)
    ensures pass.Again? ==> pass.fmt != FAT12 && (pass.au == 0 || ClusterSize(pass.au))
    ensures pass.Again? ==> if pass.fmt == fmt then au == 0 != pass.au else fmt == FAT16
    ensures au != 0 && Accepts(fmt, au, szVol) ==> pass.Done?
    ensures au == 0 && szVol >= 128 && fmt == FAT16 && WantsFat32(opt) ==>
      pass.Done? || (pass.Again? && if pass.au == 0 then pass.fmt == FAT32 && szVol >= BIG
        else Accepts(pass.fmt, pass.au, szVol))
    ensures au == 0 && szVol >= 128 && fmt == FAT16 && !WantsFat32(opt) ==>
      pass.Done? || (pass.Again? && pass.fmt == FAT16 &&
        (Accepts(FAT16, pass.au, szVol) || (pass.au == 128 && szVol >= BIG)))
    ensures au == 0 && szVol >= BIG && fmt == FAT32 ==> pass.Done? || (pass.Again? && Accepts(pass.fmt, pass.au, szVol))
  {
    hide FatSectors, Sensible, Picked16, Looked, Div, Overhead;
    var pau := au;
    if pau == 0 {
      if fmt == FAT32 {
        pau := AutoCluster(CST32, szVol / 0x2_0000);
        Table32(szVol, pau);
      } else {
        pau := AutoCluster(CST, szVol / 0x1000);
        Table16(szVol, pau);
      }
    }
    if au == 0 && szVol >= 128 {
      if fmt == FAT16 { Auto16(szVol, pau); } else if szVol >= BIG { Auto32(szVol, pau); }
    }
    var fit, p := Candidate(fmt, pau, szVol, bVol);
    if Accepts(fmt, pau, szVol) { AcceptedSensible(fmt, pau, szVol); }
    if !fit { return Abort; }
    NeverMore(p.fmt, Div(szVol, pau), pau, szVol);
    if p.fmt == FAT32 && p.nClst <= MAX_FAT16 {
      if au == 0 && pau / 2 != 0 { return Again(FAT32, pau / 2); }
      return Abort;
    }
    if p.fmt == FAT16 {
      if p.nClst > MAX_FAT16 {
        if au == 0 && pau * 2 <= 64 { return Again(FAT16, pau * 2); }
        if WantsFat32(opt) { return Again(FAT32, au); }
        if au == 0 && pau * 2 <= 128 { return Again(FAT16, pau * 2); }
        return Abort;
      }
      if p.nClst <= MAX_FAT12 {
        if au == 0 && pau * 2 <= 128 { return Again(FAT16, pau * 2); }
        return Abort;
      }
    }
    if p.fmt == FAT12 && p.nClst > MAX_FAT12 { return Abort; }
    return Done(p);
  }

  /**
    The layout loop. The plan it ends with is sensible, and with automatic cluster size and any FAT
    type allowed it finds one for every volume of at least 128 sectors.
  */
  method ChoosePlan(fmt0: FsType, au0: nat, opt: byte, szVol: dword, bVol: nat) returns (ok: bool, p: Plan)
    requires (au0 == 0 || ClusterSize(au0)) && bVol + szVol < 0x1_0000_0000 && fmt0 != FAT12
    ensures ok ==> Sensible(p, szVol) && (au0 != 0 ==> p.pau == au0)
    ensures ok ==> if fmt0 == FAT32 then p.fmt == FAT32 else p.fmt == FAT32 ==> WantsFat32(opt)
    ensures au0 == 0 && szVol >= 128 && fmt0 == FAT16 && WantsFat32(opt) ==> ok
    ensures au0 == 0 && szVol >= 128 && fmt0 == FAT16 && !WantsFat32(opt) && szVol < BIG ==> ok
  {
    hide Sensible, Accepts, Picked16;
    var fmt, au := fmt0, au0;
    p := Plan(fmt, 0, 0, 0, 0, 0);
    ghost var sure := au0 == 0 && 128 <= szVol < BIG && fmt0 == FAT16 && !WantsFat32(opt);
    ghost var certain := au0 == 0 && szVol >= 128 && fmt0 == FAT16 && WantsFat32(opt);
    while true
      invariant (au == 0 || ClusterSize(au)) && fmt != FAT12 && (au0 != 0 ==> au == au0)
      invariant if fmt0 == FAT32 then fmt == FAT32 else fmt == FAT32 ==> WantsFat32(opt)
      invariant sure ==> au == 0 || Accepts(FAT16, au, szVol)
      invariant certain ==> if au == 0 then fmt == FAT16 || szVol >= BIG else Accepts(fmt, au, szVol)
      decreases if fmt == FAT32 then 0 else 1, if au == 0 then 1 else 0
    {
      var pass := LayoutPass(fmt, au, opt, szVol, bVol);
      match pass
      case Done(plan) => return true, plan;
      case Again(f, a) => fmt, au := f, a;
      case Abort => return false, p;
    }
  }
}
