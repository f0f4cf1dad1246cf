/** The open file as a plain byte array with a cursor, and the proof that every run refines it. */
module FileSpec {
  import opened FatTypes
  import opened FatAccess
  import opened ChainTheory
  import opened Chains
  import opened ClusterMap
  import opened FileBytes
  import opened FileMap
  import opened FileObject
  import opened FileWrite
  import opened FileRead
  import opened FileSeek
  import opened FileSync
  import opened FileTruncate

  /** A byte array, a position in it, and the size the volume lets it grow to. */
  datatype State = State(data: seq<byte>, pos: nat, cap: nat)

  datatype Op = OpRead(n: dword) | OpWrite(x: seq<byte>) | OpSeek(ofs: dword) | OpTruncate | OpSync

  function Min(a: nat, b: nat): nat { if a < b then a else b }

  /** How many bytes a write of x at s stores: up to 4 GiB - 1 and up to the capacity. */
  function StoredCount(s: State, n: nat): nat
    requires s.pos <= s.cap && s.pos < 0x1_0000_0000
  {
    Min(WriteLimit(s.pos, n), s.cap - s.pos)
  }

  /**
    What one operation may do to the array. out is what the caller gets back: the bytes read, or a
    byte string as long as what was written. Only the bytes of the gap that a seek past the end
    opens are left open.
  */
  ghost predicate Step(s: State, op: Op, s': State, out: seq<byte>) {
    && s.pos <= |s.data| <= s.cap && |s.data| < 0x1_0000_0000 && s'.cap == s.cap
    && match op
       case OpRead(n) =>
         var k := Min(n, |s.data| - s.pos);
         s'.data == s.data && s'.pos == s.pos + k && out == s.data[s.pos..s.pos + k]
       case OpWrite(x) =>
         var k := StoredCount(s, |x|);
         k <= |x| && s'.data == Splice(s.data, s.pos, x[..k]) && s'.pos == s.pos + k && out == x[..k]
       case OpSeek(ofs) =>
         s'.pos == Min(ofs, s.cap) && s.data <= s'.data
         && |s'.data| == (if s'.pos > |s.data| then s'.pos else |s.data|) && out == []
       case OpTruncate =>
         s'.data == s.data[..s.pos] && s'.pos == s.pos && out == []
       case OpSync =>
         s' == s && out == []
  }

  /** Bytes that the file could hold if it got every free cluster. */
  ghost function Capacity(fp: Fil): nat
    reads fp`chain, fp.fs`fat
  {
    Times(Pool(fp), fp.fs.geo.csize) * 512
  }

  ghost function Abs(fp: Fil): State
    requires fp.Covers()
    reads fp`objsize, fp`body, fp`fptr, fp`chain, fp.fs`fat
  {
    State(fp.Data(), fp.fptr, Capacity(fp))
  }

  lemma BodyLength(fp: Fil)
    requires fp.Core()
    ensures |fp.body| == Times(|fp.chain|, fp.fs.geo.csize)
  {
    hide Fil.VolumeOk, Fil.BufOk, Fil.WindowOk, Chained, GoodSecs;
  }

  /** A sound file lies within its capacity. */
  lemma WithinCapacity(fp: Fil)
    requires fp.Sound()
    ensures fp.fptr <= fp.objsize == |fp.Data()| <= |fp.body| * 512 <= Capacity(fp)
    ensures CountFree(fp.fs.fat) == 0 ==> |fp.body| * 512 == Capacity(fp)
  {
    hide Fil.VolumeOk, Fil.BufOk, Fil.WindowOk, Chained, SecsAre, BodyMatches, Idx, CountFree;
    BodyLength(fp);
    TimesMonotone(|fp.chain|, Pool(fp), fp.fs.geo.csize);
  }

  /** A file owns exactly as many clusters as its bytes need, none if it is empty, and stays below 4 GiB. */
  lemma OwnedClusters(fp: Fil)
    requires fp.Sound()
    ensures Times(|fp.chain|, fp.fs.geo.csize) * 512 >= fp.objsize
    ensures fp.chain != [] ==> Times(|fp.chain| - 1, fp.fs.geo.csize) * 512 < fp.objsize
    ensures fp.sclust == 0 <==> fp.objsize == 0
    ensures fp.fptr <= fp.objsize <= 0xFFFF_FFFF
  {
    hide Fil.BufOk, Fil.WindowOk, Fil.VolumeOk, SecsAre, BodyMatches, Idx;
    if fp.chain != [] { ChainStep(fp.fs.fat, fp.chain, 0); }
    ClustersHold(fp.fs.geo, fp.objsize);
  }

  lemma ClustersHold(g: Geometry, n: nat)
    requires g.csize > 0
    ensures Times(Clusters(g, n), g.csize) * 512 >= n
    ensures Clusters(g, n) > 0 <==> n > 0
    ensures n > 0 ==> Times(Clusters(g, n) - 1, g.csize) * 512 < n
  {
    if n > 0 { IdxSector(g, n - 1); }
  }

  /** A short count means the capacity is used up: the amount moved is exactly the smaller bound. */
  lemma ExactCount(p: nat, want: nat, got: nat, end: nat, cap: nat, freeLeft: nat)
    requires got <= want && p + got <= end <= cap
    requires got < want ==> freeLeft == 0 && p + got == end
    requires freeLeft == 0 ==> end == cap
    ensures p <= cap && got == Min(want, cap - p)
  {
  }

  // ----- The chains of the whole volume

  /** The FAT is the chains of m, and the file's chain is one of them. */
  ghost predicate Among(fp: Fil, m: map<nat, seq<nat>>)
    reads fp`chain, fp.fs`fat
  {
    Layout(fp.fs.fat, m) && (fp.chain != [] ==> fp.chain[0] in m && m[fp.chain[0]] == fp.chain)
  }

  /** A consistent file that is open for reading and writing, on a volume that is laid out in the chains of m or not. */
  ghost predicate Open(fp: Fil, laid: bool, m: map<nat, seq<nat>>)
    reads fp, fp.buf, fp.fs`winsect, fp.fs`wflag, fp.fs`vol, fp.fs`fat, fp.fs`freeClst, fp.fs`promise, fp.fs`fsiCount,
      fp.fs`fsiFlag, fp.fs`id, fp.fs.win, fp.fs.disk
  {
    fp.Good() && fp.err == OK && fp.canRead && fp.canWrite && fp.id == fp.fs.id && (laid ==> Among(fp, m))
  }

  /** The chains of everything but the file. */
  function Others(m: map<nat, seq<nat>>, chain: seq<nat>): map<nat, seq<nat>> {
    if chain == [] then m else m - {chain[0]}
  }

  /** On a volume that is laid out the other chains are the same. */
  ghost predicate SameOthers(laid: bool, m: map<nat, seq<nat>>, chain: seq<nat>, m': map<nat, seq<nat>>,
                             chain': seq<nat>) {
    laid ==> Others(m', chain') == Others(m, chain)
  }

  /** m with the file's chain replaced. */
  function Replaced(m: map<nat, seq<nat>>, was: seq<nat>, now: seq<nat>): map<nat, seq<nat>> {
    if now == [] then Others(m, was) else Others(m, was)[now[0] := now]
  }

  /** Growing one chain by free clusters keeps the volume a set of disjoint chains, the others unchanged. */
  lemma GrownLayout(fat: seq<nat>, f: seq<nat>, m: map<nat, seq<nat>>, ch: seq<nat>, ch': seq<nat>)
    requires Layout(fat, m) && (ch != [] ==> ch[0] in m && m[ch[0]] == ch)
    requires Grown(fat, ch, f, ch') && (ch' != [] ==> Linked(f, ch'))
    ensures Layout(f, Replaced(m, ch, ch')) && Others(Replaced(m, ch, ch'), ch') == Others(m, ch)
  {
    hide Linked, Disjoint, Covered, AllLinked, Grown;
    OthersApart(fat, f, m, ch, ch');
    OthersSurvive(fat, f, m, ch, ch');
    if ch' != [] {
      assert ch'[0] in ch';
      NotAKey(fat, m, ch, ch'[0]);
    }
    GrownPrefix(fat, f, ch, ch');
    ReplacedDisjoint(m, ch, ch');
    ReplacedCovered(fat, f, m, ch, ch');
    ReplacedLinked(f, m, ch, ch');
  }

  lemma GrownPrefix(fat: seq<nat>, f: seq<nat>, ch: seq<nat>, ch': seq<nat>)
    requires Grown(fat, ch, f, ch')
    ensures |f| == |fat| && (ch' == [] ==> ch == [])
  {
  }

  /** No other chain meets the grown one. */
  lemma OthersApart(fat: seq<nat>, f: seq<nat>, m: map<nat, seq<nat>>, ch: seq<nat>, ch': seq<nat>)
    requires AllLinked(fat, m) && Disjoint(m) && (ch != [] ==> ch[0] in m && m[ch[0]] == ch) && Grown(fat, ch, f, ch')
    ensures forall k, c | k in Others(m, ch) && c in m[k] :: c !in ch' && Cluster(fat, c)
  {
    forall k, c | k in Others(m, ch) && c in m[k] ensures c !in ch' && Cluster(fat, c) {
      LinkedUsed(fat, m[k], c);
      assert Owner(m, k, c);
      if c in ch' { GrownMember(fat, f, ch, ch', c); }
      OwnedByHead(m, ch, c);
    }
  }

  lemma OwnedByHead(m: map<nat, seq<nat>>, ch: seq<nat>, c: nat)
    requires ch != [] ==> ch[0] in m && m[ch[0]] == ch
    ensures c in ch ==> Owner(m, ch[0], c)
  {
  }

  lemma GrownMember(fat: seq<nat>, f: seq<nat>, ch: seq<nat>, ch': seq<nat>, c: nat)
    requires Grown(fat, ch, f, ch') && c in ch'
    ensures c in ch || Free(fat, c)
  {
    var i: nat :| i < |ch'| && ch'[i] == c;
    if i < |ch| { assert ch[i] == c; } else { assert Free(fat, ch'[i]); }
  }

  lemma OthersSurvive(fat: seq<nat>, f: seq<nat>, m: map<nat, seq<nat>>, ch: seq<nat>, ch': seq<nat>)
    requires AllLinked(fat, m) && Grown(fat, ch, f, ch')
    requires forall k, c | k in Others(m, ch) && c in m[k] :: c !in ch' && Cluster(fat, c)
    ensures forall k | k in Others(m, ch) :: Linked(f, m[k]) && m[k][0] == k
  {
    forall k | k in Others(m, ch) ensures Linked(f, m[k]) && m[k][0] == k {
      forall i | 0 <= i < |m[k]| ensures f[m[k][i]] == fat[m[k][i]] { assert m[k][i] in m[k]; }
      LinkedElsewhere(fat, f, m[k]);
    }
  }

  /** The first cluster of the grown chain is not the key of another one. */
  lemma NotAKey(fat: seq<nat>, m: map<nat, seq<nat>>, ch: seq<nat>, h: nat)
    requires AllLinked(fat, m) && forall k, c | k in Others(m, ch) && c in m[k] :: c != h
    ensures h !in Others(m, ch)
  {
    if h in m { KeyInside(fat, m, h); }
  }

  lemma KeyInside(fat: seq<nat>, m: map<nat, seq<nat>>, h: nat)
    requires AllLinked(fat, m) && h in m
    ensures h in m[h]
  {
    assert m[h][0] == h;
  }

  lemma ReplacedLinked(f: seq<nat>, m: map<nat, seq<nat>>, ch: seq<nat>, ch': seq<nat>)
    requires forall k | k in Others(m, ch) :: Linked(f, m[k]) && m[k][0] == k
    requires ch' != [] ==> Linked(f, ch') && ch'[0] !in Others(m, ch)
    requires ch' == [] ==> ch == []
    ensures AllLinked(f, Replaced(m, ch, ch')) && Others(Replaced(m, ch, ch'), ch') == Others(m, ch)
  {
  }

  lemma ReplacedDisjoint(m: map<nat, seq<nat>>, ch: seq<nat>, ch': seq<nat>)
    requires Disjoint(m) && forall k, c | k in Others(m, ch) && c in m[k] :: c !in ch'
    ensures Disjoint(Replaced(m, ch, ch'))
  {
    var m' := Replaced(m, ch, ch');
    forall h, k, c | Owner(m', h, c) && Owner(m', k, c) ensures h == k {
      assert ch' == [] || h != ch'[0] ==> Owner(m, h, c);
      assert ch' == [] || k != ch'[0] ==> Owner(m, k, c);
    }
  }

  lemma ReplacedCovered(fat: seq<nat>, f: seq<nat>, m: map<nat, seq<nat>>, ch: seq<nat>, ch': seq<nat>)
    requires Covered(fat, m) && (ch != [] ==> ch[0] in m && m[ch[0]] == ch) && Grown(fat, ch, f, ch')
    requires ch' != [] ==> ch'[0] !in Others(m, ch)
    ensures Covered(f, Replaced(m, ch, ch'))
  {
    var m' := Replaced(m, ch, ch');
    forall c: nat | Cluster(f, c) && f[c] != 0 ensures exists h :: Owner(m', h, c) {
      if c in ch' {
        assert Owner(m', ch'[0], c);
      } else {
        var h :| Owner(m, h, c);
        assert c !in ch;
        assert Owner(m', h, c);
      }
    }
  }

  /** Shortening the file's chain does the same. */
  lemma ShortenedLayout(fat: seq<nat>, m: map<nat, seq<nat>>, ch: seq<nat>, k: nat, eoc: nat)
    requires Layout(fat, m) && (ch != [] ==> ch[0] in m && m[ch[0]] == ch) && k <= |ch| && eoc >= |fat|
    requires forall i | 0 <= i < |ch| :: Cluster(fat, ch[i])
    ensures Layout(CutFat(fat, ch, k, eoc), Replaced(m, ch, ch[..k]))
    ensures Others(Replaced(m, ch, ch[..k]), ch[..k]) == Others(m, ch)
  {
    hide Layout, Linked, Cut, Replaced, Others, Shortened;
    if k == |ch| {
      assert ch[..k] == ch;
      ReplacedSame(m, ch);
    } else {
      CutLayout(fat, m, ch[0], k, eoc);
      ReplacedShort(m, ch, k);
    }
  }

  lemma ReplacedSame(m: map<nat, seq<nat>>, ch: seq<nat>)
    requires ch != [] ==> ch[0] in m && m[ch[0]] == ch
    ensures Replaced(m, ch, ch) == m
  {
  }

  lemma ReplacedShort(m: map<nat, seq<nat>>, ch: seq<nat>, k: nat)
    requires k < |ch| && ch[0] in m && m[ch[0]] == ch
    ensures Replaced(m, ch, ch[..k]) == Shortened(m, ch[0], k)
    ensures Others(Replaced(m, ch, ch[..k]), ch[..k]) == Others(m, ch)
  {
    if k > 0 { assert ch[..k][0] == ch[0]; }
  }

  // ----- Operations and runs

  lemma ChainEnds(fp: Fil)
    requires fp.Core()
    ensures fp.chain != [] ==> Linked(fp.fs.fat, fp.chain)
  {
    hide Fil.VolumeOk, Fil.BufOk, Fil.WindowOk, SecsAre, BodyMatches;
  }

  /** What f_write reports is a step: fewer bytes only where the capacity ends. */
  lemma WriteIsStep(s: State, x: seq<byte>, s': State, bw: nat, end: nat, freeLeft: nat)
    requires s.pos <= |s.data| <= s.cap == s'.cap && |s.data| < 0x1_0000_0000 && |x| < 0x1_0000_0000
    requires bw <= WriteLimit(s.pos, |x|) <= |x| && s'.pos == s.pos + bw <= end <= s.cap
    requires s'.data == Splice(s.data, s.pos, x[..bw])
    requires bw < WriteLimit(s.pos, |x|) ==> freeLeft == 0 && s'.pos == end
    requires freeLeft == 0 ==> end == s.cap
    ensures Step(s, OpWrite(x), s', x[..bw])
  {
    hide Splice;
    ExactCount(s.pos, WriteLimit(s.pos, |x|), bw, end, s.cap, freeLeft);
  }

  /**
    One call of the file API with the bytes it hands back. If the volume is laid out in chains it stays
    so; a file whose last sync failed is served like any other.
  */
  method Apply(fp: Fil, op: Op, ghost laid: bool, ghost m: map<nat, seq<nat>>)
    returns (res: FResult, out: seq<byte>, ghost m': map<nat, seq<nat>>)
    requires fp.Sound() && fp.err == OK && fp.canRead && fp.canWrite && fp.id == fp.fs.id && (laid ==> Among(fp, m))
    requires op.OpWrite? ==> |op.x| < 0x1_0000_0000
    modifies fp, fp.buf, fp.fs, fp.fs.win, fp.fs.disk`img
    ensures fp.fs.disk.reliable ==> res == OK
    ensures fp.id == fp.fs.id
    ensures res == OK && old(fp.modified || fp.Synced()) ==> fp.Good()
    ensures res == OK ==>
      fp.Sound() && fp.err == OK &&
      (laid ==> Among(fp, m') && Others(m', fp.chain) == Others(m, old(fp.chain)))
    ensures res == OK ==> Step(old(Abs(fp)), op, Abs(fp), out)
  {
    hide Fil.VolumeOk, Fil.BufOk, Fil.WindowOk, Chained, SecsAre, BodyMatches, Idx, CountFree, Clusters, Fil.Synced,
      Bytes;
    hide Step, Layout, Others, Splice;
    out := [];
    m' := m;
    match op
    case OpRead(n) => res, out := ApplyRead(fp, n);
    case OpWrite(x) => res, out, m' := ApplyWrite(fp, x, laid, m);
    case OpSeek(ofs) => res, m' := ApplySeek(fp, ofs, laid, m);
    case OpTruncate => res, m' := ApplyTruncate(fp, laid, m);
    case OpSync => res := ApplySync(fp);
  }

  method ApplyRead(fp: Fil, n: dword) returns (res: FResult, out: seq<byte>)
    requires fp.Sound() && fp.err == OK && fp.canRead && fp.id == fp.fs.id
    modifies fp`fptr, fp`clust, fp`sect, fp`dirty, fp`err, fp.buf
    modifies fp.fs`winsect, fp.fs`wflag, fp.fs`vol, fp.fs.win, fp.fs.disk`img
    ensures fp.fs.disk.reliable ==> res == OK
    ensures res == OK && old(fp.modified || fp.Synced()) ==> fp.Good()
    ensures res == OK ==> fp.Sound() && fp.err == OK && Step(old(Abs(fp)), OpRead(n), Abs(fp), out)
    ensures res == OK ==> Beside(fp.fs.geo, fp.secs, fp.dirSect, fp.dirOfs, old(fp.fs.vol), fp.fs.vol)
    ensures fp.Loose() && (res != OK ==> Interrupted(fp))
  {
    hide Fil.Loose, Fil.Threaded, Valid, Outside, Beside, Fil.VolumeOk, Fil.BufOk, Fil.WindowOk, Chained, SecsAre,
      BodyMatches, Idx, CountFree, Clusters, Fil.Synced, Bytes;
    WithinCapacity(fp);
    var rbuff := new byte[n];
    var br;
    res, br := Read(fp, rbuff, n);
    out := [];
    if res == OK {
      out := rbuff[..br];
      OutsideBeside(fp, old(fp.fs.vol));
    }
  }

  method ApplyWrite(fp: Fil, x: seq<byte>, ghost laid: bool, ghost m: map<nat, seq<nat>>)
    returns (res: FResult, out: seq<byte>, ghost m': map<nat, seq<nat>>)
    requires fp.Sound() && fp.err == OK && fp.canWrite && fp.id == fp.fs.id && (laid ==> Among(fp, m)) &&
      |x| < 0x1_0000_0000
    modifies fp, fp.buf, fp.fs`winsect, fp.fs`wflag, fp.fs`vol, fp.fs`fat, fp.fs`lastClst, fp.fs`freeClst, fp.fs`fsiFlag
    modifies fp.fs`promise, fp.fs.win, fp.fs.disk`img
    ensures fp.fs.disk.reliable ==> res == OK
    ensures res == OK && old(fp.modified || fp.Synced()) ==> fp.Good()
    ensures res == OK ==>
      fp.Sound() && fp.err == OK &&
      (laid ==> Among(fp, m') && Others(m', fp.chain) == Others(m, old(fp.chain)))
    ensures res == OK ==> Step(old(Abs(fp)), OpWrite(x), Abs(fp), out)
    ensures res == OK ==>
      Beside(fp.fs.geo, fp.secs, fp.dirSect, fp.dirOfs, old(fp.fs.vol), fp.fs.vol) &&
      old(fp.secs) <= fp.secs && fp.modified
    ensures fp.Loose() && (res != OK ==> Interrupted(fp))
    ensures Spares(old(fp.fs.promise), fp.fs.promise, old(fp.secs), old(fp.fptr) / 512, LastOf(old(fp.fptr), |x|))
  {
    hide Fil.Loose, Fil.Threaded, Valid, Spares, LastOf, Fil.VolumeOk, Fil.BufOk, Fil.WindowOk, SecsAre, BodyMatches,
      Idx, CountFree, Clusters, Fil.Synced, Bytes, Layout;
    hide Linked, Grown, Outside, Beside, Replaced, Others, Step, Splice, Fil.Core, Fil.Cursor, Fil.Tight, WriteLimit;
    WithinCapacity(fp);
    ghost var chain, fat := fp.chain, fp.fs.fat;
    var bw;
    m' := m;
    out := [];
    res, bw := Write(fp, x);
    if res != OK { return; }
    out := x[..bw];
    WithinCapacity(fp);
    WriteIsStep(old(Abs(fp)), x, Abs(fp), bw, |fp.body| * 512, CountFree(fp.fs.fat));
    ChainEnds(fp);
    OutsideBeside(fp, old(fp.fs.vol));
    if laid { GrownLayout(fat, fp.fs.fat, m, chain, fp.chain); }
    m' := Replaced(m, chain, fp.chain);
    ReplacedHas(m, chain, fp.chain);
  }

  method ApplySeek(fp: Fil, ofs: dword, ghost laid: bool, ghost m: map<nat, seq<nat>>)
    returns (res: FResult, ghost m': map<nat, seq<nat>>)
    requires fp.Sound() && fp.err == OK && fp.canWrite && fp.id == fp.fs.id && (laid ==> Among(fp, m))
    modifies fp, fp.buf, fp.fs`winsect, fp.fs`wflag, fp.fs`vol, fp.fs`fat, fp.fs`lastClst, fp.fs`freeClst, fp.fs`fsiFlag
    modifies fp.fs.win, fp.fs.disk`img
    ensures fp.fs.disk.reliable ==> res == OK
    ensures res == OK && old(fp.modified || fp.Synced()) ==> fp.Good()
    ensures res == OK ==>
      fp.Sound() && fp.err == OK &&
      (laid ==> Among(fp, m') && Others(m', fp.chain) == Others(m, old(fp.chain)))
    ensures res == OK ==> Step(old(Abs(fp)), OpSeek(ofs), Abs(fp), [])
    ensures res == OK ==>
      Beside(fp.fs.geo, fp.secs, fp.dirSect, fp.dirOfs, old(fp.fs.vol), fp.fs.vol) &&
      old(fp.secs) <= fp.secs
    ensures fp.Loose() && (res != OK ==> Interrupted(fp)) && (res == OK ==> Clear(fp, |old(fp.secs)|, |fp.secs|))
  {
    hide Fil.Loose, Fil.Threaded, Valid, Clear, Fil.VolumeOk, Fil.BufOk, Fil.WindowOk, SecsAre, BodyMatches, Idx,
      CountFree, Clusters, Fil.Synced, Bytes, Layout;
    hide Linked, Grown, Outside, Beside, Replaced, Others;
    WithinCapacity(fp);
    ghost var chain, fat := fp.chain, fp.fs.fat;
    m' := m;
    res := Seek(fp, ofs);
    if res != OK { return; }
    WithinCapacity(fp);
    ExactCount(0, ofs, fp.fptr, |fp.body| * 512, Capacity(fp), CountFree(fp.fs.fat));
    OutsideBeside(fp, old(fp.fs.vol));
    if laid { GrownLayout(fat, fp.fs.fat, m, chain, fp.chain); }
    m' := Replaced(m, chain, fp.chain);
    ReplacedHas(m, chain, fp.chain);
  }

  method ApplyTruncate(fp: Fil, ghost laid: bool, ghost m: map<nat, seq<nat>>)
    returns (res: FResult, ghost m': map<nat, seq<nat>>)
    requires fp.Sound() && fp.err == OK && fp.canWrite && fp.id == fp.fs.id && (laid ==> Among(fp, m))
    modifies fp, fp.fs`winsect, fp.fs`wflag, fp.fs`vol, fp.fs`fat, fp.fs`freeClst, fp.fs`fsiFlag, fp.fs`promise,
      fp.fs.win, fp.fs.disk`img
    ensures fp.fs.disk.reliable ==> res == OK
    ensures res == OK && old(fp.modified || fp.Synced()) ==> fp.Good()
    ensures res == OK ==>
      fp.Sound() && fp.err == OK &&
      (laid ==> Among(fp, m') && Others(m', fp.chain) == Others(m, old(fp.chain)))
    ensures res == OK ==> Step(old(Abs(fp)), OpTruncate, Abs(fp), [])
  {
    hide Fil.VolumeOk, Fil.BufOk, Fil.WindowOk, SecsAre, BodyMatches, Idx, CountFree, Clusters, Fil.Synced, Bytes,
      Layout;
    hide Linked, Outside, Replaced, Others, CutFat, Eoc;
    WithinCapacity(fp);
    EocAbove(fp);
    ghost var chain, fat := fp.chain, fp.fs.fat;
    m' := m;
    res := Truncate(fp);
    if res != OK { return; }
    assert fp.chain == chain[..|fp.chain|];
    if laid { ShortenedLayout(fat, m, chain, |fp.chain|, Eoc(fp.fs.geo.fsType)); }
    m' := Replaced(m, chain, fp.chain);
    ReplacedHas(m, chain, fp.chain);
  }

  lemma EocAbove(fp: Fil)
    requires fp.VolumeOk()
    ensures Eoc(fp.fs.geo.fsType) >= |fp.fs.fat|
  {
    ValidFacts(fp.fs);
  }

  method ApplySync(fp: Fil) returns (res: FResult)
    requires fp.Sound() && fp.err == OK && fp.id == fp.fs.id
    modifies fp`dirty, fp`modified, fp.fs`winsect, fp.fs`wflag, fp.fs`vol, fp.fs`promise, fp.fs`fsiFlag, fp.fs`fsiCount,
      fp.fs.win, fp.fs.disk`img
    ensures fp.fs.disk.reliable ==> res == OK
    ensures res == OK && old(fp.modified || fp.Synced()) ==> fp.Good()
    ensures fp.Loose()
    ensures res == OK ==> fp.Sound() && fp.err == OK && Step(old(Abs(fp)), OpSync, Abs(fp), [])
  {
    hide Valid, Spares, EntryOldOrNew, Rewritten, Beside, Fil.VolumeOk, Fil.BufOk, Fil.WindowOk, Chained, SecsAre,
      BodyMatches, Idx, CountFree, Clusters, Bytes, FileOnDisk;
    WithinCapacity(fp);
    var tm: dword :| true;  // the clock
    CoreLoose(fp);
    res := Sync(fp, tm);
  }

  lemma ReplacedHas(m: map<nat, seq<nat>>, was: seq<nat>, now: seq<nat>)
    ensures now != [] ==> now[0] in Replaced(m, was, now) && Replaced(m, was, now)[now[0]] == now
  {
  }

  /**
    Any sequence of calls on one open file behaves as the byte array: the i-th call takes the i-th
    state of the trace to the next one. It stops early only at a disk error.
  */
  method RunOps(fp: Fil, ops: seq<Op>, ghost laid: bool, ghost m: map<nat, seq<nat>>)
    returns (done: nat, outs: seq<seq<byte>>, ghost trace: seq<State>, ghost m': map<nat, seq<nat>>)
    requires fp.Sound() && fp.err == OK && fp.canRead && fp.canWrite && fp.id == fp.fs.id && (laid ==> Among(fp, m))
    requires forall i | 0 <= i < |ops| :: ops[i].OpWrite? ==> |ops[i].x| < 0x1_0000_0000
    modifies fp, fp.buf, fp.fs, fp.fs.win, fp.fs.disk`img
    ensures done <= |ops| && |outs| == done && |trace| == done + 1 && trace[0] == old(Abs(fp))
    ensures forall i | 0 <= i < done :: Step(trace[i], ops[i], trace[i + 1], outs[i])
    ensures fp.fs.disk.reliable ==> done == |ops|
    ensures done == |ops| && old(fp.modified || fp.Synced()) ==> fp.Good()
    ensures done == |ops| ==> fp.Sound() && fp.err == OK && trace[done] == Abs(fp)
    ensures done == |ops| && laid ==> Among(fp, m') && Others(m', fp.chain) == Others(m, old(fp.chain))
  {
    hide Fil.VolumeOk, Fil.BufOk, Fil.WindowOk, Chained, SecsAre, BodyMatches, Idx, CountFree, Clusters, Fil.Synced,
      Bytes;
    hide Step, Layout, Others;
    done, outs, trace, m' := 0, [], [Abs(fp)], m;
    while done < |ops|
      invariant done <= |ops| && |outs| == done && |trace| == done + 1 && trace[0] == old(Abs(fp))
      invariant old(fp.modified || fp.Synced()) ==> fp.modified || fp.Synced()
      invariant fp.Sound() && fp.err == OK && fp.id == fp.fs.id && trace[done] == Abs(fp)
      invariant laid ==> Among(fp, m') && Others(m', fp.chain) == Others(m, old(fp.chain))
      invariant forall i | 0 <= i < done :: Step(trace[i], ops[i], trace[i + 1], outs[i])
    {
      var res, out;
      res, out, m' := Apply(fp, ops[done], laid, m');
      if res != OK { return; }
      trace, outs := trace + [Abs(fp)], outs + [out];
      done := done + 1;
    }
  }
}
