/** The request handlers of the storage service: one file used as a flat array of 512-byte blocks. */
module BlockStore {
  import opened FatTypes
  import opened Window
  import opened FatEntries
  import opened FatAccess
  import opened ChainTheory
  import opened Chains
  import opened ClusterMap
  import opened FileBytes
  import opened FileMap
  import opened FileObject
  import opened FileWrite
  import opened FileRead
  import opened FileSync
  import opened FileReopen
  import opened FileSpec

  datatype Code = Ok | NotReady | IoFailure | InvalidBlock | Cancelled

  const BLOCK_SIZE: nat := 512

  /** Largest block whose offset fits FSIZE_t. */
  const MAX_BLOCK: nat := 0x7F_FFFF

  /** Multiplies in 64 bits and rejects an offset that does not survive the cast to 32. */
  method ComputeBlockOffset(blockId: dword) returns (ok: bool, offset: dword)
    ensures ok <==> blockId <= MAX_BLOCK
    ensures ok ==> offset == blockId * BLOCK_SIZE && offset % BLOCK_SIZE == 0
  {
    var wide := blockId * BLOCK_SIZE;
    if wide > 0xFFFF_FFFF { return false, 0; }
    return true, wide;
  }

  /** The bytes of d outside block b are in d' too. */
  ghost predicate KeepsOthers(d: seq<byte>, d': seq<byte>, b: nat) {
    && |d| <= |d'|
    && forall i: nat | i < |d| && !(b * 512 <= i < b * 512 + 512) :: d'[i] == d[i]
  }

  /** d with every byte that exists before offset off, opened up to off. */
  ghost predicate GrownTo(d: seq<byte>, d': seq<byte>, off: nat) {
    d <= d' && |d'| == if off > |d| then off else |d|
  }

  /** What a read request may do: only ever grow the file, up to the block asked for. */
  ghost predicate ReadOutcome(s: State, blockId: nat, s': State, code: Code, block: seq<byte>) {
    && s'.cap == s.cap && s'.pos <= |s'.data| <= s'.cap
    && if blockId > MAX_BLOCK then code == InvalidBlock && s' == s
       else
         var off := blockId * 512;
         && GrownTo(s.data, s'.data, Min(off, s.cap))
         && code == (if off > s.cap then InvalidBlock else Ok)
         && (code == Ok ==> block == s'.data[off..off + Min(512, |s'.data| - off)])
  }

  /** f_read of one block into the result: every byte of the file from the cursor on, up to a block. */
  method ReadBlockHere(fp: Fil, data: array<byte>, ghost laid: bool, ghost m: map<nat, seq<nat>>)
    returns (res: FResult, br: nat)
    requires Open(fp, laid, m) && data.Length == 512 && data != fp.buf && data != fp.fs.win
    modifies data, fp`fptr, fp`clust, fp`sect, fp`dirty, fp`err, fp.buf
    modifies fp.fs`winsect, fp.fs`wflag, fp.fs`vol, fp.fs.win, fp.fs.disk`img
    ensures fp.fs.disk.reliable ==> res == OK
    ensures res == OK ==> Open(fp, laid, m) && old(fp.fptr) <= |fp.Data()| && br == Min(512, |fp.Data()| - old(fp.fptr))
    ensures res == OK ==> fp.Data() == old(fp.Data()) && data[..br] == fp.Data()[old(fp.fptr)..old(fp.fptr) + br]
    ensures res == OK ==> Outside(fp.fs.geo, fp.secs, old(fp.fs.vol), fp.fs.vol)
    ensures fp.Loose() && (res != OK ==> Interrupted(fp))
  {
    hide Fil.Loose, Fil.Threaded, Valid, Fil.VolumeOk, Fil.BufOk, Fil.WindowOk, Chained, SecsAre, BodyMatches, Idx,
      CountFree, Clusters, Fil.Synced, Bytes;
    hide Among, Outside, Patch;
    ghost var was := data[..];
    res, br := Read(fp, data, BLOCK_SIZE);
    if res == OK { PatchHead(was, fp.Data()[old(fp.fptr)..old(fp.fptr) + br]); }
  }

  lemma BesideRefl(fp: Fil)
    requires fp.Core()
    ensures Beside(fp.fs.geo, fp.secs, fp.dirSect, fp.dirOfs, fp.fs.vol, fp.fs.vol)
  {
    hide Fil.VolumeOk, Fil.BufOk, Chained, SecsAre, BodyMatches;
    OutsideBeside(fp, fp.fs.vol);
  }

  lemma OpenGood(fp: Fil, laid: bool, m: map<nat, seq<nat>>)
    requires Open(fp, laid, m)
    ensures fp.Good() && fp.Sound() && fp.Covers() && fp.err == OK
  {
    hide Fil.Core, Fil.Cursor, Fil.Tight, Fil.Synced, Among;
  }

  /** f_lseek of handleRead: the cursor stands at the block, or the volume ran full before it. */
  method SeekBlock(fp: Fil, offset: dword, ghost laid: bool, ghost m: map<nat, seq<nat>>)
    returns (res: FResult, ghost m': map<nat, seq<nat>>)
    requires Open(fp, laid, m)
    modifies fp, fp.buf, fp.fs`winsect, fp.fs`wflag, fp.fs`vol, fp.fs`fat, fp.fs`lastClst, fp.fs`freeClst, fp.fs`fsiFlag
    modifies fp.fs.win, fp.fs.disk`img
    ensures fp.fs.disk.reliable ==> res == OK
    ensures res == OK ==>
      Open(fp, laid, m') && SameOthers(laid, m, old(fp.chain), m', fp.chain) &&
      Capacity(fp) == old(Capacity(fp))
    ensures res == OK ==> fp.fptr == Min(offset, Capacity(fp)) <= |fp.Data()| <= Capacity(fp)
    ensures res == OK ==> GrownTo(old(fp.Data()), fp.Data(), Min(offset, Capacity(fp)))
    ensures res == OK ==> Beside(fp.fs.geo, fp.secs, fp.dirSect, fp.dirOfs, old(fp.fs.vol), fp.fs.vol)
    ensures fp.Loose() && (res != OK ==> Interrupted(fp)) && (res == OK ==> old(fp.secs) <= fp.secs)
  {
    hide Fil.Loose, Fil.Threaded, Valid, Clear, Fil.VolumeOk, Fil.BufOk, Fil.WindowOk, Chained, SecsAre, BodyMatches,
      Idx, CountFree, Clusters, Fil.Synced, Bytes;
    hide Others, Among, Outside, Beside;
    OpenGood(fp, laid, m);
    WithinCapacity(fp);
    res, m' := ApplySeek(fp, offset, laid, m);
    if res == OK { WithinCapacity(fp); }
  }

  /** handleRead. */
  method HandleRead(fp: Fil, blockId: dword, data: array<byte>, ghost laid: bool, ghost m: map<nat, seq<nat>>)
    returns (code: Code, length: nat, ghost m': map<nat, seq<nat>>)
    requires Open(fp, laid, m) && data.Length == 512 && data != fp.buf && data != fp.fs.win
    modifies fp, fp.buf, fp.fs`winsect, fp.fs`wflag, fp.fs`vol, fp.fs`fat, fp.fs`lastClst, fp.fs`freeClst, fp.fs`fsiFlag
    modifies fp.fs.win, fp.fs.disk`img, data
    ensures code == IoFailure ==> !fp.fs.disk.reliable
    ensures code != IoFailure ==> Open(fp, laid, m') && SameOthers(laid, m, old(fp.chain), m', fp.chain)
    ensures length <= 512
    ensures code != IoFailure ==> ReadOutcome(old(Abs(fp)), blockId, Abs(fp), code, data[..length])
    ensures code != IoFailure ==> Beside(fp.fs.geo, fp.secs, fp.dirSect, fp.dirOfs, old(fp.fs.vol), fp.fs.vol)
    ensures fp.Loose() && if code == IoFailure then Interrupted(fp) else old(fp.secs) <= fp.secs
  {
    hide Fil.Loose, Fil.Threaded, Valid, Fil.Core, Fil.Cursor, Fil.Tight, Fil.Synced, Bytes, Others, Among, Fil.Good,
      Outside, Beside, Capacity;
    OpenGood(fp, laid, m);
    CoreLoose(fp);
    WithinCapacity(fp);
    BesideRefl(fp);
    length, m' := 0, m;
    var ok, offset := ComputeBlockOffset(blockId);
    if !ok { return InvalidBlock, 0, m; }
    var res;
    res, m' := SeekBlock(fp, offset, laid, m);
    if res != OK { return IoFailure, 0, m'; }
    OpenGood(fp, laid, m');
    if fp.fptr != offset { return InvalidBlock, 0, m'; }
    ghost var mid := fp.fs.vol;
    res, length := ReadBlockHere(fp, data, laid, m');
    if res != OK { return IoFailure, 0, m'; }
    OpenGood(fp, laid, m');
    OutsideBeside(fp, mid);
    BesideTrans(fp.fs.geo, fp.secs, fp.secs, fp.dirSect, fp.dirOfs, old(fp.fs.vol), mid, fp.fs.vol);
    WithinCapacity(fp);
    code := Ok;
  }

  /** How many of n bytes fit at offset off: a seek beyond the capacity is clamped to it. */
  function Fits(off: dword, n: nat, cap: nat): nat {
    var p: dword := if off < cap then off else cap;
    Min(WriteLimit(p, n), cap - p)
  }

  /** Every byte of x that fits, written at off or at the clamped end. */
  ghost predicate WrittenAt(d: seq<byte>, off: dword, x: seq<byte>, cap: nat, d': seq<byte>) {
    Fits(off, |x|, cap) <= |x| &&
    exists gap :: GrownTo(d, gap, Min(off, cap)) && Min(off, cap) <= |gap| &&
      d' == Splice(gap, Min(off, cap), x[..Fits(off, |x|, cap)])
  }

  /** What a write request may do. */
  ghost predicate WriteOutcome(s: State, blockId: nat, x: seq<byte>, s': State, code: Code) {
    && s'.cap == s.cap && s'.pos <= |s'.data| <= s'.cap
    && if |x| > BLOCK_SIZE || blockId > MAX_BLOCK then code == InvalidBlock && s' == s
       else
         && WrittenAt(s.data, blockId * 512, x, s.cap, s'.data)
         && code == if Fits(blockId * 512, |x|, s.cap) == |x| then Ok else IoFailure
  }

  /** Only the promises about these sectors are given up. */
  ghost predicate GivenUp(was: Promise, now: Promise, gone: set<nat>) {
    now.links == was.links && Weaker(now, was) && forall s | s in was.secs && s !in now.secs :: s in gone
  }

  /** The sector of block b, if the file has it. */
  function BlockSector(secs: seq<nat>, b: nat): set<nat> { if b < |secs| then {secs[b]} else {} }

  lemma NoneGivenUp(p: Promise, gone: set<nat>)
    ensures GivenUp(p, p, gone)
  {
  }

  lemma GivenUpMore(p0: Promise, p1: Promise, p2: Promise, gone: set<nat>, d: nat)
    requires GivenUp(p0, p1, gone) && Spares(p1, p2, [d], 0, 0)
    ensures GivenUp(p0, p2, gone + {d}) && Weaker(p1, p0)
  {
  }

  lemma EntryNotData(fp: Fil)
    requires fp.Core()
    ensures fp.dirSect !in fp.secs
  {
    hide Decodes, FreeCountOk, NoOnes, Linked, SecsOf, BodyMatches, Fatfs.Coherent, Held, ValidGeometry;
    GeoFacts(fp.fs);
    DirApart(fp.fs.geo, |fp.fs.vol|, fp.fs.fat, fp.chain, fp.secs, fp.dirSect, fp.dirClust);
  }

  lemma EntryPromised(was: Promise, now: Promise, secs: seq<nat>, b: nat, d: nat)
    requires GivenUp(was, now, BlockSector(secs, b)) && d !in secs
    ensures GivenUp(was, now, BlockSector(secs, b) + {d})
    ensures d in was.secs ==> d in now.secs && now.secs[d] == was.secs[d]
  {
  }

  lemma EntryStill(fp: Fil, was: Promise, mid: Promise)
    requires EntryOldOrNew(fp, mid)
    requires fp.dirSect in was.secs ==> fp.dirSect in mid.secs && mid.secs[fp.dirSect] == was.secs[fp.dirSect]
    ensures EntryOldOrNew(fp, was)
  {
    hide FatOf, ValidGeometry;
  }

  lemma BodyIsSecs(fp: Fil)
    requires fp.Sound()
    ensures |fp.secs| == |fp.body|
  {
    hide Fil.VolumeOk, Fil.BufOk, Fil.WindowOk, Chained, SecsAre;
  }

  /** Writing at most a block at the start of block b, or at the end of the clusters, reaches one old sector at most. */
  lemma OneBlock(was: Promise, now: Promise, secs0: seq<nat>, secs: seq<nat>, offset: nat, p: nat, n: nat)
    requires secs0 <= secs && n <= 512 && offset % 512 == 0 && (p == offset || (p < offset && p == |secs| * 512))
    requires forall k | |secs0| <= k < |secs| :: secs[k] !in was.secs
    requires Spares(was, now, secs, p / 512, LastOf(p, n))
    ensures GivenUp(was, now, BlockSector(secs0, offset / 512))
  {
    forall s | s in was.secs && s !in now.secs ensures offset / 512 < |secs0| && s == secs0[offset / 512] {
      var k: nat :| p / 512 <= k <= LastOf(p, n) && k < |secs| && secs[k] == s;
    }
  }

  /** A seek and a write as steps of the byte array. */
  lemma SeekThenWrite(s0: State, offset: dword, s1: State, x: seq<byte>, s2: State, out: seq<byte>)
    requires Step(s0, OpSeek(offset), s1, []) && Step(s1, OpWrite(x), s2, out) && |x| <= 512
    ensures |out| == Fits(offset, |x|, s2.cap) && s2.cap == s1.cap == s0.cap
    ensures WrittenAt(s0.data, offset, x, s2.cap, s2.data) && |s0.data| <= |s2.data|
  {
    hide Splice;
    assert GrownTo(s0.data, s1.data, Min(offset, s0.cap));
  }

  lemma SoughtAt(s0: State, offset: dword, s1: State)
    requires Step(s0, OpSeek(offset), s1, [])
    ensures s1.pos == Min(offset, s0.cap) && s1.cap == s0.cap && |s0.data| <= |s1.data|
  {
  }

  /** f_lseek and f_write of handleWrite: how much was written. */
  method SeekAndWrite(fp: Fil, offset: dword, x: seq<byte>, ghost laid: bool, ghost m: map<nat, seq<nat>>)
    returns (res: FResult, bw: nat, ghost m': map<nat, seq<nat>>)
    requires Open(fp, laid, m) && |x| <= 512 && offset % 512 == 0
    modifies fp, fp.buf, fp.fs`winsect, fp.fs`wflag, fp.fs`vol, fp.fs`fat, fp.fs`lastClst, fp.fs`freeClst, fp.fs`fsiFlag
    modifies fp.fs`promise, fp.fs.win, fp.fs.disk`img
    ensures fp.fs.disk.reliable ==> res == OK
    ensures res == OK ==> Open(fp, laid, m') && SameOthers(laid, m, old(fp.chain), m', fp.chain)
    ensures res == OK ==> bw == Fits(offset, |x|, Capacity(fp)) && Capacity(fp) == old(Capacity(fp))
    ensures res == OK ==> WrittenAt(old(fp.Data()), offset, x, Capacity(fp), fp.Data())
    ensures res == OK ==> Beside(fp.fs.geo, fp.secs, fp.dirSect, fp.dirOfs, old(fp.fs.vol), fp.fs.vol) && fp.modified
    ensures fp.Loose() && (res != OK ==> fp.Threaded() && fp.objsize <= |fp.secs| * 512)
    ensures old(fp.secs) <= fp.secs && old(fp.objsize) <= fp.objsize
    ensures GivenUp(old(fp.fs.promise), fp.fs.promise, BlockSector(old(fp.secs), offset / 512))
  {
    hide Fil.Loose, Fil.Threaded, Valid, Spares, GivenUp, LastOf, Fil.VolumeOk, Fil.BufOk, Fil.WindowOk, Chained,
      SecsAre, BodyMatches, Idx, CountFree, Clusters, Fil.Synced, Bytes;
    hide Layout, Others, Among, Outside, Beside, Step, WrittenAt, Fits;
    WithinCapacity(fp);
    bw, m' := 0, m;
    ghost var was, secs0 := fp.fs.promise, fp.secs;
    NoneGivenUp(was, BlockSector(secs0, offset / 512));
    res, m' := ApplySeek(fp, offset, laid, m);
    if res != OK { return; }
    WithinCapacity(fp);
    BodyIsSecs(fp);
    SoughtAt(old(Abs(fp)), offset, Abs(fp));
    ghost var mid, secs, p, s1 := fp.fs.vol, fp.secs, fp.fptr, Abs(fp);
    var out;
    res, out, m' := ApplyWrite(fp, x, laid, m');
    OneBlock(was, fp.fs.promise, secs0, secs, offset, p, |x|);
    if res != OK { return; }
    bw := |out|;
    SeekThenWrite(old(Abs(fp)), offset, s1, x, Abs(fp), out);
    BesideTrans(fp.fs.geo, secs, fp.secs, fp.dirSect, fp.dirOfs, old(fp.fs.vol), mid, fp.fs.vol);
  }

  /** f_sync of handleWrite. */
  method SyncWritten(fp: Fil, tm: dword, ghost vol: seq<Sector>, ghost laid: bool, ghost m: map<nat, seq<nat>>)
    returns (res: FResult)
    requires Open(fp, laid, m) && fp.modified && Beside(fp.fs.geo, fp.secs, fp.dirSect, fp.dirOfs, vol, fp.fs.vol)
    modifies fp`dirty, fp`modified, fp.fs`winsect, fp.fs`wflag, fp.fs`vol, fp.fs`promise, fp.fs`fsiFlag, fp.fs`fsiCount,
      fp.fs.win, fp.fs.disk`img
    ensures fp.fs.disk.reliable ==> res == OK
    ensures res == OK ==> Open(fp, laid, m) && fp.Synced() && (fp.fs.fsiUsed ==> fp.fs.fsiFlag == 0)
    ensures res == OK ==> Reopenable(fp.fs.geo, fp.fs.disk.img, fp.dirSect, fp.dirOfs, fp.dirClust, fp.chain, fp.Data())
    ensures res == OK ==> Beside(fp.fs.geo, fp.secs, fp.dirSect, fp.dirOfs, vol, fp.fs.vol)
    ensures fp.Loose() && fp.Threaded() && fp.objsize <= |fp.secs| * 512
    ensures fp.modified ==> fp.fs.promise == old(fp.fs.promise)
    ensures Spares(old(fp.fs.promise), fp.fs.promise, [fp.dirSect], 0, 0)
    ensures fp.fs.disk.atomic ==> EntryOldOrNew(fp, old(fp.fs.promise))
  {
    hide Fil.Loose, Fil.Threaded, Valid, Spares, EntryOldOrNew, Fil.Core, Fil.Cursor, Fil.Tight, Fil.Synced, Layout,
      Among, Beside, FileOnDisk, Reopenable;
    ghost var mid := fp.fs.vol;
    CoreThreaded(fp);
    CoreLoose(fp);
    res := Sync(fp, tm);
    if res != OK { return; }
    BesideTrans(fp.fs.geo, fp.secs, fp.secs, fp.dirSect, fp.dirOfs, vol, mid, fp.fs.vol);
    SyncedReopenable(fp);
  }

  twostate lemma GivenUpHere(fp: Fil)
    requires fp.Loose() && fp.Threaded() && fp.objsize <= |fp.secs| * 512
    requires old(fp.secs) <= fp.secs && old(fp.objsize) <= fp.objsize
    ensures Interrupted(fp)
  {
    hide Fil.Loose, Fil.Threaded;
  }

  /** handleWrite once the block id and the length are accepted: seek, write and sync. */
  method WriteBlockAt(fp: Fil, ghost blockId: dword, offset: dword, x: seq<byte>, tm: dword, ghost laid: bool,
                      ghost m: map<nat, seq<nat>>)
    returns (code: Code, ghost m': map<nat, seq<nat>>)
    requires Open(fp, laid, m) && |x| <= 512 && blockId <= MAX_BLOCK && offset == blockId * 512
    modifies fp, fp.buf, fp.fs`winsect, fp.fs`wflag, fp.fs`vol, fp.fs`fat, fp.fs`lastClst, fp.fs`freeClst,
      fp.fs`fsiFlag, fp.fs`fsiCount
    modifies fp.fs`promise, fp.fs.win, fp.fs.disk`img
    ensures code == Ok || code == IoFailure
    ensures code == Ok || fp.fs.disk.reliable ==>
      Open(fp, laid, m') && SameOthers(laid, m, old(fp.chain), m', fp.chain)
    ensures code == Ok || fp.fs.disk.reliable ==> WriteOutcome(old(Abs(fp)), blockId, x, Abs(fp), code)
    ensures code == Ok ==> Reopenable(fp.fs.geo, fp.fs.disk.img, fp.dirSect, fp.dirOfs, fp.dirClust, fp.chain,
      fp.Data())
    ensures code == Ok ==> fp.Synced() && (fp.fs.fsiUsed ==> fp.fs.fsiFlag == 0)
    ensures code == Ok || fp.fs.disk.reliable ==>
      Beside(fp.fs.geo, fp.secs, fp.dirSect, fp.dirOfs, old(fp.fs.vol), fp.fs.vol)
    ensures fp.Loose() && (code == IoFailure ==> Interrupted(fp))
    ensures fp.modified && fp.dirSect in old(fp.fs.promise.secs) ==> fp.dirSect in fp.fs.promise.secs
    ensures GivenUp(old(fp.fs.promise), fp.fs.promise, BlockSector(old(fp.secs), blockId) + {fp.dirSect})
    ensures fp.fs.disk.atomic ==> EntryOldOrNew(fp, old(fp.fs.promise))
  {
    hide Fil.Loose, Fil.Threaded, Interrupted, Valid, GivenUp, EntryOldOrNew, Spares, Fil.Core, Fil.Cursor, Fil.Tight;
    hide Fil.Synced, Bytes, Among, Beside, FileOnDisk, Reopenable, WrittenAt, Fits, Others, Capacity, Layout, Outside;
    hide BlockSector, SameOthers;
    OpenGood(fp, laid, m);
    WithinCapacity(fp);
    CoreLoose(fp);
    EntryNotData(fp);
    EntryStays(fp);
    ghost var was, secs0 := fp.fs.promise, fp.secs;
    var res, bw;
    res, bw, m' := SeekAndWrite(fp, offset, x, laid, m);
    EntryPromised(was, fp.fs.promise, secs0, blockId, fp.dirSect);
    EntryStays(fp);
    EntryStill(fp, was, fp.fs.promise);
    if res == OK {
      WithinCapacity(fp);
      CoreThreaded(fp);
    }
    if res != OK || bw != |x| {
      GivenUpHere(fp);
      return IoFailure, m';
    }
    ghost var mid := fp.fs.promise;
    res := SyncWritten(fp, tm, old(fp.fs.vol), laid, m');
    GivenUpMore(was, mid, fp.fs.promise, BlockSector(secs0, blockId), fp.dirSect);
    if fp.fs.disk.atomic { EntryStill(fp, was, mid); }
    code := if res == OK then Ok else IoFailure;
    if res != OK {
      GivenUpHere(fp);
    } else {
      WithinCapacity(fp);
    }
  }

  /** handleWrite. A write answered Ok is on the disk. */
  method HandleWrite(fp: Fil, blockId: dword, data: seq<byte>, length: dword, tm: dword, ghost laid: bool,
                     ghost m: map<nat, seq<nat>>)
    returns (code: Code, ghost m': map<nat, seq<nat>>)
    requires Open(fp, laid, m) && |data| == 512
    modifies fp, fp.buf, fp.fs`winsect, fp.fs`wflag, fp.fs`vol, fp.fs`fat, fp.fs`lastClst, fp.fs`freeClst,
      fp.fs`fsiFlag, fp.fs`fsiCount
    modifies fp.fs`promise, fp.fs.win, fp.fs.disk`img
    ensures code == InvalidBlock <==> length > BLOCK_SIZE || blockId > MAX_BLOCK
    ensures code == Ok || code == InvalidBlock || code == IoFailure
    ensures code != IoFailure || fp.fs.disk.reliable ==>
      Open(fp, laid, m') && SameOthers(laid, m, old(fp.chain), m', fp.chain)
    ensures code == InvalidBlock ==> Abs(fp) == old(Abs(fp))
    ensures code == Ok || (fp.fs.disk.reliable && code == IoFailure) ==>
      WriteOutcome(old(Abs(fp)), blockId, data[..length], Abs(fp), code)
    ensures code == Ok ==> Reopenable(fp.fs.geo, fp.fs.disk.img, fp.dirSect, fp.dirOfs, fp.dirClust, fp.chain,
      fp.Data())
    ensures code == Ok ==> fp.Synced() && (fp.fs.fsiUsed ==> fp.fs.fsiFlag == 0)
    ensures code != IoFailure || fp.fs.disk.reliable ==>
      Beside(fp.fs.geo, fp.secs, fp.dirSect, fp.dirOfs, old(fp.fs.vol), fp.fs.vol)
    ensures fp.Loose() && (code == IoFailure ==> Interrupted(fp))
    ensures fp.modified && fp.dirSect in old(fp.fs.promise.secs) ==> fp.dirSect in fp.fs.promise.secs
    ensures GivenUp(old(fp.fs.promise), fp.fs.promise, BlockSector(old(fp.secs), blockId) + {fp.dirSect})
    ensures code == InvalidBlock ==> fp.fs.promise == old(fp.fs.promise) && fp.secs == old(fp.secs)
    ensures fp.fs.disk.atomic ==> EntryOldOrNew(fp, old(fp.fs.promise))
  {
    hide Fil.Loose, Fil.Threaded, Valid, GivenUp, EntryOldOrNew, Spares, Fil.Core, Fil.Cursor, Fil.Tight;
    hide Fil.Synced, Bytes, Among, Beside, FileOnDisk, Reopenable, WrittenAt, Fits, Others, Capacity, Layout, Outside;
    hide BlockSector, WriteOutcome;
    OpenGood(fp, laid, m);
    BesideRefl(fp);
    CoreLoose(fp);
    EntryStays(fp);
    NoneGivenUp(fp.fs.promise, BlockSector(fp.secs, blockId) + {fp.dirSect});
    if length > BLOCK_SIZE { return InvalidBlock, m; }
    var ok, offset := ComputeBlockOffset(blockId);
    if !ok { return InvalidBlock, m; }
    code, m' := WriteBlockAt(fp, blockId, offset, data[..length], tm, laid, m);
  }

  // ----- What the outcomes mean for a client

  /**
    Exactly when a write succeeds: something to write needs the whole block inside the capacity, and
    the last block of the address range cannot be written in full because a file stops at 4 GiB - 1.
  */
  lemma WriteOkCondition(blockId: nat, n: nat, cap: nat)
    requires blockId <= MAX_BLOCK && n <= 512 && cap % 512 == 0
    ensures Fits(blockId * 512, n, cap) == n <==>
      n == 0 || (blockId * 512 + 512 <= cap && !(blockId == MAX_BLOCK && n == 512))
    ensures Fits(blockId * 512, n, cap) == 0 || (blockId * 512 + 512 <= cap && Fits(blockId * 512, n, cap) <= 512)
    ensures Fits(blockId * 512, n, cap) != n && blockId < MAX_BLOCK ==> Fits(blockId * 512, n, cap) == 0
  {
    var off := blockId * 512;
    if off < cap { assert cap / 512 >= blockId + 1; }
  }

  /** On the last block a full write stores 511 bytes and then fails. */
  lemma LastBlockFails(cap: nat)
    requires cap >= 0x1_0000_0000
    ensures Fits(MAX_BLOCK * 512, 512, cap) == 511
  {
  }

  lemma CapacityIsBlocks(fp: Fil)
    ensures Capacity(fp) % 512 == 0
  {
  }

  /** Bytes written at or below block b change no other block. */
  lemma WrittenKeeps(d: seq<byte>, b: nat, x: seq<byte>, cap: nat, d': seq<byte>)
    requires b <= MAX_BLOCK && |x| <= 512 && cap % 512 == 0 && |d| <= cap && WrittenAt(d, b * 512, x, cap, d')
    ensures KeepsOthers(d, d', b) && (Fits(b * 512, |x|, cap) == 0 ==> d <= d')
  {
    var off, n := b * 512, Fits(b * 512, |x|, cap);
    var p := Min(off, cap);
    var gap :| GrownTo(d, gap, p) && p <= |gap| && d' == Splice(gap, p, x[..n]);
    WriteOkCondition(b, |x|, cap);
    forall i: nat | i < |d| && (n == 0 || !(off <= i < off + 512)) ensures d'[i] == d[i] {
      SpliceAt(gap, p, x[..n], i);
    }
  }

  /** Writing one block never changes another, and a write of nothing changes no byte at all. */
  lemma WriteKeepsOthers(s: State, blockId: nat, x: seq<byte>, s': State, code: Code)
    requires s.cap % 512 == 0 && |s.data| <= s.cap && WriteOutcome(s, blockId, x, s', code)
    ensures KeepsOthers(s.data, s'.data, blockId)
    ensures code == IoFailure && blockId < MAX_BLOCK ==> s.data <= s'.data
  {
    hide WrittenAt, Fits;
    if |x| <= 512 && blockId <= MAX_BLOCK {
      WrittenKeeps(s.data, blockId, x, s.cap, s'.data);
      WriteOkCondition(blockId, |x|, s.cap);
    }
  }

  /** A full-block write answered Ok puts exactly the given bytes into the block. */
  lemma WriteStores(s: State, blockId: nat, x: seq<byte>, s': State)
    requires s.cap % 512 == 0 && |x| == 512 && WriteOutcome(s, blockId, x, s', Ok)
    ensures blockId * 512 + 512 <= |s'.data| && s'.data[blockId * 512..blockId * 512 + 512] == x
  {
    var off, n := blockId * 512, Fits(blockId * 512, |x|, s.cap);
    WriteOkCondition(blockId, |x|, s.cap);
    var gap :| GrownTo(s.data, gap, off) && off <= |gap| && s'.data == Splice(gap, off, x[..n]);
  }

  /** The block lies within the capacity and within what a file of at most 4 GiB - 1 can hold. */
  predicate Room(blockId: nat, n: nat, cap: nat) {
    n == 0 || (blockId * 512 + 512 <= cap && !(blockId == MAX_BLOCK && n == 512))
  }

  /** The answer to a write, in terms a client can check before asking. */
  lemma WriteAnswer(s: State, blockId: nat, x: seq<byte>, s': State, code: Code)
    requires s.cap % 512 == 0 && WriteOutcome(s, blockId, x, s', code)
    ensures code == InvalidBlock <==> |x| > 512 || blockId > MAX_BLOCK
    ensures code == Ok <==> |x| <= 512 && blockId <= MAX_BLOCK && Room(blockId, |x|, s.cap)
  {
    hide WrittenAt, Fits;
    if |x| <= 512 && blockId <= MAX_BLOCK { WriteOkCondition(blockId, |x|, s.cap); }
  }

  datatype Request = ReadBlock(blockId: nat) | WriteBlock(blockId: nat, x: seq<byte>) | GetStatus | Unknown

  /** One request answered without a disk error. */
  ghost predicate Served(s: State, r: Request, s': State, code: Code, block: seq<byte>) {
    && s.cap % 512 == 0 && |s.data| <= s.cap && s'.cap == s.cap && |s'.data| <= s'.cap
    && match r
       case ReadBlock(b) => ReadOutcome(s, b, s', code, block)
       case WriteBlock(b, x) => WriteOutcome(s, b, x, s', code)
       case GetStatus => s' == s && code == Ok
       case Unknown => s' == s && code == InvalidBlock
  }

  /** A request that does not write block b leaves a block that exists as it is. */
  lemma ServedKeeps(s: State, r: Request, s': State, code: Code, block: seq<byte>, b: nat)
    requires Served(s, r, s', code, block) && !(r.WriteBlock? && r.blockId == b) && b * 512 + 512 <= |s.data|
    ensures b * 512 + 512 <= |s'.data| && s'.data[b * 512..b * 512 + 512] == s.data[b * 512..b * 512 + 512]
  {
    match r
    case ReadBlock(c) =>
    case WriteBlock(c, x) => WriteKeepsOthers(s, c, x, s', code);
    case GetStatus =>
    case Unknown =>
  }

  /** The block content at the end of a stretch of requests none of which writes the block. */
  lemma {:induction false} StretchKeeps(trace: seq<State>, reqs: seq<Request>, codes: seq<Code>,
                                        blocks: seq<seq<byte>>, i: nat, j: nat, b: nat)
    requires i <= j < |trace| && |codes| == |blocks| == |reqs| == |trace| - 1
    requires forall k | i <= k < j :: Served(trace[k], reqs[k], trace[k + 1], codes[k], blocks[k])
    requires forall k | i <= k < j :: !(reqs[k].WriteBlock? && reqs[k].blockId == b)
    requires b * 512 + 512 <= |trace[i].data|
    ensures b * 512 + 512 <= |trace[j].data|
    ensures trace[j].data[b * 512..b * 512 + 512] == trace[i].data[b * 512..b * 512 + 512]
    decreases j - i
  {
    hide Served;
    if i < j {
      ServedKeeps(trace[i], reqs[i], trace[i + 1], codes[i], blocks[i], b);
      StretchKeeps(trace, reqs, codes, blocks, i + 1, j, b);
    }
  }

  /** A block store: the read that follows a full write of the block returns what was written. */
  lemma ReadAfterWrite(trace: seq<State>, reqs: seq<Request>, codes: seq<Code>, blocks: seq<seq<byte>>, i: nat, j: nat,
                       b: nat, x: seq<byte>)
    requires i < j < |reqs| && |codes| == |blocks| == |reqs| == |trace| - 1
    requires forall k | i <= k <= j :: Served(trace[k], reqs[k], trace[k + 1], codes[k], blocks[k])
    requires reqs[i] == WriteBlock(b, x) && |x| == 512 && codes[i] == Ok
    requires forall k | i < k < j :: !(reqs[k].WriteBlock? && reqs[k].blockId == b)
    requires reqs[j] == ReadBlock(b)
    ensures codes[j] == Ok && blocks[j] == x
  {
    WriteStores(trace[i], b, x, trace[i + 1]);
    StretchKeeps(trace, reqs, codes, blocks, i + 1, j, b);
    assert Served(trace[j], reqs[j], trace[j + 1], codes[j], blocks[j]);
  }

  /**
    Reading a block that was never written: the service answers InvalidBlock only beyond the address
    range or the capacity. Anywhere else past the end it answers Ok with no bytes and the file grows.
  */
  lemma ReadPastEnd(s: State, blockId: nat, s': State, code: Code, block: seq<byte>)
    requires |s.data| <= s.cap && ReadOutcome(s, blockId, s', code, block) && blockId * 512 >= |s.data|
    ensures code == InvalidBlock <==> blockId > MAX_BLOCK || blockId * 512 > s.cap
    ensures code == Ok ==> block == [] && |s'.data| == blockId * 512 && s.data <= s'.data
  {
  }
}
