/** The service on an open block file: its requests, and the runs they make. */
module StorageRun {
  import opened FatTypes
  import opened BlockDevice
  import opened Window
  import opened FatEntries
  import opened FatAccess
  import opened ChainTheory
  import opened ClusterMap
  import opened FileMap
  import opened FileObject
  import opened FileWrite
  import opened FileSpec
  import opened FileSync
  import opened FileReopen
  import opened BlockStore
  import opened DirectoryMap
  import opened Directory
  import opened DirectorySearch
  import opened FileOpen
  import opened VolumePlan
  import opened BootSector
  import opened Mount
  import opened Format
  import opened FormatMount
  import opened PowerLoss
  import opened Landmarks
  import opened Survival

  /** The root directory of a freshly formatted volume. */
  function FreshRootChain(p: Plan): seq<nat> { if p.fmt == FAT32 then [2] else [] }

  function FreshRootSecs(p: Plan, bVol: nat): seq<nat> {
    Run(bVol + p.szRsv + p.szFat, RootSectors(p))
  }

  lemma FreshTable(img: seq<Sector>, p: Plan, bVol: nat)
    requires Formatted(img, p, bVol)
    ensures TableOk(PlanGeometry(p, bVol), |img|, FreshFat(p), 0, FreshRootChain(p), FreshRootSecs(p, bVol))
  {
    hide Formatted, ValidGeometry, TableOk, Run, FreshFat;
    var g := PlanGeometry(p, bVol);
    FormattedGeometry(img, p, bVol);
    PlanFacts(img, p, bVol);
    if p.fmt == FAT32 { Table32(g, |img|, p); } else { Table16(g, |img|, FreshFat(p), p.szDir); }
  }

  lemma FormattedGeometry(img: seq<Sector>, p: Plan, bVol: nat)
    requires Formatted(img, p, bVol)
    ensures ValidGeometry(PlanGeometry(p, bVol), |img|)
  {
    hide Formatted, ValidGeometry, Trusted, ParseBpb, VolumeAt;
    FormattedMounts(img, p, bVol);
  }

  lemma Table16(g: Geometry, disk: nat, fat: seq<nat>, n: nat)
    requires g.fsType != FAT32 && RootOk(g) && g.csize > 0 && n == 32 && g.nRootdir == 512
    ensures TableOk(g, disk, fat, 0, [], Run(g.dirbase, n))
  {
    hide Run, RootOk;
    RunLength(g.dirbase, n);
    assert g.nRootdir / 16 == n;
  }

  lemma Table32(g: Geometry, disk: nat, p: Plan)
    requires ValidGeometry(g, disk) && p.fmt == FAT32 == g.fsType && 0 < p.nClst <= MAX_FAT32 &&
      g.nFatent == p.nClst + 2
    requires g.dirbase == 2 && 1 <= g.csize <= 128
    ensures TableOk(g, disk, FreshFat(p), 0, [2], Run(g.database, g.csize))
  {
    hide Run, SecsOf, FreshFat, Linked, ValidGeometry, GoodSecs, Times;
    RunLength(g.database, g.csize);
    RootLinked(p);
    FreshLength(p);
    ChainSecs(g, disk, FreshFat(p), [2]);
    OneCluster(g, 2);
    FirstCluster(g);
  }

  lemma FreshLength(p: Plan)
    ensures |FreshFat(p)| == p.nClst + 2
  {
  }

  lemma RunLength(s: nat, n: nat)
    ensures |Run(s, n)| == n
  {
  }

  lemma FirstCluster(g: Geometry)
    ensures FirstSector(g, 2) == g.database
  {
  }

  lemma RootLinked(p: Plan)
    requires p.fmt == FAT32 && 0 < p.nClst <= MAX_FAT32
    ensures Linked(FreshFat(p), [2])
  {
  }

  lemma PlanFacts(img: seq<Sector>, p: Plan, bVol: nat)
    requires Formatted(img, p, bVol)
    ensures 0 < p.nClst && 1 <= p.pau <= 128 && (p.fmt != FAT32 ==> p.szDir == 32) && (p.fmt == FAT32 ==> p.szDir == 0)
    ensures p.nClst <= MAX_FAT32
  {
    hide FirstFatSector, IsVbr, IsMbr, Filled, FatBytes, Div;
  }

  lemma OneCluster(g: Geometry, c: nat)
    requires c >= 2
    ensures SecsOf(g, [c]) == Run(FirstSector(g, c), g.csize)
  {
    assert [c][..0] == [];
  }

  /** Its entries are all blank. */
  lemma FreshSlots(img: seq<Sector>, p: Plan, bVol: nat)
    requires Formatted(img, p, bVol)
    ensures SecsInside(img, FreshRootSecs(p, bVol)) && |FreshRootSecs(p, bVol)| > 0
    ensures forall k | 0 <= k < |Slots(img, FreshRootSecs(p, bVol))| :: Slots(img, FreshRootSecs(p, bVol))[k][0] == 0
  {
    hide Sensible, IsVbr, IsMbr, FirstFatSector;
    PlanAreas(p, |img| - bVol);
    var secs := FreshRootSecs(p, bVol);
    forall k: nat | k < |secs| * 16 ensures SlotAt(img, secs, k)[0] == 0 {
      assert img[secs[k / 16]] == Zero();
    }
  }

  lemma BlankTable(slots: seq<Slot>)
    requires |slots| > 0 && forall k | 0 <= k < |slots| :: slots[k][0] == 0
    ensures ZeroTail(slots) && Unique(slots) && HasBlank(slots) && forall fn: seq<byte> :: !HasName(slots, fn)
  {
    forall fn: seq<byte>, j: nat ensures !Maps(slots, fn, j) {}
    assert Blank(slots[0]);
  }

  lemma FreshRoot(img: seq<Sector>, p: Plan, bVol: nat)
    requires Formatted(img, p, bVol)
    ensures RootOf(PlanGeometry(p, bVol), img, FreshFat(p), FreshRootChain(p), FreshRootSecs(p, bVol), FreshChains(p))
    ensures HasBlank(Slots(img, FreshRootSecs(p, bVol))) && forall fn: seq<byte> ::
      !HasName(Slots(img, FreshRootSecs(p, bVol)), fn)
  {
    hide Formatted, TableOk, Layout, Slots, ZeroTail, Unique, HasBlank, HasName;
    FreshTable(img, p, bVol);
    PlanFacts(img, p, bVol);
    FreshSlots(img, p, bVol);
    FreshLayout(img, p, bVol);
    BlankTable(Slots(img, FreshRootSecs(p, bVol)));
  }

  // ----- Requests

  /** A read request with its result buffer. */
  method ServeRead(fp: Fil, b: dword, ghost laid: bool, ghost m: map<nat, seq<nat>>)
    returns (code: Code, block: seq<byte>, ghost m': map<nat, seq<nat>>)
    requires Open(fp, laid, m) && fp.Covers()
    modifies fp, fp.buf, fp.fs`winsect, fp.fs`wflag, fp.fs`vol, fp.fs`fat, fp.fs`lastClst, fp.fs`freeClst, fp.fs`fsiFlag
    modifies fp.fs.win, fp.fs.disk`img
    ensures code == Ok || code == InvalidBlock || (code == IoFailure && !fp.fs.disk.reliable)
    ensures code != IoFailure ==> Open(fp, laid, m') && fp.Covers() && SameOthers(laid, m, old(fp.chain), m', fp.chain)
    ensures code != IoFailure ==> ReadOutcome(old(Abs(fp)), b, Abs(fp), code, block)
    ensures code != IoFailure ==> Beside(fp.fs.geo, fp.secs, fp.dirSect, fp.dirOfs, old(fp.fs.vol), fp.fs.vol)
    ensures code != IoFailure ==> old(fp.secs) <= fp.secs && old(Abs(fp)).data <= Abs(fp).data
    ensures fp.Loose()
    ensures code == IoFailure ==> Left(fp, ReadBlock(b), old(fp.fs.promise), old(fp.secs), old(fp.objsize))
  {
    hide Fil.Loose, Fil.Threaded, Left, Beside, Open, ReadOutcome, Others, Abs, Fil.Covers;
    var data := new byte[512](_ => 0);
    var length;
    code, length, m' := HandleRead(fp, b, data, laid, m);
    block := data[..length];
    if code != IoFailure {
      OpenFacts(fp, laid, m');
      ReadCode(old(Abs(fp)), b, Abs(fp), code, block);
    } else {
      ReadLeaves(fp, ReadBlock(b), old(fp.secs), old(fp.objsize));
    }
  }

  /** A read request gives nothing up. */
  lemma ReadLeaves(fp: Fil, r: Request, secs: seq<nat>, n: nat)
    requires fp.Loose() && fp.Threaded() && secs <= fp.secs && n <= fp.objsize <= |fp.secs| * 512
    ensures Left(fp, r, fp.fs.promise, secs, n)
  {
    hide Fil.Loose, Fil.Threaded, EntryOldOrNew;
    EntryStays(fp);
    NoneGivenUp(fp.fs.promise, Reached(r, secs, fp.dirSect));
  }

  lemma ReadCode(s: State, b: nat, s': State, code: Code, block: seq<byte>)
    requires ReadOutcome(s, b, s', code, block)
    ensures (code == Ok || code == InvalidBlock) && s.data <= s'.data
  {
  }

  /** The 512-byte data field of a request that carries x. */
  function Padded(x: seq<byte>): (r: seq<byte>)
    ensures |r| == 512 && (|x| <= 512 ==> r[..|x|] == x)
  {
    (x + seq(512, i => 0))[..512]
  }

  method ServeWrite(fp: Fil, b: dword, x: seq<byte>, tm: dword, ghost laid: bool, ghost m: map<nat, seq<nat>>)
    returns (code: Code, ghost m': map<nat, seq<nat>>)
    requires Open(fp, laid, m) && fp.Covers() && |x| < 0x1_0000_0000
    modifies fp, fp.buf, fp.fs`winsect, fp.fs`wflag, fp.fs`vol, fp.fs`fat, fp.fs`lastClst, fp.fs`freeClst,
      fp.fs`fsiFlag, fp.fs`fsiCount
    modifies fp.fs`promise, fp.fs.win, fp.fs.disk`img
    ensures code == Ok || code == InvalidBlock || code == IoFailure
    ensures code != IoFailure || fp.fs.disk.reliable ==>
      Open(fp, laid, m') && fp.Covers() && SameOthers(laid, m, old(fp.chain), m', fp.chain)
    ensures code != IoFailure || fp.fs.disk.reliable ==> WriteOutcome(old(Abs(fp)), b, x, Abs(fp), code)
    ensures code == Ok ==> Reopenable(fp.fs.geo, fp.fs.disk.img, fp.dirSect, fp.dirOfs, fp.dirClust, fp.chain,
      fp.Data())
    ensures code == Ok ==> fp.Synced() && (fp.fs.fsiUsed ==> fp.fs.fsiFlag == 0)
    ensures code != IoFailure || fp.fs.disk.reliable ==>
      Beside(fp.fs.geo, fp.secs, fp.dirSect, fp.dirOfs, old(fp.fs.vol), fp.fs.vol)
    ensures code == InvalidBlock ==>
      fp.fs.promise == old(fp.fs.promise) && fp.secs == old(fp.secs) && Abs(fp) == old(Abs(fp))
    ensures fp.Loose()
    ensures code == IoFailure ==> Left(fp, WriteBlock(b, x), old(fp.fs.promise), old(fp.secs), old(fp.objsize))
  {
    hide Valid, GivenUp, EntryOldOrNew, WrittenAt, Open, WriteOutcome, Others, Reopenable, Fil.Covers, Padded, Beside,
      Fil.Synced;
    hide Fil.Loose, Fil.Threaded;
    OpenFacts(fp, laid, m);
    code, m' := HandleWrite(fp, b, Padded(x), |x|, tm, laid, m);
    if code != IoFailure || fp.fs.disk.reliable { OpenFacts(fp, laid, m'); }
    if code == InvalidBlock { RefusedWrite(old(Abs(fp)), b, x, Abs(fp)); }
  }

  /** What a write answered Ok has achieved. */
  ghost predicate Durable(fp: Fil, h: Home, m: map<nat, seq<nat>>)
    reads fp`chain, fp`body, fp`objsize, fp.fs`fat, fp.fs.disk
  {
    && fp.Covers() && Remountable(h, fp.fs.disk.img, fp.chain, m, fp.Data())
    && ValidGeometry(h.geo, |fp.fs.disk.img|) && FatOf(h.geo, fp.fs.disk.img) == fp.fs.fat
    && (fp.fs.disk.reliable && fp.fs.exact ==> CountSaved(h.geo, fp.fs.disk.img))
  }

  /** The command switch of serviceRequest for a request that is active on a ready volume. */
  method Serve(fp: Fil, r: Request, tm: dword, ghost h: Home, ghost laid: bool, ghost m: map<nat, seq<nat>>)
    returns (code: Code, block: seq<byte>, ghost m': map<nat, seq<nat>>)
    requires Open(fp, laid, m) && fp.Covers() && (laid ==> Resident(fp, h, m)) && BlockOk(r)
    modifies fp, fp.buf, fp.fs`winsect, fp.fs`wflag, fp.fs`vol, fp.fs`fat, fp.fs`lastClst, fp.fs`freeClst,
      fp.fs`fsiFlag, fp.fs`fsiCount
    modifies fp.fs`promise, fp.fs.win, fp.fs.disk`img
    ensures code == Ok || code == InvalidBlock || code == IoFailure
    ensures code != IoFailure || fp.fs.disk.reliable ==>
      Open(fp, laid, m') && fp.Covers() && (laid ==> Resident(fp, h, m'))
    ensures code != IoFailure || fp.fs.disk.reliable ==> Served(old(Abs(fp)), r, Abs(fp), code, block)
    ensures code == Ok && r.WriteBlock? ==> (laid ==> Durable(fp, h, m')) && fp.Synced()
    ensures code == Ok && r.WriteBlock? ==>
      Reopenable(fp.fs.geo, fp.fs.disk.img, fp.dirSect, fp.dirOfs, fp.dirClust, fp.chain, fp.Data())
    ensures fp.Loose() && (code == IoFailure ==> Left(fp, r, old(fp.fs.promise), old(fp.secs), old(fp.objsize)))
    ensures code != IoFailure && !(code == Ok && r.WriteBlock?) ==>
      fp.fs.promise == old(fp.fs.promise) && old(fp.secs) <= fp.secs && old(Abs(fp)).data <= Abs(fp).data
  {
    hide Fil.Loose, Left, Open, ReadOutcome, WriteOutcome, Others, Reopenable, Fil.Covers, Fil.Synced, HomeAt, Beside,
      Remountable, FatOf, ValidGeometry, Served;
    hide CountSaved, HasFsInfo;
    OpenFacts(fp, laid, m);
    FatLength(fp, laid, m);
    OpenLoose(fp, laid, m);
    if laid { HomeInside(h, fp.fs.vol, fp.fs.fat, fp.chain, m); }
    ghost var vol, fat, chain := fp.fs.vol, fp.fs.fat, fp.chain;
    m', block := m, [];
    match r
    case ReadBlock(b) =>
      code, block, m' := ServeRead(fp, b, laid, m);
      if code != IoFailure {
        OpenFacts(fp, laid, m');
        FatLength(fp, laid, m');
        ReadServed(old(Abs(fp)), r, Abs(fp), code, block);
        if laid { ResidentKept(fp, h, vol, fat, chain, m, m'); }
      }
    case WriteBlock(b, x) =>
      code, m' := ServeWrite(fp, b, x, tm, laid, m);
      if code != IoFailure || fp.fs.disk.reliable {
        OpenFacts(fp, laid, m');
        FatLength(fp, laid, m');
        WriteServed(old(Abs(fp)), r, Abs(fp), code, block);
        if laid {
          ResidentKept(fp, h, vol, fat, chain, m, m');
          if code == Ok { SyncedRemountable(fp, h, m'); }
        }
      }
    case GetStatus =>
      code := Ok;
      NothingServed(Abs(fp), r, code);
    case Unknown =>
      code := InvalidBlock;
      NothingServed(Abs(fp), r, code);
  }

  lemma OpenLoose(fp: Fil, laid: bool, m: map<nat, seq<nat>>)
    requires Open(fp, laid, m)
    ensures fp.Loose()
  {
    hide Fil.Core, Fil.Loose, Fil.Cursor, Fil.Tight, Among, Fil.Synced;
    CoreLoose(fp);
  }

  lemma FatLength(fp: Fil, laid: bool, m: map<nat, seq<nat>>)
    requires Open(fp, laid, m)
    ensures |fp.fs.fat| == fp.fs.geo.nFatent
  {
    hide Fil.BufOk, Fil.WindowOk, Chained, SecsAre, BodyMatches, Fil.Cursor, Fil.Tight, Among, Fil.Synced;
  }

  lemma HomeInside(h: Home, vol: seq<Sector>, fat: seq<nat>, chain: seq<nat>, m: map<nat, seq<nat>>)
    requires HomeAt(h, vol, fat, chain, m)
    ensures h.k / 16 < |h.dsecs|
  {
  }

  lemma NothingServed(s: State, r: Request, code: Code)
    requires s.cap % 512 == 0 && |s.data| <= s.cap && (r.GetStatus? || r.Unknown?) && code == if r.Unknown?
      then InvalidBlock else Ok
    ensures Served(s, r, s, code, [])
  {
  }

  lemma ReadServed(s: State, r: Request, s': State, code: Code, block: seq<byte>)
    requires r.ReadBlock? && ReadOutcome(s, r.blockId, s', code, block) && s.cap % 512 == 0 && |s.data| <= s.cap
    ensures Served(s, r, s', code, block)
  {
  }

  lemma WriteServed(s: State, r: Request, s': State, code: Code, block: seq<byte>)
    requires r.WriteBlock? && WriteOutcome(s, r.blockId, r.x, s', code) && s.cap % 512 == 0 && |s.data| <= s.cap
    ensures Served(s, r, s', code, block)
  {
    hide WrittenAt;
  }

  /** The field widths of a request. */
  predicate BlockOk(r: Request) {
    match r
    case ReadBlock(b) => b < 0x1_0000_0000
    case WriteBlock(b, x) => b < 0x1_0000_0000 && |x| < 0x1_0000_0000
    case GetStatus => true
    case Unknown => true
  }

  lemma OpenFacts(fp: Fil, laid: bool, m: map<nat, seq<nat>>)
    requires Open(fp, laid, m)
    ensures fp.Good() && fp.Covers() && fp.buf != fp.fs.win
    ensures Abs(fp).pos <= |Abs(fp).data| <= Abs(fp).cap && Abs(fp).cap % 512 == 0
  {
    hide Fil.BufOk, Fil.WindowOk, Chained, SecsAre, BodyMatches, Idx, Clusters, Among;
    CapacityIsBlocks(fp);
    WithinCapacity(fp);
  }

  lemma RefusedWrite(s: State, b: nat, x: seq<byte>, s': State)
    requires s' == s && (|x| > BLOCK_SIZE || b > MAX_BLOCK) && s.pos <= |s.data| <= s.cap
    ensures WriteOutcome(s, b, x, s', InvalidBlock)
  {
    hide WrittenAt, Fits;
  }

  /** A run of requests: states, answers and blocks delivered. */
  ghost predicate IsRun(trace: seq<State>, reqs: seq<Request>, codes: seq<Code>, blocks: seq<seq<byte>>) {
    && |codes| == |blocks| <= |reqs| && |trace| == |codes| + 1
    && forall k | 0 <= k < |codes| :: Served(trace[k], reqs[k], trace[k + 1], codes[k], blocks[k])
  }

  /** The block store property of a run: a read returns the last full block written with Ok. */
  ghost predicate Remembers(reqs: seq<Request>, codes: seq<Code>, blocks: seq<seq<byte>>) {
    forall i, j | 0 <= i < j < |codes| && |codes| == |blocks| <= |reqs| && LastWrite(reqs, codes, i, j) ::
      codes[j] == Ok && blocks[j] == reqs[i].x
  }

  /** Request j reads a block whose last write before j is request i, a full block answered Ok. */
  ghost predicate LastWrite(reqs: seq<Request>, codes: seq<Code>, i: int, j: int) {
    && 0 <= i < j < |codes| <= |reqs| && reqs[i].WriteBlock? && |reqs[i].x| == 512 && codes[i] == Ok
    && reqs[j] == ReadBlock(reqs[i].blockId)
    && forall k | i < k < j :: !(reqs[k].WriteBlock? && reqs[k].blockId == reqs[i].blockId)
  }

  /** Every run has the block store property. */
  lemma RunRemembers(trace: seq<State>, reqs: seq<Request>, codes: seq<Code>, blocks: seq<seq<byte>>)
    requires IsRun(trace, reqs, codes, blocks)
    ensures Remembers(reqs, codes, blocks)
  {
    hide Served;
    forall i, j | 0 <= i < j < |codes| && LastWrite(reqs, codes, i, j) ensures codes[j] == Ok &&
      blocks[j] == reqs[i].x {
      ReadAfterWrite(trace, reqs[..|codes|], codes, blocks, i, j, reqs[i].blockId, reqs[i].x);
    }
  }

  /** How many answers there were up to the last write answered Ok. */
  function Acked(reqs: seq<Request>, codes: seq<Code>): (n: nat)
    ensures n <= |codes|
  {
    if codes == [] then 0
    else if EndsWritten(reqs, codes) then |codes|
    else Acked(reqs, codes[..|codes| - 1])
  }

  lemma AckedMore(reqs: seq<Request>, codes: seq<Code>, c: Code)
    requires |codes| < |reqs|
    ensures Acked(reqs, codes + [c]) ==
      if c == Ok && reqs[|codes|].WriteBlock? then |codes| + 1 else Acked(reqs, codes)
  {
    assert (codes + [c])[..|codes|] == codes;
  }

  /** The block of the request that failed, if it was a write. */
  function Unsure(reqs: seq<Request>, codes: seq<Code>): set<nat> {
    if codes != [] && codes[|codes| - 1] == IoFailure then
      if |codes| <= |reqs| then Target(reqs[|codes| - 1]) else {}
    else if |codes| < |reqs| then Target(reqs[|codes|])
    else {}
  }

  /** The loop of the service on an open block file, until the first I/O failure, and what then is still pending. */
  method ServeLoop(fp: Fil, reqs: seq<Request>, tm: dword, ghost h: Home, ghost laid: bool, ghost m: map<nat, seq<nat>>)
    returns (codes: seq<Code>, blocks: seq<seq<byte>>, ghost trace: seq<State>, ghost m': map<nat, seq<nat>>,
             ghost q: Stand)
    requires Open(fp, laid, m) && fp.Covers() && (laid ==> Resident(fp, h, m))
    requires forall k | 0 <= k < |reqs| :: BlockOk(reqs[k])
    modifies fp, fp.buf, fp.fs`winsect, fp.fs`wflag, fp.fs`vol, fp.fs`fat, fp.fs`lastClst, fp.fs`freeClst,
      fp.fs`fsiFlag, fp.fs`fsiCount
    modifies fp.fs`promise, fp.fs.win, fp.fs.disk`img
    ensures IsRun(trace, reqs, codes, blocks) && trace[0] == old(Abs(fp)) && Remembers(reqs, codes, blocks)
    ensures |codes| == |reqs| || (|codes| > 0 && codes[|codes| - 1] == IoFailure) || !fp.fs.disk.reliable
    ensures forall k | 0 <= k < |codes| - 1 :: codes[k] != IoFailure
    ensures |codes| == |reqs| || fp.fs.disk.reliable ==>
      Open(fp, laid, m') && fp.Covers() && (laid ==> Resident(fp, h, m')) && trace[|codes|] == Abs(fp)
    ensures laid && (|codes| == |reqs| || fp.fs.disk.reliable) && EndsWritten(reqs, codes) ==> Durable(fp, h, m')
    ensures fp.Loose()
    ensures old(fp.Synced()) || Acked(reqs, codes) > 0 ==>
      Pending(fp, h, laid, q) && q.rec.data == trace[Acked(reqs, codes)].data && Target(q.r) == Unsure(reqs, codes)
  {
    hide Open, Served, Abs, Fil.Covers, BlockOk, Remembers, Resident, Durable, Tracked, Fil.Synced, Acked,
      EndsWritten, Pending, Fil.Loose;
    codes, blocks, trace, m' := [], [], [Abs(fp)], m;
    ghost var failed := false;
    ghost var rec := StartTracking(fp, h, laid, m);
    q := Stand(rec, GetStatus, fp.fs.promise, fp.secs, Abs(fp));
    AckedNone(reqs);
    OpenLoose(fp, laid, m');
    while |codes| < |reqs|
      invariant |codes| <= |reqs| && IsRun(trace, reqs, codes, blocks) && trace[0] == old(Abs(fp)) && !failed
      invariant Open(fp, laid, m') && fp.Covers() && (laid ==> Resident(fp, h, m')) && trace[|codes|] == Abs(fp)
      invariant forall k | 0 <= k < |codes| :: codes[k] != IoFailure
      invariant EndsWritten(reqs, codes) && laid ==> Durable(fp, h, m')
      invariant Tracked(fp, h, laid, rec, trace[Acked(reqs, codes)].data) && fp.Loose()
      invariant old(fp.Synced()) || Acked(reqs, codes) > 0 ==> rec.known
    {
      var code, block;
      code, block, m', rec, q := ServeNext(fp, reqs[|codes|], tm, h, laid, m', rec, trace[Acked(reqs, codes)].data);
      AckedMore(reqs, codes, code);
      EndsMore(reqs, codes, code);
      if code == IoFailure {
        failed := true;
        if fp.fs.disk.reliable { codes, blocks, trace := codes + [code], blocks + [block], trace + [Abs(fp)]; }
        break;
      }
      codes, blocks, trace := codes + [code], blocks + [block], trace + [Abs(fp)];
    }
    if !failed && rec.known { q := AtRest(fp, h, laid, m', rec, trace[Acked(reqs, codes)].data); }
    RunRemembers(trace, reqs, codes, blocks);
  }

  /**
    The service on an open block file, until the first I/O failure. With a working disk only a write
    that does not fit ends the run early, and after a run that ends with a write answered Ok the disk
    has the file with its content. However it ends, on a disk that writes sectors as a whole a mount
    still finds the volume, a search the name, and the file all bytes it had when the last write was
    answered Ok, or at the start if it was synced then, but for the block that was being written.
  */
  method ServeAll(fp: Fil, reqs: seq<Request>, tm: dword, ghost h: Home, ghost laid: bool, ghost m: map<nat, seq<nat>>)
    returns (codes: seq<Code>, blocks: seq<seq<byte>>, ghost trace: seq<State>, ghost m': map<nat, seq<nat>>)
    requires Open(fp, laid, m) && fp.Covers() && (laid ==> Resident(fp, h, m))
    requires forall k | 0 <= k < |reqs| :: BlockOk(reqs[k])
    modifies fp, fp.buf, fp.fs`winsect, fp.fs`wflag, fp.fs`vol, fp.fs`fat, fp.fs`lastClst, fp.fs`freeClst,
      fp.fs`fsiFlag, fp.fs`fsiCount
    modifies fp.fs`promise, fp.fs.win, fp.fs.disk`img
    ensures IsRun(trace, reqs, codes, blocks) && trace[0] == old(Abs(fp)) && Remembers(reqs, codes, blocks)
    ensures |codes| == |reqs| || (|codes| > 0 && codes[|codes| - 1] == IoFailure) || !fp.fs.disk.reliable
    ensures forall k | 0 <= k < |codes| - 1 :: codes[k] != IoFailure
    ensures |codes| == |reqs| || fp.fs.disk.reliable ==>
      Open(fp, laid, m') && fp.Covers() && (laid ==> Resident(fp, h, m')) && trace[|codes|] == Abs(fp)
    ensures laid && (|codes| == |reqs| || fp.fs.disk.reliable) && EndsWritten(reqs, codes) ==> Durable(fp, h, m')
    ensures fp.fs.disk.atomic && (old(fp.Synced()) || Acked(reqs, codes) > 0) ==>
      && Survives(fp.fs.geo, fp.fs.disk.img, fp.dirSect, fp.dirOfs, trace[Acked(reqs, codes)].data, Unsure(reqs, codes))
      && BlocksOnDisk(fp.fs.geo, fp.fs.disk.img, fp.dirSect, fp.dirOfs, trace[0].data, reqs, codes)
      && (laid ==> Findable(h, fp.fs.disk.img))
  {
    hide Open, Abs, Fil.Covers, Remembers, Resident, Durable, Fil.Synced, Survives, Acked, EndsWritten, Findable,
      BlocksOnDisk, Pending, IsRun, Unsure;
    ghost var q;
    codes, blocks, trace, m', q := ServeLoop(fp, reqs, tm, h, laid, m);
    if fp.fs.disk.atomic && (old(fp.Synced()) || Acked(reqs, codes) > 0) {
      PendingSurvives(fp, h, laid, q);
      BlocksSurvive(fp.fs.geo, fp.fs.disk.img, fp.dirSect, fp.dirOfs, trace, reqs, codes, blocks);
    }
  }

  /**
    The same up to the end of the service task, which closes the file whatever its last call came to: the
    sync of f_close writes its buffer and its entry once more, and takes nothing away.
  */
  method ServeAndStop(fp: Fil, reqs: seq<Request>, tm: dword, ghost h: Home, ghost laid: bool,
                      ghost m: map<nat, seq<nat>>)
    returns (codes: seq<Code>, blocks: seq<seq<byte>>, closed: FResult, ghost trace: seq<State>)
    requires Open(fp, laid, m) && fp.Covers() && (laid ==> Resident(fp, h, m))
    requires forall k | 0 <= k < |reqs| :: BlockOk(reqs[k])
    modifies fp, fp.buf, fp.fs`winsect, fp.fs`wflag, fp.fs`vol, fp.fs`fat, fp.fs`lastClst, fp.fs`freeClst,
      fp.fs`fsiFlag, fp.fs`fsiCount
    modifies fp.fs`promise, fp.fs.win, fp.fs.disk`img
    ensures IsRun(trace, reqs, codes, blocks) && trace[0] == old(Abs(fp)) && Remembers(reqs, codes, blocks)
    ensures fp.fs.disk.reliable && fp.id == fp.fs.id ==> closed == OK
    ensures fp.fs.disk.atomic && (old(fp.Synced()) || Acked(reqs, codes) > 0) ==>
      && Survives(fp.fs.geo, fp.fs.disk.img, fp.dirSect, fp.dirOfs, trace[Acked(reqs, codes)].data, Unsure(reqs, codes))
      && BlocksOnDisk(fp.fs.geo, fp.fs.disk.img, fp.dirSect, fp.dirOfs, trace[0].data, reqs, codes)
      && (laid ==> Findable(h, fp.fs.disk.img))
  {
    hide Open, Abs, Fil.Covers, Remembers, Resident, Durable, Fil.Synced, Survives, Acked, EndsWritten, Findable,
      BlocksOnDisk, Pending, IsRun, Unsure, Fil.Loose;
    ghost var q, m', known;
    codes, blocks, trace, m', q := ServeLoop(fp, reqs, tm, h, laid, m);
    known := old(fp.Synced()) || Acked(reqs, codes) > 0;
    closed := CloseFile(fp, tm, h, laid, known, q);
    if fp.fs.disk.atomic && known {
      PendingSurvives(fp, h, laid, q);
      BlocksSurvive(fp.fs.geo, fp.fs.disk.img, fp.dirSect, fp.dirOfs, trace, reqs, codes, blocks);
    }
  }

  /** What a request that failed, or none, leaves: what is recorded, and how it was before the request. */
  datatype Stand = Stand(rec: Recorded, r: Request, was: Promise, secs: seq<nat>, s: State)

  ghost predicate Pending(fp: Fil, h: Home, laid: bool, q: Stand)
    reads fp, fp.fs`winsect, fp.fs`wflag, fp.fs`vol, fp.fs`fat, fp.fs`promise, fp.fs`fsiCount, fp.fs.win, fp.fs.disk
  {
    && RecordedAt(fp, q.rec, q.was, q.secs, q.s) && Left(fp, q.r, q.was, q.secs, |q.s.data|)
    && (laid ==> Marked(h, q.rec) && h.k / 16 < |h.dsecs| && fp.fs.geo == h.geo)
    && (laid ==> fp.dirSect == h.dsecs[h.k / 16] && fp.dirOfs == h.k % 16 * 32)
    && (laid ==> forall t | t in q.rec.x.secs :: t !in q.secs)
  }

  lemma PendingSurvives(fp: Fil, h: Home, laid: bool, q: Stand)
    requires Pending(fp, h, laid, q) && fp.fs.disk.atomic
    ensures Survives(fp.fs.geo, fp.fs.disk.img, fp.dirSect, fp.dirOfs, q.rec.data, Target(q.r))
    ensures laid ==> Findable(h, fp.fs.disk.img)
  {
    hide RecordedAt, Left, Marked, Survives, Findable;
    AfterFailure(fp, q.r, q.rec, q.was, q.secs, q.s);
    if laid { FoundAfterFailure(fp, h, q.r, q.rec, q.was, q.secs, q.s); }
  }

  /** The sync of f_close. */
  method CloseFile(fp: Fil, tm: dword, ghost h: Home, ghost laid: bool, ghost known: bool, ghost q: Stand)
    returns (res: FResult)
    requires fp.Loose() && (known ==> Pending(fp, h, laid, q))
    modifies fp`dirty, fp`modified, fp.fs`winsect, fp.fs`wflag, fp.fs`vol, fp.fs`promise, fp.fs`fsiFlag, fp.fs`fsiCount,
      fp.fs.win, fp.fs.disk`img
    ensures fp.fs.disk.reliable && fp.id == fp.fs.id ==> res == OK
    ensures known ==> Pending(fp, h, laid, q)
  {
    hide RecordedAt, Marked, Fil.Loose, Fil.Threaded, EntryOldOrNew, GivenUp, Spares, Reached;
    ghost var mid, modified := fp.fs.promise, fp.modified;
    res := Sync(fp, tm);
    if known {
      StillGivenUp(q.was, mid, fp.fs.promise, q.r, q.secs, fp.dirSect);
      if modified && fp.fs.disk.atomic { EntryStill(fp, q.was, mid); }
    }
  }

  lemma StillGivenUp(was: Promise, mid: Promise, now: Promise, r: Request, secs: seq<nat>, d: nat)
    requires GivenUp(was, mid, Reached(r, secs, d)) && Spares(mid, now, [d], 0, 0)
    ensures GivenUp(was, now, Reached(r, secs, d))
    ensures d in was.secs && d in mid.secs ==> mid.secs[d] == was.secs[d]
  {
    GivenUpMore(was, mid, now, Reached(r, secs, d), d);
  }

  lemma AckedNone(reqs: seq<Request>)
    ensures Acked(reqs, []) == 0 && !EndsWritten(reqs, [])
  {
  }

  lemma EndsMore(reqs: seq<Request>, codes: seq<Code>, c: Code)
    requires |codes| < |reqs|
    ensures EndsWritten(reqs, codes + [c]) <==> c == Ok && reqs[|codes|].WriteBlock?
  {
  }

  /** What is recorded, if anything, has these bytes. */
  ghost predicate Tracked(fp: Fil, h: Home, laid: bool, rec: Recorded, data: seq<byte>)
    reads fp`secs, fp`body, fp`objsize, fp.fs`promise
  {
    rec.known ==> Since(fp, rec) && rec.data == data && (laid ==> Marked(h, rec))
  }

  ghost method StartTracking(fp: Fil, h: Home, laid: bool, m: map<nat, seq<nat>>) returns (rec: Recorded)
    requires Open(fp, laid, m) && fp.Covers() && (laid ==> Resident(fp, h, m))
    modifies fp.fs`promise
    ensures Open(fp, laid, m) && Tracked(fp, h, laid, rec, Abs(fp).data) && (rec.known <==> fp.Synced())
  {
    hide Open, Fil.Covers, Fil.Synced, Since, Marked, Resident, Capacity;
    if fp.Synced() { rec := Record(fp, h, laid, m); } else { rec := Forget(fp, laid, m); }
  }

  /** The next request, and what is recorded after it. */
  method ServeNext(fp: Fil, r: Request, tm: dword, ghost h: Home, ghost laid: bool, ghost m: map<nat, seq<nat>>,
                   ghost rec: Recorded, ghost data: seq<byte>)
    returns (code: Code, block: seq<byte>, ghost m': map<nat, seq<nat>>, ghost rec': Recorded, ghost q: Stand)
    requires Open(fp, laid, m) && fp.Covers() && (laid ==> Resident(fp, h, m)) && BlockOk(r)
    requires Tracked(fp, h, laid, rec, data)
    modifies fp, fp.buf, fp.fs`winsect, fp.fs`wflag, fp.fs`vol, fp.fs`fat, fp.fs`lastClst, fp.fs`freeClst,
      fp.fs`fsiFlag, fp.fs`fsiCount
    modifies fp.fs`promise, fp.fs.win, fp.fs.disk`img
    ensures code == Ok || code == InvalidBlock || code == IoFailure
    ensures code != IoFailure || fp.fs.disk.reliable ==>
      Open(fp, laid, m') && fp.Covers() && (laid ==> Resident(fp, h, m'))
    ensures code != IoFailure || fp.fs.disk.reliable ==> Served(old(Abs(fp)), r, Abs(fp), code, block)
    ensures code == Ok && r.WriteBlock? && laid ==> Durable(fp, h, m')
    ensures code == Ok && r.WriteBlock? ==> rec'.known && Tracked(fp, h, laid, rec', Abs(fp).data)
    ensures code != IoFailure && !(code == Ok && r.WriteBlock?) ==> rec' == rec && Tracked(fp, h, laid, rec, data)
    ensures code == IoFailure ==> rec' == rec && q.r == r && q.rec == rec
    ensures code == IoFailure && rec.known ==> Pending(fp, h, laid, q) && rec.data == data
    ensures fp.Loose()
  {
    hide Open, Served, Abs, Fil.Covers, BlockOk, Resident, Durable, Since, Marked, RecordedAt, Fil.Synced, Left,
      Reopenable, Fil.Loose;
    rec' := rec;
    ghost var was, secs, s := fp.fs.promise, fp.secs, Abs(fp);
    q := Stand(rec, r, was, secs, s);
    if rec.known { BeforeNow(fp, h, laid, m, rec); }
    DataIs(fp);
    code, block, m' := Serve(fp, r, tm, h, laid, m);
    if code == Ok && r.WriteBlock? {
      DataIs(fp);
      rec' := Record(fp, h, laid, m');
      OpenLoose(fp, laid, m');
    } else if code != IoFailure && rec.known {
      StillSince(fp, was, secs, s, rec);
    }
  }

  lemma BeforeNow(fp: Fil, h: Home, laid: bool, m: map<nat, seq<nat>>, rec: Recorded)
    requires Open(fp, laid, m) && fp.Covers() && Since(fp, rec) && (laid ==> Resident(fp, h, m) && Marked(h, rec))
    ensures RecordedAt(fp, rec, fp.fs.promise, fp.secs, Abs(fp))
    ensures laid ==> fp.fs.geo == h.geo && h.k / 16 < |h.dsecs|
    ensures laid ==> fp.dirSect == h.dsecs[h.k / 16] && fp.dirOfs == h.k % 16 * 32
    ensures laid ==> forall t | t in rec.x.secs :: t !in fp.secs
  {
    hide FileOnDisk, PromiseOf, SecsListed, Abs, Fil.Core, Fil.Cursor, Fil.Tight, Fil.Synced, Among, Boots, MarksOf,
      Slots, Maps, Refused, ZeroTail, Unique, RootLeads, RootOf, Capacity, BootCandidate, EndOf, InFat;
    OpenFacts(fp, laid, m);
    DataIs(fp);
    AllSectors(fp);
    if laid {
      SameSize(fp, laid, m);
      MarksAside(fp, h, m, rec.img0);
    }
  }

  lemma DataIs(fp: Fil)
    requires fp.Covers()
    ensures Abs(fp).data == fp.Data() && |Abs(fp).data| == fp.objsize
  {
  }

  lemma StillSince(fp: Fil, was: Promise, secs: seq<nat>, s: State, rec: Recorded)
    requires RecordedAt(fp, rec, was, secs, s)
    requires fp.fs.promise == was && secs <= fp.secs && fp.Covers() && s.data <= Abs(fp).data
    ensures Since(fp, rec)
  {
    hide FileOnDisk, PromiseOf, SecsListed, Capacity;
  }

  /** Nor is anything lost between requests. */
  lemma AtRest(fp: Fil, h: Home, laid: bool, m: map<nat, seq<nat>>, rec: Recorded, data: seq<byte>) returns (q: Stand)
    requires Open(fp, laid, m) && fp.Covers() && (laid ==> Resident(fp, h, m)) && Tracked(fp, h, laid, rec, data)
    requires rec.known
    ensures Pending(fp, h, laid, q) && q.rec == rec && rec.data == data && q.r == GetStatus
  {
    hide Since, Marked, Resident, Fil.Core, Fil.Cursor, Fil.Tight, Fil.Synced, Among, RecordedAt, Left, Capacity;
    BeforeNow(fp, h, laid, m, rec);
    NothingLeft(fp, GetStatus);
    q := Stand(rec, GetStatus, fp.fs.promise, fp.secs, Abs(fp));
  }

  /** The last answer is Ok to a write. */
  predicate EndsWritten(reqs: seq<Request>, codes: seq<Code>) {
    0 < |codes| <= |reqs| && codes[|codes| - 1] == Ok && reqs[|codes| - 1].WriteBlock?
  }

  // ----- What that means for the blocks

  /** The bytes x are block b of d. */
  predicate InBlock(d: seq<byte>, b: nat, x: seq<byte>) {
    |x| == 512 && b * 512 + 512 <= |d| && d[b * 512..b * 512 + 512] == x
  }

  /** None of the requests from i to n writes block b. */
  ghost predicate Unwritten(reqs: seq<Request>, i: int, n: int, b: nat) {
    forall k | 0 <= i <= k < n <= |reqs| :: !(reqs[k].WriteBlock? && reqs[k].blockId == b)
  }

  /** How many requests were begun: the one that failed is the last. */
  function Begun(reqs: seq<Request>, codes: seq<Code>): nat {
    if |codes| >= |reqs| || (codes != [] && codes[|codes| - 1] == IoFailure) then |codes| else |codes| + 1
  }

  /** d has every full block that was answered Ok and not written again, and every block of start never written. */
  ghost predicate HasBlocks(d: seq<byte>, start: seq<byte>, reqs: seq<Request>, codes: seq<Code>) {
    var n := Begun(reqs, codes);
    && (forall i | 0 <= i < |codes| <= |reqs| && reqs[i].WriteBlock? && |reqs[i].x| == 512 && codes[i] == Ok &&
                   Unwritten(reqs, i + 1, n, reqs[i].blockId) :: InBlock(d, reqs[i].blockId, reqs[i].x))
    && (forall b: nat | b * 512 + 512 <= |start| && Unwritten(reqs, 0, n, b) ::
          InBlock(d, b, start[b * 512..b * 512 + 512]))
  }

  /** Read from the disk alone, the file has them. */
  ghost predicate BlocksOnDisk(g: Geometry, img: seq<Sector>, dirSect: nat, dirOfs: nat, start: seq<byte>,
                               reqs: seq<Request>, codes: seq<Code>) {
    exists chain, left :: PrefixOnDisk(g, img, dirSect, dirOfs, chain, left) && HasBlocks(left, start, reqs, codes)
  }

  /** The bytes that survive a run have every block a client was told of. */
  lemma BlocksSurvive(g: Geometry, img: seq<Sector>, dirSect: nat, dirOfs: nat, trace: seq<State>, reqs: seq<Request>,
                      codes: seq<Code>, blocks: seq<seq<byte>>)
    requires IsRun(trace, reqs, codes, blocks)
    requires Survives(g, img, dirSect, dirOfs, trace[Acked(reqs, codes)].data, Unsure(reqs, codes))
    ensures BlocksOnDisk(g, img, dirSect, dirOfs, trace[0].data, reqs, codes)
  {
    hide Served, Acked, KeepsBut, Unsure, PrefixOnDisk, HasBlocks;
    var chain, left :| PrefixOnDisk(g, img, dirSect, dirOfs, chain, left) &&
      KeepsBut(trace[Acked(reqs, codes)].data, left, Unsure(reqs, codes));
    BlocksKept(trace, reqs, codes, blocks, left);
  }

  lemma BlocksKept(trace: seq<State>, reqs: seq<Request>, codes: seq<Code>, blocks: seq<seq<byte>>, left: seq<byte>)
    requires IsRun(trace, reqs, codes, blocks)
    requires KeepsBut(trace[Acked(reqs, codes)].data, left, Unsure(reqs, codes))
    ensures HasBlocks(left, trace[0].data, reqs, codes)
  {
    hide Served, Acked, KeepsBut, Unsure;
    var n, a := Begun(reqs, codes), Acked(reqs, codes);
    var r := reqs[..|codes|];
    forall i | 0 <= i < |codes| && reqs[i].WriteBlock? && |reqs[i].x| == 512 && codes[i] == Ok &&
               Unwritten(reqs, i + 1, n, reqs[i].blockId)
      ensures InBlock(left, reqs[i].blockId, reqs[i].x)
    {
      var b := reqs[i].blockId;
      AckedAfter(reqs, codes, i);
      assert Served(trace[i], r[i], trace[i + 1], codes[i], blocks[i]);
      WriteIs(trace[i], reqs[i], trace[i + 1], blocks[i]);
      StretchKeeps(trace, r, codes, blocks, i + 1, a, b);
      UnsureIs(reqs, codes, i + 1, b);
      StillBlock(trace[a].data, left, Unsure(reqs, codes), b, reqs[i].x);
    }
    forall b: nat | b * 512 + 512 <= |trace[0].data| && Unwritten(reqs, 0, n, b)
      ensures InBlock(left, b, trace[0].data[b * 512..b * 512 + 512])
    {
      StretchKeeps(trace, r, codes, blocks, 0, a, b);
      UnsureIs(reqs, codes, 0, b);
      StillBlock(trace[a].data, left, Unsure(reqs, codes), b, trace[0].data[b * 512..b * 512 + 512]);
    }
  }

  lemma WriteIs(s: State, r: Request, s': State, block: seq<byte>)
    requires Served(s, r, s', Ok, block) && r.WriteBlock? && |r.x| == 512
    ensures InBlock(s'.data, r.blockId, r.x)
  {
    hide WriteOutcome;
    WriteStores(s, r.blockId, r.x, s');
  }

  lemma {:induction false} AckedAfter(reqs: seq<Request>, codes: seq<Code>, i: nat)
    requires i < |codes| <= |reqs| && codes[i] == Ok && reqs[i].WriteBlock?
    ensures Acked(reqs, codes) > i
    decreases |codes|
  {
    if i < |codes| - 1 { AckedAfter(reqs, codes[..|codes| - 1], i); }
  }

  lemma UnsureIs(reqs: seq<Request>, codes: seq<Code>, i: nat, b: nat)
    requires i <= |codes| <= |reqs| && Unwritten(reqs, i, Begun(reqs, codes), b)
    requires i == |codes| ==> codes == [] || codes[|codes| - 1] != IoFailure
    ensures b !in Unsure(reqs, codes)
  {
  }

  lemma StillBlock(d: seq<byte>, d': seq<byte>, gone: set<nat>, b: nat, x: seq<byte>)
    requires KeepsBut(d, d', gone) && b !in gone && InBlock(d, b, x)
    ensures InBlock(d', b, x)
  {
    forall i | 0 <= i < 512 ensures d'[b * 512 + i] == x[i] {
      assert d[b * 512..b * 512 + 512][i] == d[b * 512 + i];
      assert (b * 512 + i) / 512 == b;
    }
    assert d'[b * 512..b * 512 + 512] == x;
  }
}
