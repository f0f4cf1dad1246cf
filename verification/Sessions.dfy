/** The service on a working disk: mounting or formatting it, opening the block file, and sessions of requests
    between power losses. */
module Sessions {
  import opened FatTypes
  import opened BlockDevice
  import opened Window
  import opened FatEntries
  import opened DirEntry
  import opened FatAccess
  import opened ChainTheory
  import opened Chains
  import opened ClusterMap
  import opened FileMap
  import opened FileObject
  import opened FileSpec
  import opened FileSync
  import opened FileReopen
  import opened BlockStore
  import opened DirectoryMap
  import Names = ShortNames
  import opened Directory
  import opened FileOpen
  import opened VolumePlan
  import opened BootSector
  import opened Mount
  import opened Format
  import opened FormatMount
  import opened PowerLoss
  import opened Landmarks
  import opened Survival
  import opened StorageRun

  // ----- From a disk without a file system

  /**
    mountVolume: mounts, and formats a disk that seems to have no file system before a second attempt.
    The volume it ends with is one that was there, or a new and empty one. On a working disk what the
    disk holds decides which.
  */
  method MountVolume(disk: Disk, work: array<byte>, id: nat, stamp: dword)
    returns (res: FResult, fs: Fatfs?, ghost made: bool, ghost p: Plan, ghost bVol: nat)
    requires Trusted(disk.img) && work.Length == 512
    modifies work, disk`img
    ensures res == OK <==> fs != null
    ensures fs != null ==> fresh(fs) && fresh(fs.win) && fs.disk == disk && fs.id == id && Attached(fs, bVol)
    ensures fs != null ==> if made then Formatted(disk.img, p, bVol) else HasVolume(disk.img, bVol)
    ensures !made ==> disk.img == old(disk.img)
    ensures disk.reliable ==> (made <==> MountOutcome(old(disk.img)) == NoFilesystem)
    ensures disk.reliable && !made ==> res == MountOutcome(disk.img) && (res == OK ==> VolumeAt(disk.img) == Some(bVol))
    ensures disk.reliable && made && Smallest(FM_ANY) <= |old(disk.img)| ==> res == OK && EmptyVolume(fs, p, bVol)
  {
    hide Valid, FreeCountOk, NoOnes, MountOutcome, Trusted, Formatted, Layout, PlanGeometry, VolumeAt, Attached,
      BootCandidate;
    hide HasVolume, ParseBpb, Outcomes, Settled, FreshFat, FreshChains;
    AnyIsAny();
    made, p, bVol := false, Plan(FAT16, 0, 0, 0, 0, 0), 0;
    ghost var b, kinds;
    res, fs, b, kinds := FindVolume(disk, id);
    bVol := b;
    if res == NoFilesystem {
      made := true;
      TrustedSize(disk.img);
      ghost var mkfs;
      res, fs, p, bVol, mkfs := MakeAndMount(disk, FM_ANY, 0, work, stamp, id);
      if res == OK && disk.reliable {
        LayoutNoOnes(fs.fat, FreshChains(p));
        AttachedParts(fs, bVol);
      }
    }
  }

  /** fs is the empty volume just made by plan p. */
  ghost predicate EmptyVolume(fs: Fatfs?, p: Plan, bVol: nat)
    reads fs, if fs == null then {} else {fs.win, fs.disk}
  {
    && fs != null && Usable(fs) && !fs.wflag && fs.vol == fs.disk.img && Formatted(fs.vol, p, bVol)
    && fs.geo == PlanGeometry(p, bVol) && fs.fat == FreshFat(p) && Layout(fs.fat, FreshChains(p))
    && (p.fmt == FAT32 ==> fs.fsiUsed) && fs.exact
  }

  lemma TrustedSize(img: seq<Sector>)
    requires Trusted(img)
    ensures |img| < 0x1_0000_0000
  {
  }

  lemma AnyIsAny()
    ensures AnyFat(FM_ANY) && Smallest(FM_ANY) == 191
  {
  }

  /** kBlockFileName, STORAGE.BIN. */
  const BLOCK_FILE: seq<byte> := [0x53, 0x54, 0x4F, 0x52, 0x41, 0x47, 0x45, 0x2E, 0x42, 0x49, 0x4E]

  function BlockName(): Names.Name {
    Names.Name([0x53, 0x54, 0x4F, 0x52, 0x41, 0x47, 0x45], [0x42, 0x49, 0x4E], true)
  }

  lemma BlockNameFits()
    ensures 0 !in BLOCK_FILE && Names.Fits(BlockName()) && Names.StartsWith(BLOCK_FILE, BlockName())
  {
    hide Names.AllLegal, Names.Legal;
    Names.LettersLegal(BlockName().body);
    Names.LettersLegal(BlockName().ext);
    assert Names.Written(BlockName()) == BLOCK_FILE;
  }

  /** It is an 8.3 name, so f_open finds or creates an entry for it. */
  method BlockFileName() returns (fn: seq<byte>)
    ensures FileName(fn) && Names.Fits(BlockName()) && fn == Names.Encode(BlockName())
  {
    hide *;
    BlockNameFits();
    var res, rest, last;
    ghost var n;
    res, fn, rest, last, n := Names.CreateName(BLOCK_FILE);
    Names.SameStart(BLOCK_FILE, n, BlockName());
    Names.EncodedIsFileName(n);
  }

  /** From a disk without a file system to the open block file: format, mount, create. */
  method OpenFresh(disk: Disk, work: array<byte>, id: nat, fn: seq<byte>, tm: dword)
    returns (fp: Fil, ghost h: Home, ghost m: map<nat, seq<nat>>, ghost p: Plan)
    requires disk.reliable && MountOutcome(disk.img) == NoFilesystem && (VolumeAt(disk.img).Some? ==> Trusted(disk.img))
    requires Smallest(FM_ANY) <= |disk.img| < 0x1_0000_0000 && work.Length == 512
    requires FileName(fn)
    modifies work, disk`img
    ensures fresh(fp) && fresh(fp.buf) && fresh(fp.fs) && fresh(fp.fs.win) && fp.fs.disk == disk
    ensures Open(fp, true, m) && fp.Covers() && Resident(fp, h, m) && h.fn == fn && fp.fs.exact
    ensures Abs(fp) == State([], 0, Times(FreeClusters0(p), p.pau) * 512)
  {
    hide EmptyVolume, Open, FileName, Resident, Fil.Covers, Abs, MountOutcome, Trusted, Attached, Formatted, VolumeAt;
    NoneTrusted(disk.img);
    AnyIsAny();
    var res, fs;
    ghost var made, bVol;
    res, fs, made, p, bVol := MountVolume(disk, work, id, tm);
    fp, h, m := CreateFile(fs, fn, tm, p, bVol);
  }

  lemma NoneTrusted(img: seq<Sector>)
    requires MountOutcome(img) == NoFilesystem && (VolumeAt(img).Some? ==> Trusted(img)) && |img| < 0x1_0000_0000
    ensures Trusted(img)
  {
    hide VolumeAt, Trusted, ParseBpb;
    if VolumeAt(img).None? { NothingTrusted(img); }
  }

  /** Creating the block file on the empty volume. */
  method CreateFile(fs: Fatfs, fn: seq<byte>, tm: dword, ghost p: Plan, ghost bVol: nat)
    returns (fp: Fil, ghost h: Home, ghost m: map<nat, seq<nat>>)
    requires fs.disk.reliable && EmptyVolume(fs, p, bVol) && FileName(fn)
    modifies fs`winsect, fs`wflag, fs`vol, fs`fat, fs`lastClst, fs`freeClst, fs`fsiFlag, fs.win, fs.disk`img
    ensures fresh(fp) && fresh(fp.buf) && fp.fs == fs && Open(fp, true, m) && fp.Covers() && Resident(fp, h, m) &&
      h.fn == fn
    ensures Abs(fp) == State([], 0, Times(FreeClusters0(p), p.pau) * 512) && fs.exact
  {
    hide Usable, Formatted, Layout, RootOf, NamedFile, Slots, HasName, HasBlank, Open, FileName, Resident, Boots;
    hide FreshFat, NameRefused, PlanGeometry, HasFsInfo, Only;
    FreshRoot(fs.vol, p, bVol);
    FreshFree(fs.vol, p, bVol);
    FreshBoots(fs.vol, p, bVol);
    RootParts(fs.geo, fs.vol, fs.fat, FreshRootChain(p), FreshRootSecs(p, bVol), FreshChains(p));
    Unnamed(fs.geo, fs.fat, Slots(fs.vol, FreshRootSecs(p, bVol)), fn, FreshRootChain(p), FreshChains(p));
    NotRefused(Slots(fs.vol, FreshRootSecs(p, bVol)), fn);
    var res, file;
    res, file, h, m := OpenFile(fs, fn, tm, true, FreshRootChain(p), FreshRootSecs(p, bVol), [], FreshChains(p));
    fp := file;
    OpenFacts(fp, true, m);
    EmptyState(fp, p);
  }

  lemma FreshBoots(img: seq<Sector>, p: Plan, bVol: nat)
    requires Formatted(img, p, bVol)
    ensures Boots(img, PlanGeometry(p, bVol)) && (HasFsInfo(PlanGeometry(p, bVol), img) ==> p.fmt == FAT32)
    ensures Only(img, PlanGeometry(p, bVol))
  {
    hide Boots, Bootable, Only;
    FormattedBoots(img, p, bVol);
  }

  /** Opening the block file in the root directory of a volume that was mounted. */
  method OpenFile(fs: Fatfs, fn: seq<byte>, tm: dword, ghost sole: bool, ghost dchain: seq<nat>,
                  ghost dsecs: seq<nat>, ghost chain: seq<nat>, ghost m: map<nat, seq<nat>>)
    returns (res: FResult, fp: Fil?, ghost h: Home, ghost m': map<nat, seq<nat>>)
    requires Usable(fs) && !fs.wflag && FileName(fn) && RootOf(fs.geo, fs.vol, fs.fat, dchain, dsecs, m)
    requires NamedFile(fs.geo, fs.fat, Slots(fs.vol, dsecs), fn, chain, dchain, m)
    requires Boots(fs.vol, fs.geo) && (sole ==> Only(fs.vol, fs.geo))
    requires fs.disk.reliable && HasFsInfo(fs.geo, fs.vol) ==> fs.fsiUsed
    modifies fs`winsect, fs`wflag, fs`vol, fs`fat, fs`lastClst, fs`freeClst, fs`fsiFlag, fs.win, fs.disk`img
    ensures res == OK <==> fp != null
    ensures res == OK || res == Denied || (res == DiskErr && !fs.disk.reliable)
    ensures res == Denied ==>
      NameRefused(old(Slots(fs.vol, dsecs)), fn) ||
        (!HasName(old(Slots(fs.vol, dsecs)), fn) && !HasBlank(old(Slots(fs.vol, dsecs))))
    ensures fp != null ==> fresh(fp) && fresh(fp.buf) && fp.fs == fs
    ensures fp != null ==> Open(fp, true, m') && fp.Covers() && Resident(fp, h, m')
    ensures fp != null ==> h.geo == fs.geo && h.sole == sole && h.fn == fn && fp.fptr == 0
    ensures fp != null && !HasName(old(Slots(fs.vol, dsecs)), fn) ==> fp.chain == [] && fp.objsize == 0
    ensures fp != null && HasName(old(Slots(fs.vol, dsecs)), fn) ==>
      fs.vol == old(fs.vol) && fp.chain == chain && Loaded(fp) && h.dsecs == dsecs
    ensures fp != null && (HasName(old(Slots(fs.vol, dsecs)), fn) || HasBlank(old(Slots(fs.vol, dsecs)))) ==>
      fs.fat == old(fs.fat)
  {
    hide Usable, RootOf, NamedFile, Slots, HasName, HasBlank, Open, FileName, IsEntry, Resident, Outside, Boots;
    hide NameRefused, HasFsInfo, Loaded, Fil.Covers, Abs, Only;
    ghost var img := fs.vol;
    RootParts(fs.geo, fs.vol, fs.fat, dchain, dsecs, m);
    if HasName(Slots(fs.vol, dsecs), fn) && chain != [] {
      EntryApart(fs.geo, fs.fat, Slots(fs.vol, dsecs), fn, chain, dchain, m);
    }
    ghost var d, k;
    res, fp, d, k, m' := OpenAlways(fs, fn, tm, dchain, dsecs, chain, m);
    if res != OK { h := Home(fs.geo, sole, fn, dchain, dsecs, 0); return; }
    h := Home(fs.geo, sole, fn, d.chain, d.secs, k);
    OpenFacts(fp, true, m');
    OpenedHome(fp, d, h, img, m');
  }

  /** A file that was there has its own chain. */
  lemma EntryApart(g: Geometry, fat: seq<nat>, slots: seq<Slot>, fn: seq<byte>, chain: seq<nat>, dchain: seq<nat>,
                   m: map<nat, seq<nat>>)
    requires NamedFile(g, fat, slots, fn, chain, dchain, m) && HasName(slots, fn) && chain != []
    ensures chain[0] in m && m[chain[0]] == chain && (dchain != [] ==> chain[0] != dchain[0])
  {
    hide Maps, Chained, Clusters;
  }

  /** The file that was opened is at home. */
  lemma OpenedHome(fp: Fil, d: Dir, h: Home, img: seq<Sector>, m: map<nat, seq<nat>>)
    requires Open(fp, true, m) && Boots(img, h.geo) && fp.fs.geo == h.geo && FileName(h.fn)
    requires h.sole ==> Only(img, h.geo)
    requires fp.fs.disk.reliable && HasFsInfo(h.geo, img) ==> fp.fs.fsiUsed
    requires Outside(h.geo, d.secs, img, fp.fs.vol) && d.fs == fp.fs && d.chain == h.dchain && d.secs == h.dsecs
    requires RootOf(h.geo, fp.fs.vol, fp.fs.fat, h.dchain, h.dsecs, m) && IsEntry(fp, d, h.fn, h.k)
    requires fp.chain != [] ==>
      fp.chain[0] in m && m[fp.chain[0]] == fp.chain && (h.dchain != [] ==> fp.chain[0] != h.dchain[0])
    ensures Resident(fp, h, m)
  {
    hide Boots, Only, ValidGeometry, Maps, Refused, ZeroTail, Unique, FileName, Layout, TableOk, Open, EndOf, InFat;
    FatLength(fp, true, m);
    BootsSize(img, h.geo);
    TableBounds(h, |img|, fp.fs.fat, m);
    forall s: nat | s < |img| && (s <= h.geo.volbase || s >= EndOf(h.geo)) ensures fp.fs.vol[s] == img[s] {
      assert s !in d.secs;
      assert !InFat(h.geo, s) by { OutsideAreas(h.geo, |img|, s); }
    }
    BootsKept(img, fp.fs.vol, h.geo);
  }

  lemma TableBounds(h: Home, disk: nat, fat: seq<nat>, m: map<nat, seq<nat>>)
    requires ValidGeometry(h.geo, disk) && TableOk(h.geo, disk, fat, 0, h.dchain, h.dsecs) && Layout(fat, m) &&
      |fat| == h.geo.nFatent
    requires h.dchain != [] ==> h.dchain[0] in m && m[h.dchain[0]] == h.dchain
    ensures forall i | 0 <= i < |h.dsecs| :: h.geo.volbase < h.dsecs[i] < EndOf(h.geo)
  {
    hide Linked, EndOf, TableOk, Covered;
    NoSectors(h.geo, disk);
    TableApart(h.geo, disk, fat, m, h.dchain, h.dsecs, [], []);
    TableBelow(h.geo, disk, fat, h.dchain, h.dsecs);
  }

  lemma NoSectors(g: Geometry, disk: nat)
    ensures SecsAre(g, disk, [], [])
  {
  }

  lemma OutsideAreas(g: Geometry, disk: nat, s: nat)
    requires ValidGeometry(g, disk) && (s <= g.volbase || s >= EndOf(g))
    ensures !InFat(g, s)
  {
    hide Times, FatBytes;
  }

  function Flat(sessions: seq<seq<Request>>): seq<Request> {
    if sessions == [] then [] else sessions[0] + Flat(sessions[1..])
  }

  /** The sessions up to i and one more. */
  lemma {:induction false} FlatMore(sessions: seq<seq<Request>>, i: nat)
    requires i < |sessions|
    ensures Flat(sessions[..i + 1]) == Flat(sessions[..i]) + sessions[i] && Flat(sessions[..i + 1]) <= Flat(sessions)
    decreases |sessions|
  {
    var rest := sessions[1..];
    if i == 0 {
      assert sessions[..1][1..] == [] && Flat(sessions[..1]) == sessions[0] + Flat([]) && Flat(sessions[..0]) == [];
    } else {
      FlatMore(rest, i - 1);
      assert sessions[..i + 1][1..] == rest[..i] && sessions[..i][1..] == rest[..i - 1];
    }
  }

  lemma RunShape(t: seq<State>, r: seq<Request>, c: seq<Code>, b: seq<seq<byte>>)
    requires IsRun(t, r, c, b)
    ensures |c| == |b| <= |r| && |t| == |c| + 1
  {
  }

  lemma RunStarts(s: State)
    ensures IsRun([s], [], [], [])
  {
  }

  /** A run continued by another one. */
  lemma RunAppend(t1: seq<State>, r1: seq<Request>, c1: seq<Code>, b1: seq<seq<byte>>, t2: seq<State>,
                  r2: seq<Request>, c2: seq<Code>, b2: seq<seq<byte>>)
    requires IsRun(t1, r1, c1, b1) && |c1| == |r1| && IsRun(t2, r2, c2, b2) && t2[0] == t1[|c1|]
    ensures IsRun(t1 + t2[1..], r1 + r2[..|c2|], c1 + c2, b1 + b2)
  {
    hide Served;
    var t, r, c, b := t1 + t2[1..], r1 + r2[..|c2|], c1 + c2, b1 + b2;
    forall k | 0 <= k < |c| ensures Served(t[k], r[k], t[k + 1], c[k], b[k]) {
      if k >= |c1| { assert Served(t2[k - |c1|], r2[k - |c1|], t2[k - |c1| + 1], c2[k - |c1|], b2[k - |c1|]); }
    }
  }

  /** Losing the memory after a write answered Ok changes nothing but the cursor. */
  lemma RunRewound(t: seq<State>, r: seq<Request>, c: seq<Code>, b: seq<seq<byte>>)
    requires IsRun(t, r, c, b) && EndsWritten(r, c)
    ensures IsRun(t[|c| := t[|c|].(pos := 0)], r, c, b)
  {
    hide WrittenAt, Fits;
    var n := |c| - 1;
    var t' := t[|c| := t[|c|].(pos := 0)];
    forall k | 0 <= k < |c| ensures Served(t'[k], r[k], t'[k + 1], c[k], b[k]) {
      assert Served(t[k], r[k], t[k + 1], c[k], b[k]);
    }
  }

  /**
    Losing everything in memory after a write answered Ok: the file comes back with its content and its
    capacity, and with an exact free count if it had one. If the disk fails it is left as it is.
  */
  method PowerCycle(fp: Fil, id: nat, fn: seq<byte>, tm: dword, ghost h: Home, ghost m: map<nat, seq<nat>>)
    returns (again: Fil?)
    requires (fp.fs.disk.reliable || h.sole) && fp.Covers() && Resident(fp, h, m) && Durable(fp, h, m) && h.fn == fn
    modifies fp.fs.disk`img
    ensures (fp.fs.disk.reliable ==> again != null) && fp.fs.disk.img == old(fp.fs.disk.img)
    ensures again != null ==> fresh(again) && fresh(again.buf) && fresh(again.fs) && fresh(again.fs.win)
    ensures again != null ==> again.fs.disk == fp.fs.disk && Open(again, true, m) && again.Covers() && again.Synced()
    ensures again != null ==> Resident(again, h, m) && Abs(again) == old(Abs(fp)).(pos := 0)
    ensures again != null && fp.fs.disk.reliable && fp.fs.exact ==> again.fs.exact
  {
    hide HomeAt, Remountable, Open, Fil.Covers, FatOf, ValidGeometry, CountFree, CountSaved, HasFsInfo, Fil.Synced;
    var res;
    res, again := Remount(fp.fs.disk, id, fn, tm, h, fp.chain, m, fp.Data());
  }

  /** The requests that were answered, and the one that failed without an answer. */
  function Started(reqs: seq<Request>, codes: seq<Code>): (r: seq<Request>)
    requires |codes| <= |reqs|
    ensures r <= reqs && |codes| <= |r| <= |codes| + 1
  {
    reqs[..Begun(reqs, codes)]
  }

  /** The requests not begun make no difference. */
  lemma {:induction false} StartedSame(reqs: seq<Request>, codes: seq<Code>)
    requires |codes| <= |reqs|
    ensures Acked(Started(reqs, codes), codes) == Acked(reqs, codes)
    ensures Unsure(Started(reqs, codes), codes) == Unsure(reqs, codes)
  {
    AckedFew(Started(reqs, codes), reqs, codes);
  }

  lemma {:induction false} AckedFew(r: seq<Request>, reqs: seq<Request>, codes: seq<Code>)
    requires |codes| <= |r| && r <= reqs
    ensures Acked(r, codes) == Acked(reqs, codes)
    decreases |codes|
  {
    if codes != [] && !EndsWritten(reqs, codes) { AckedFew(r, reqs, codes[..|codes| - 1]); }
  }

  /** Runs that follow one that ends with a write answered Ok. */
  lemma {:induction false} AckedJoin(r1: seq<Request>, c1: seq<Code>, r2: seq<Request>, c2: seq<Code>)
    requires |c1| == |r1| && |c2| <= |r2| && (c1 == [] || EndsWritten(r1, c1))
    ensures Acked(r1 + r2, c1 + c2) == |c1| + Acked(r2, c2)
    ensures Unsure(r1 + r2, c1 + c2) == Unsure(r2, c2)
    decreases |c2|
  {
    if c2 == [] {
      assert c1 + c2 == c1;
    } else {
      assert (c1 + c2)[..|c1 + c2| - 1] == c1 + c2[..|c2| - 1];
      AckedJoin(r1, c1, r2, c2[..|c2| - 1]);
    }
  }

  lemma RunLonger(t: seq<State>, r: seq<Request>, more: seq<Request>, c: seq<Code>, b: seq<seq<byte>>)
    requires IsRun(t, r, c, b) && r <= more
    ensures IsRun(t, more, c, b)
  {
    hide Served;
    forall k | 0 <= k < |c| ensures Served(t[k], more[k], t[k + 1], c[k], b[k]) {
      assert Served(t[k], r[k], t[k + 1], c[k], b[k]);
    }
  }

  /** The file as the last write answered Ok has left it is on the disk, but for the block of a failed request. */
  ghost predicate Kept(h: Home, img: seq<Sector>, d: nat, o: nat, trace: seq<State>, reqs: seq<Request>,
                       codes: seq<Code>) {
    && Acked(reqs, codes) < |trace| && Findable(h, img)
    && Survives(h.geo, img, d, o, trace[Acked(reqs, codes)].data, Unsure(reqs, codes))
    && BlocksOnDisk(h.geo, img, d, o, trace[0].data, reqs, codes)
  }

  /** A synced file is. */
  lemma KeptNow(fp: Fil, h: Home, m: map<nat, seq<nat>>, trace: seq<State>, reqs: seq<Request>, codes: seq<Code>,
                blocks: seq<seq<byte>>)
    requires Open(fp, true, m) && fp.Covers() && Resident(fp, h, m) && fp.Synced()
    requires IsRun(trace, reqs, codes, blocks) && |codes| == |reqs| && trace[|codes|].data == Abs(fp).data
    requires codes == [] || EndsWritten(reqs, codes)
    ensures Kept(h, fp.fs.disk.img, fp.dirSect, fp.dirOfs, trace, reqs, codes)
  {
    hide Open, Resident, Fil.Synced, IsRun, Survives, Findable, BlocksOnDisk, Fil.Covers, Abs;
    AckedJoin(reqs, codes, [], []);
    assert reqs + [] == reqs && codes + [] == codes;
    RunShape(trace, reqs, codes, blocks);
    MarksNow(fp, h, m);
    SyncedSurvives(fp, m);
    Place(fp, h, m);
    BlocksSurvive(h.geo, fp.fs.disk.img, fp.dirSect, fp.dirOfs, trace, reqs, codes, blocks);
  }

  lemma Place(fp: Fil, h: Home, m: map<nat, seq<nat>>)
    requires Resident(fp, h, m)
    ensures fp.fs.geo == h.geo && h.k / 16 < |h.dsecs|
    ensures fp.dirSect == h.dsecs[h.k / 16] && fp.dirOfs == h.k % 16 * 32
  {
    hide Boots, Only, RootOf, Maps, Refused, FileName, Slots;
  }

  lemma SyncedSurvives(fp: Fil, m: map<nat, seq<nat>>)
    requires Open(fp, true, m) && fp.Covers() && fp.Synced()
    ensures Survives(fp.fs.geo, fp.fs.disk.img, fp.dirSect, fp.dirOfs, Abs(fp).data, {})
  {
    hide Fil.Sound, Fil.Synced, Fil.Covers, Among, FileOnDisk, PrefixOnDisk, Capacity;
    SyncedOnDisk(fp);
    FileIsPrefix(fp.fs.geo, fp.fs.disk.img, fp.dirSect, fp.dirOfs, fp.chain, fp.Data());
    assert KeepsBut(fp.Data(), fp.Data(), {});
  }

  /**
    One session after those before it, and if it ends with a write answered Ok the loss of everything in
    memory, with mounting and opening again. If there is no next session, nothing that was acknowledged
    in this one or before is lost.
  */
  method Session(fp: Fil, id: nat, fn: seq<byte>, tm: dword, reqs: seq<Request>, ghost h: Home,
                 ghost m: map<nat, seq<nat>>, ghost t1: seq<State>, ghost r1: seq<Request>, ghost c1: seq<Code>,
                 ghost b1: seq<seq<byte>>)
    returns (c: seq<Code>, b: seq<seq<byte>>, again: Fil?, ghost t: seq<State>, ghost m': map<nat, seq<nat>>)
    requires Open(fp, true, m) && fp.Covers() && Resident(fp, h, m) && h.fn == fn && (fp.fs.disk.reliable || h.sole)
    requires reqs != [] && forall k | 0 <= k < |reqs| :: BlockOk(reqs[k])
    requires IsRun(t1, r1, c1, b1) && |c1| == |r1| && |t1| == |c1| + 1 && t1[|c1|] == Abs(fp)
    requires c1 == [] || (EndsWritten(r1, c1) && fp.Synced())
    modifies fp, fp.buf, fp.fs`winsect, fp.fs`wflag, fp.fs`vol, fp.fs`fat, fp.fs`lastClst, fp.fs`freeClst,
      fp.fs`fsiFlag, fp.fs`fsiCount
    modifies fp.fs`promise, fp.fs.win, fp.fs.disk`img
    ensures |c| == |b| <= |reqs| && IsRun(t, r1 + reqs[..|c|], c1 + c, b1 + b) && |t| == |c1 + c| + 1 && t[0] == t1[0]
    ensures again != null ==> fresh(again) && fresh(again.buf) && fresh(again.fs) && fresh(again.fs.win)
    ensures again != null ==> |c| == |reqs| && EndsWritten(r1 + reqs[..|c|], c1 + c)
    ensures again != null ==> Open(again, true, m') && again.Covers() && Resident(again, h, m') && again.Synced()
    ensures again != null ==> t[|c1 + c|] == Abs(again) && again.fs.disk == fp.fs.disk
    ensures again != null ==> again.dirSect == fp.dirSect && again.dirOfs == fp.dirOfs
    ensures again == null && fp.fs.disk.reliable ==> !EndsWritten(r1 + reqs[..|c|], c1 + c)
    ensures again == null && fp.fs.disk.atomic && (old(fp.Synced()) || Acked(r1 + Started(reqs, c), c1 + c) > 0) ==>
      Kept(h, fp.fs.disk.img, fp.dirSect, fp.dirOfs, t, r1 + Started(reqs, c), c1 + c)
  {
    hide Open, IsRun, Remembers, BlockOk, Resident, Durable, Fil.Covers, Abs, Served, Remountable, FatOf, Fil.Synced,
      Kept, Acked, EndsWritten, Started, Findable, Survives, Unsure, BlocksOnDisk;
    ghost var t2;
    again := null;
    Place(fp, h, m);
    c, b, t2, m' := ServeAll(fp, reqs, tm, h, true, m);
    RunShape(t2, reqs, c, b);
    RunAppend(t1, r1, c1, b1, t2, reqs, c, b);
    t := t1 + t2[1..];
    AckedIn(r1, c1, reqs, c);
    if fp.fs.disk.atomic && (old(fp.Synced()) || Acked(reqs, c) > 0) {
      KeptMore(h, fp.fs.disk.img, fp.dirSect, fp.dirOfs, t1, r1, c1, b1, t2, reqs, c, b);
    }
    if c != [] { EndsJoin(r1, c1, reqs, c); }
    if |c| == |reqs| && c[|c| - 1] == Ok && reqs[|c| - 1].WriteBlock? {
      // the memory is lost
      again := PowerCycle(fp, id, fn, tm, h, m');
      if again != null {
        Place(again, h, m');
        RunRewound(t, r1 + reqs[..|c|], c1 + c, b1 + b);
        t := t[|c1 + c| := t[|c1 + c|].(pos := 0)];
      }
    }
  }

  /** What a session keeps, in terms of all sessions. */
  lemma KeptMore(h: Home, img: seq<Sector>, d: nat, o: nat, t1: seq<State>, r1: seq<Request>, c1: seq<Code>,
                 b1: seq<seq<byte>>, t2: seq<State>, r2: seq<Request>, c2: seq<Code>, b2: seq<seq<byte>>)
    requires IsRun(t1, r1, c1, b1) && |c1| == |r1| && IsRun(t2, r2, c2, b2) && t2[0] == t1[|c1|]
    requires c1 == [] || EndsWritten(r1, c1)
    requires Survives(h.geo, img, d, o, t2[Acked(r2, c2)].data, Unsure(r2, c2)) && Findable(h, img)
    ensures |c2| <= |r2| && Kept(h, img, d, o, t1 + t2[1..], r1 + Started(r2, c2), c1 + c2)
  {
    hide IsRun, Acked, Unsure, Survives, Findable, Started, BlocksOnDisk, EndsWritten;
    RunShape(t1, r1, c1, b1);
    RunShape(t2, r2, c2, b2);
    RunAppend(t1, r1, c1, b1, t2, r2, c2, b2);
    StartedSame(r2, c2);
    AckedJoin(r1, c1, Started(r2, c2), c2);
    var t, r, c, b := t1 + t2[1..], r1 + Started(r2, c2), c1 + c2, b1 + b2;
    RunLonger(t, r1 + r2[..|c2|], r, c, b);
    StateAt(t1, t2, Acked(r2, c2));
    BlocksSurvive(h.geo, img, d, o, t, r, c, b);
  }

  lemma StateAt(t1: seq<State>, t2: seq<State>, k: nat)
    requires t1 != [] && k < |t2| && t2[0] == t1[|t1| - 1]
    ensures |t1 + t2[1..]| == |t1| + |t2| - 1 && (t1 + t2[1..])[|t1| - 1 + k] == t2[k]
  {
  }

  lemma AckedIn(r1: seq<Request>, c1: seq<Code>, r2: seq<Request>, c2: seq<Code>)
    requires |c1| == |r1| && |c2| <= |r2| && (c1 == [] || EndsWritten(r1, c1))
    ensures Acked(r1 + Started(r2, c2), c1 + c2) == |c1| + Acked(r2, c2)
  {
    hide Acked, Started, Unsure, EndsWritten;
    StartedSame(r2, c2);
    AckedJoin(r1, c1, Started(r2, c2), c2);
  }

  lemma EndsJoin(r1: seq<Request>, c1: seq<Code>, r2: seq<Request>, c2: seq<Code>)
    requires |c1| == |r1| && 0 < |c2| <= |r2|
    ensures EndsWritten(r1 + r2[..|c2|], c1 + c2) <==> c2[|c2| - 1] == Ok && r2[|c2| - 1].WriteBlock?
    ensures EndsWritten(r2, c2) <==> c2[|c2| - 1] == Ok && r2[|c2| - 1].WriteBlock?
  {
  }

  lemma FlatPart(served: seq<Request>, reqs: seq<Request>, r: seq<Request>, all: seq<Request>)
    requires served + reqs <= all && r <= reqs
    ensures served + r <= all
  {
    assert served + r <= served + reqs;
  }

  lemma FlatNone(sessions: seq<seq<Request>>)
    ensures Flat(sessions[..0]) == []
  {
  }

  /** The file object in use is the one it began with or one that was opened since. */
  twostate predicate Own(fp0: Fil, new fp: Fil)
  {
    && (fp == fp0 || fresh(fp)) && (fp.buf == fp0.buf || fresh(fp.buf))
    && (fp.fs == fp0.fs || fresh(fp.fs)) && (fp.fs.win == fp0.fs.win || fresh(fp.fs.win))
  }

  /**
    The service over power losses: it serves the first session of requests on its open file; whenever a
    session ends with a write answered Ok, everything in memory may be lost, and the next session starts
    with mounting and opening again. All sessions together are one run of a block store that starts with
    the content and the capacity of the file, up to the first request, mount or open that fails. On a disk
    that writes sectors as a whole the failure costs no more than the block that was being written: what
    any earlier session was told is stored can still be found and read.
  */
  method ServeSessions(fp0: Fil, id: nat, fn: seq<byte>, tm: dword, sessions: seq<seq<Request>>, ghost h: Home,
                       ghost m0: map<nat, seq<nat>>)
    returns (served: seq<Request>, codes: seq<Code>, blocks: seq<seq<byte>>, ghost trace: seq<State>,
             ghost started: seq<Request>)
    requires Open(fp0, true, m0) && fp0.Covers() && Resident(fp0, h, m0) && h.fn == fn
    requires fp0.fs.disk.reliable || h.sole
    requires forall i, k | 0 <= i < |sessions| && 0 <= k < |sessions[i]| :: BlockOk(sessions[i][k])
    modifies fp0, fp0.buf, fp0.fs, fp0.fs.win, fp0.fs.disk`img
    ensures |codes| == |served| && IsRun(trace, served, codes, blocks) && Remembers(served, codes, blocks)
    ensures trace[0] == old(Abs(fp0))
    ensures served <= started <= Flat(sessions) && |started| <= |served| + 1
    ensures fp0.fs.disk.reliable ==> served == Flat(sessions) || !EndsWritten(served, codes)
    ensures fp0.fs.disk.atomic && (old(fp0.Synced()) || Acked(started, codes) > 0) ==>
      Kept(h, fp0.fs.disk.img, fp0.dirSect, fp0.dirOfs, trace, started, codes)
  {
    hide Flat, Unsure, Open, IsRun, Remembers, BlockOk, Resident, Durable, Fil.Covers, Abs, Served, Remountable,
      FatOf, Fil.Synced, Kept, Acked, EndsWritten, Started;
    var fp: Fil, disk := fp0, fp0.fs.disk;
    ghost var m := m0;
    served, codes, blocks, trace, started := [], [], [], [Abs(fp)], [];
    RunStarts(Abs(fp));
    FlatNone(sessions);
    var i := 0;
    while i < |sessions|
      invariant i <= |sessions| && served == Flat(sessions[..i]) && |codes| == |served|
      invariant IsRun(trace, served, codes, blocks) && started == served && served <= Flat(sessions)
      invariant Open(fp, true, m) && fp.Covers() && |trace| == |codes| + 1 && trace[0] == old(Abs(fp0))
      invariant trace[|codes|] == Abs(fp) && Resident(fp, h, m) && fp.fs.disk == disk
      invariant fp.dirSect == fp0.dirSect && fp.dirOfs == fp0.dirOfs
      invariant if codes == [] then fp.Synced() == old(fp0.Synced()) else fp.Synced() && EndsWritten(served, codes)
      invariant Own(fp0, fp)
    {
      FlatMore(sessions, i);
      if sessions[i] != [] {
        var c, b, again;
        c, b, again, trace, m := Session(fp, id, fn, tm, sessions[i], h, m, trace, served, codes, blocks);
        started := served + Started(sessions[i], c);
        FlatPart(served, sessions[i], Started(sessions[i], c), Flat(sessions));
        FlatPart(served, sessions[i], sessions[i][..|c|], Flat(sessions));
        served, codes, blocks := served + sessions[i][..|c|], codes + c, blocks + b;
        if again == null {
          RunRemembers(trace, served, codes, blocks);
          return;
        }
        fp := again;
      }
      i := i + 1;
    }
    assert sessions[..i] == sessions;
    if disk.atomic && (old(fp0.Synced()) || Acked(started, codes) > 0) {
      KeptNow(fp, h, m, trace, served, codes, blocks);
    }
    RunRemembers(trace, served, codes, blocks);
  }

  /** The same from a disk without a file system: format, mount, create the file; the block store starts empty. */
  method ServeFromBlank(disk: Disk, work: array<byte>, id: nat, tm: dword, sessions: seq<seq<Request>>)
    returns (served: seq<Request>, codes: seq<Code>, blocks: seq<seq<byte>>, ghost trace: seq<State>, ghost p: Plan)
    requires disk.reliable && MountOutcome(disk.img) == NoFilesystem && (VolumeAt(disk.img).Some? ==> Trusted(disk.img))
    requires Smallest(FM_ANY) <= |disk.img| < 0x1_0000_0000 && work.Length == 512
    requires forall i, k | 0 <= i < |sessions| && 0 <= k < |sessions[i]| :: BlockOk(sessions[i][k])
    modifies work, disk`img
    ensures |codes| == |served| && IsRun(trace, served, codes, blocks) && Remembers(served, codes, blocks)
    ensures trace[0] == State([], 0, Times(FreeClusters0(p), p.pau) * 512)
    ensures served <= Flat(sessions) && (served == Flat(sessions) || !EndsWritten(served, codes))
  {
    hide Open, IsRun, Remembers, BlockOk, FileName, MountOutcome, Trusted, Resident, Fil.Covers, Abs;
    var fn := BlockFileName();
    var fp: Fil;
    ghost var h, m;
    fp, h, m, p := OpenFresh(disk, work, id, fn, tm);
    ghost var started;
    served, codes, blocks, trace, started := ServeSessions(fp, id, fn, tm, sessions, h, m);
  }

  /** mountVolume and openBlockFile on a working disk that has a volume, wherever that was formatted. */
  method OpenExisting(disk: Disk, work: array<byte>, id: nat, fn: seq<byte>, tm: dword, ghost geo: Geometry,
                      ghost dchain: seq<nat>, ghost dsecs: seq<nat>, ghost chain: seq<nat>,
                      ghost m: map<nat, seq<nat>>, ghost data: seq<byte>)
    returns (res: FResult, fp: Fil?, ghost h: Home, ghost m': map<nat, seq<nat>>)
    requires disk.reliable && Boots(disk.img, geo) && work.Length == 512 && FileName(fn)
    requires ValidGeometry(geo, |disk.img|) && NoOnes(FatOf(geo, disk.img))
    requires RootOf(geo, disk.img, FatOf(geo, disk.img), dchain, dsecs, m)
    requires NamedFile(geo, FatOf(geo, disk.img), Slots(disk.img, dsecs), fn, chain, dchain, m)
    requires Content(geo, disk.img, dsecs, fn, chain, data)
    modifies work, disk`img
    ensures (res == OK <==> fp != null) && (res == OK || res == Denied)
    ensures res == Denied ==>
      NameRefused(old(Slots(disk.img, dsecs)), fn) ||
        (!HasName(old(Slots(disk.img, dsecs)), fn) && !HasBlank(old(Slots(disk.img, dsecs))))
    ensures fp != null ==> fresh(fp) && fresh(fp.buf) && fresh(fp.fs) && fresh(fp.fs.win) && fp.fs.disk == disk
    ensures fp != null ==> Open(fp, true, m') && fp.Covers() && Resident(fp, h, m') && h.geo == geo && h.fn == fn
    ensures fp != null ==> Abs(fp).data == data && Abs(fp).pos == 0
    ensures fp != null ==> (fp.fs.exact <==> CountSaved(geo, old(disk.img)))
  {
    hide Usable, RootOf, NamedFile, Slots, HasName, HasBlank, Open, Resident, Boots, NameRefused, HasFsInfo, Content;
    hide Loaded, Fil.Covers, FatOf, ValidGeometry, Attached, Trusted, MountOutcome, CountSaved, FileName, VolumeAt,
      Formatted, Abs;
    ghost var img := disk.img;
    BootsIn(img, geo);
    RootParts(geo, img, FatOf(geo, img), dchain, dsecs, m);
    ghost var made, p, bVol;
    var found;
    res, found, made, p, bVol := MountVolume(disk, work, id, tm);
    var fs: Fatfs := found;
    AttachedParts(fs, geo.volbase);
    MountedBoots(fs, geo);
    res, fp, h, m' := OpenFile(fs, fn, tm, false, dchain, dsecs, chain, m);
    if fp != null {
      if HasName(Slots(img, dsecs), fn) {
        FoundContent(fp, h, m', img, data);
      } else {
        NoContent(fp, h, m', img, dsecs, chain, data);
      }
    }
  }

  lemma BootsIn(img: seq<Sector>, g: Geometry)
    requires Boots(img, g)
    ensures Trusted(img) && MountOutcome(img) == OK && VolumeAt(img) == Some(g.volbase)
  {
    hide Trusted, VolumeAt, ParseBpb, ValidGeometry, BootCandidate;
  }

  /** What a mount of such a volume has loaded. */
  lemma MountedBoots(fs: Fatfs, g: Geometry)
    requires Attached(fs, g.volbase) && fs.disk.reliable && Boots(fs.vol, g) && ValidGeometry(g, |fs.vol|)
    requires NoOnes(FatOf(g, fs.vol))
    ensures fs.geo == g && Usable(fs) && !fs.wflag && fs.vol == fs.disk.img && fs.fat == FatOf(g, fs.vol)
    ensures (HasFsInfo(g, fs.vol) ==> fs.fsiUsed) && (fs.exact <==> CountSaved(g, fs.vol))
  {
    hide Trusted, VolumeAt, BootCandidate, HasFsInfo, CountSaved, NoOnes;
    BootsSize(fs.vol, g);
    MountedAs(fs, g.volbase, g);
    LoadedCount(fs);
  }

  lemma FoundContent(fp: Fil, h: Home, m: map<nat, seq<nat>>, img: seq<Sector>, data: seq<byte>)
    requires Open(fp, true, m) && Resident(fp, h, m) && Loaded(fp) && fp.fs.vol == img
    requires Content(h.geo, img, h.dsecs, h.fn, fp.chain, data) && HasName(Slots(img, h.dsecs), h.fn)
    ensures fp.Covers() && Abs(fp).data == data && Abs(fp).pos == fp.fptr
  {
    hide FileOnDisk, CountFree, EntryIs, Fil.BufOk, Fil.WindowOk, Fil.VolumeOk, SecsAre, BodyMatches, Idx, Clusters,
      Among;
    hide Boots, Maps, Refused, RootOf;
    SameData(fp, img, data);
  }

  lemma NoContent(fp: Fil, h: Home, m: map<nat, seq<nat>>, img: seq<Sector>, dsecs: seq<nat>, chain: seq<nat>,
                  data: seq<byte>)
    requires Open(fp, true, m) && fp.objsize == 0 && SecsInside(img, dsecs) && !HasName(Slots(img, dsecs), h.fn)
    requires Content(h.geo, img, dsecs, h.fn, chain, data)
    ensures fp.Covers() && Abs(fp).data == data && Abs(fp).pos == fp.fptr
  {
    hide Fil.BufOk, Fil.WindowOk, Chained, SecsAre, BodyMatches, Idx, Clusters, Among, Slots, HasName, FileOnDisk,
      SecsInside;
  }

  /**
    The service on a working disk that has a volume, over power losses: unless the open is denied, one
    block store that starts with the content of the file that was found.
  */
  method ServeFromVolume(disk: Disk, work: array<byte>, id: nat, fn: seq<byte>, tm: dword, sessions: seq<seq<Request>>,
                         ghost geo: Geometry, ghost dchain: seq<nat>, ghost dsecs: seq<nat>, ghost chain: seq<nat>,
                         ghost m: map<nat, seq<nat>>, ghost data: seq<byte>)
    returns (res: FResult, served: seq<Request>, codes: seq<Code>, blocks: seq<seq<byte>>, ghost trace: seq<State>)
    requires disk.reliable && Boots(disk.img, geo) && work.Length == 512 && FileName(fn)
    requires ValidGeometry(geo, |disk.img|) && NoOnes(FatOf(geo, disk.img))
    requires RootOf(geo, disk.img, FatOf(geo, disk.img), dchain, dsecs, m)
    requires NamedFile(geo, FatOf(geo, disk.img), Slots(disk.img, dsecs), fn, chain, dchain, m)
    requires Content(geo, disk.img, dsecs, fn, chain, data)
    requires forall i, k | 0 <= i < |sessions| && 0 <= k < |sessions[i]| :: BlockOk(sessions[i][k])
    modifies work, disk`img
    ensures res == OK || res == Denied
    ensures res == Denied ==>
      NameRefused(old(Slots(disk.img, dsecs)), fn) ||
        (!HasName(old(Slots(disk.img, dsecs)), fn) && !HasBlank(old(Slots(disk.img, dsecs))))
    ensures res == OK ==> |codes| == |served| && IsRun(trace, served, codes, blocks) && Remembers(served, codes, blocks)
    ensures res == OK ==> trace[0].data == data && trace[0].pos == 0
    ensures res == OK ==> served <= Flat(sessions) && (served == Flat(sessions) || !EndsWritten(served, codes))
  {
    hide RootOf, NamedFile, Slots, HasName, HasBlank, Open, Resident, Boots, NameRefused, FatOf, FileName, IsRun,
      Remembers, BlockOk;
    hide Fil.Covers, Abs, ValidGeometry, FileOnDisk, NoOnes, CountSaved, Content;
    served, codes, blocks, trace := [], [], [], [];
    ghost var img := disk.img;
    RootParts(geo, img, FatOf(geo, img), dchain, dsecs, m);
    var fp;
    ghost var h, m';
    res, fp, h, m' := OpenExisting(disk, work, id, fn, tm, geo, dchain, dsecs, chain, m, data);
    if fp == null { return; }
    ghost var started;
    served, codes, blocks, trace, started := ServeSessions(fp, id, fn, tm, sessions, h, m');
  }

  /** The file of this name has these bytes; a file that is not there has none. */
  ghost predicate Content(g: Geometry, img: seq<Sector>, dsecs: seq<nat>, fn: seq<byte>, chain: seq<nat>,
                          data: seq<byte>) {
    SecsInside(img, dsecs) &&
    if HasName(Slots(img, dsecs), fn)
    then forall k: nat | Maps(Slots(img, dsecs), fn, k) ::
      k / 16 < |dsecs| && FileOnDisk(g, img, dsecs[k / 16], k % 16 * 32, chain, data)
    else data == []
  }

  /** Clusters that are free on the empty volume. */
  function FreeClusters0(p: Plan): nat { if p.fmt == FAT32 && p.nClst > 0 then p.nClst - 1 else p.nClst }

  lemma FreshFree(img: seq<Sector>, p: Plan, bVol: nat)
    requires Formatted(img, p, bVol)
    ensures CountFree(FreshFat(p)) == FreeClusters0(p) && PlanGeometry(p, bVol).csize == p.pau
  {
    hide Formatted, Layout, NoOnes;
    FreshLayout(img, p, bVol);
    PlanFacts(img, p, bVol);
  }

  lemma RootParts(g: Geometry, vol: seq<Sector>, fat: seq<nat>, dchain: seq<nat>, dsecs: seq<nat>,
                  m: map<nat, seq<nat>>)
    requires RootOf(g, vol, fat, dchain, dsecs, m)
    ensures SecsInside(vol, dsecs)
  {
  }

  lemma Unnamed(g: Geometry, fat: seq<nat>, slots: seq<Slot>, fn: seq<byte>, dchain: seq<nat>, m: map<nat, seq<nat>>)
    requires !HasName(slots, fn)
    ensures NamedFile(g, fat, slots, fn, [], dchain, m)
  {
  }

  lemma EmptyState(fp: Fil, p: Plan)
    requires fp.Covers() && fp.objsize == 0 && fp.fptr == 0 && fp.chain == []
    ensures Abs(fp) == State([], 0, Times(CountFree(fp.fs.fat), fp.fs.geo.csize) * 512)
  {
  }
}
