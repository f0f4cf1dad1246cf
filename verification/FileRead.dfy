/** f_read: the direct multi-sector path and the buffered path. */
module FileRead {
  import opened FatTypes
  import opened DirEntry
  import opened FatAccess
  import opened ChainTheory
  import opened Chains
  import opened ClusterMap
  import opened FileBytes
  import opened FileMap
  import opened FileObject
  import opened FileWrite

  /** The cluster-boundary step of f_read: follow the chain. */
  method FollowCluster(fp: Fil) returns (res: FResult)
    requires fp.Sound() && fp.fptr % 512 == 0 && Csect(fp.fs.geo, fp.fptr) == 0 && fp.fptr < fp.objsize
    modifies fp`clust, fp.fs`winsect, fp.fs`wflag, fp.fs.win, fp.fs.disk`img
    ensures res == OK || (res == DiskErr && !fp.fs.disk.reliable)
    ensures res == OK ==> fp.Core() && Entered(fp, fp.chain)
    ensures res != OK ==> fp.Loose()
    ensures !old(fp.fs.wflag) ==> !fp.fs.wflag
  {
    hide Fil.BufOk, DirSafe, SecsAre, BodyMatches, Idx, Csect, FreeCountOk, NoOnes, Valid;
    BoundaryFacts(fp);
    GeoFacts(fp.fs);
    CoreLoose(fp);
    InsideChain(fp);
    var clst: dword;
    if fp.fptr == 0 {
      clst := fp.sclust;
    } else {
      ChainFacts(fp.fs.fat, fp.chain, Idx(fp.fs.geo, fp.fptr - 1));
      clst := GetFat(fp.fs, fp.clust);
      GeoFacts(fp.fs);
    }
    if clst < 2 { return IntErr; }
    if clst == ERR32 { return DiskErr; }
    fp.clust := clst;
    res := OK;
  }

  /** A cursor before the end of the file points into the chain. */
  lemma InsideChain(fp: Fil)
    requires fp.fs.geo.csize > 0 && |fp.chain| == Clusters(fp.fs.geo, fp.objsize) && fp.fptr < fp.objsize
    ensures Idx(fp.fs.geo, fp.fptr) < |fp.chain|
  {
    IdxMonotone(fp.fs.geo, fp.fptr, fp.objsize - 1);
  }

  /** The part of f_read before data moves: the sector of the cursor. */
  method LocateSector(fp: Fil) returns (res: FResult, sect: dword)
    requires fp.Sound() && fp.fptr % 512 == 0 && fp.fptr < fp.objsize
    modifies fp`clust, fp.fs`winsect, fp.fs`wflag, fp.fs.win, fp.fs.disk`img
    ensures res == OK || (res == DiskErr && !fp.fs.disk.reliable)
    ensures res != OK ==> fp.Loose()
    ensures res == OK ==>
      fp.Core() && Entered(fp, fp.chain) && fp.fptr / 512 < |fp.secs| &&
      sect == fp.secs[fp.fptr / 512]
    ensures res == OK ==>
      forall cnt: nat | Csect(fp.fs.geo, fp.fptr) + cnt <= fp.fs.geo.csize :: Contiguous(fp.secs, fp.fptr / 512, cnt)
    ensures !old(fp.fs.wflag) ==> !fp.fs.wflag
  {
    hide Fil.Loose, Valid, Fil.VolumeOk, Fil.BufOk, Fil.WindowOk, Chained, SecsAre, BodyMatches, Idx, Clusters, Csect,
      Contiguous;
    hide Bytes, Entered, FirstSector;
    sect := 0;
    SoundFacts(fp);
    var csect := Csect(fp.fs.geo, fp.fptr);
    if csect == 0 {
      res := FollowCluster(fp);
      if res != OK { return; }
    }
    EnteredSector(fp, fp.chain);
    sect := Clust2Sect(fp.fs.geo, fp.clust);
    if sect == 0 { res := IntErr; return; }
    sect := sect + csect;
    res := OK;
  }

  /** A run of the file's sectors is on the disk as it is in the volume. */
  lemma RunClean(fp: Fil, k: nat, cnt: nat)
    requires fp.Core() && cnt > 0 && k < |fp.secs| && Contiguous(fp.secs, k, cnt)
    ensures fp.fs.geo.database <= fp.secs[k] && fp.secs[k] + cnt <= |fp.fs.vol| == |fp.fs.disk.img|
    ensures forall s: nat | fp.secs[k] <= s < fp.secs[k] + cnt :: fp.fs.disk.img[s] == fp.fs.vol[s]
  {
    hide Fil.BufOk, Fil.WindowOk, BodyMatches, SecsAre, FreeCountOk, NoOnes, Contiguous;
    RunSafe(fp, k, cnt);
    GeoFacts(fp.fs);
    forall s: nat | fp.secs[k] <= s < fp.secs[k] + cnt ensures fp.fs.disk.img[s] == fp.fs.vol[s] {
      SectorClean(fp.fs, s);
    }
  }

  /** disk_read of a run of the file's sectors into the caller's buffer. */
  method FetchRun(fp: Fil, rbuff: array<byte>, at: nat, sect: dword, cc: nat, ghost k: nat)
    returns (res: FResult, ghost x: seq<byte>)
    requires fp.Core() && cc > 0 && at + cc * 512 <= rbuff.Length
    requires k < |fp.secs| && sect == fp.secs[k] && Contiguous(fp.secs, k, cc)
    modifies rbuff
    ensures res == OK || (res == DiskErr && !fp.fs.disk.reliable)
    ensures |x| == cc * 512 && rbuff[..] == Patch(old(rbuff[..]), at, x)
    ensures fp.fs.geo.database <= sect
    ensures res == OK ==> sect + cc <= |fp.fs.vol| && RawRun(fp.fs.vol, sect, cc, x)
  {
    hide Fil.Core, Contiguous;
    RunClean(fp, k, cc);
    var ok := fp.fs.disk.ReadRun(rbuff, at, sect, cc);
    x := rbuff[at..at + cc * 512];
    res := if ok then OK else DiskErr;
    assert rbuff[..] == Patch(old(rbuff[..]), at, x);
  }

  /** Sectors read directly into the caller's buffer; a dirty cached sector among them replaces its stale copy. */
  method ReadDirect(fp: Fil, rbuff: array<byte>, at: nat, sect: dword, cc: nat)
    returns (res: FResult, ghost y: seq<byte>)
    requires fp.Core() && cc > 0 && at + cc * 512 <= rbuff.Length && rbuff != fp.buf && rbuff != fp.fs.win
    requires fp.fptr / 512 < |fp.secs| && sect == fp.secs[fp.fptr / 512] && Contiguous(fp.secs, fp.fptr / 512, cc)
    modifies rbuff
    ensures res == OK || (res == DiskErr && !fp.fs.disk.reliable)
    ensures |y| == cc * 512 && rbuff[..] == Patch(old(rbuff[..]), at, y)
    ensures res == OK ==> RunRead(fp.body, fp.fptr / 512, cc, y)
  {
    hide Valid, FreeCountOk, NoOnes, Chained, SecsAre, BodyMatches, DirSafe, RunRead, Contiguous, Fil.WindowOk, Patch;
    ghost var k, buf, was := fp.fptr / 512, fp.buf[..], rbuff[..];
    GeoFacts(fp.fs);
    res, y := FetchRun(fp, rbuff, at, sect, cc, k);
    if res != OK { return; }
    ghost var x := y;
    if fp.dirty && Sub32(fp.sect, sect) < cc {
      var d := (fp.sect - sect) * 512;
      CopyBytes(rbuff, at + d, fp.buf[..]);
      PatchInner(was, at, x, d, buf);
      y := Patch(x, d, buf);
    }
    ReadMatches(fp.secs, fp.body, fp.fs.vol, fp.sect, buf, k, cc, x, y, fp.dirty);
  }

  /** Brings a sector of the file into the buffer. */
  method LoadSector(fp: Fil, sect: dword, ghost k: nat) returns (res: FResult)
    requires fp.Core() && k < |fp.secs| && sect == fp.secs[k]
    modifies fp`sect, fp`dirty, fp.buf, fp.fs`vol, fp.fs.disk`img
    ensures res == OK || (res == DiskErr && !fp.fs.disk.reliable)
    ensures res != OK ==> fp.Loose()
    ensures res == OK ==> fp.Core() && fp.sect == sect && Outside(fp.fs.geo, fp.secs, old(fp.fs.vol), fp.fs.vol)
    ensures !old(fp.dirty) && res == OK ==> fp.fs.vol == old(fp.fs.vol) && !fp.dirty
  {
    hide Fil.Loose, Valid, FreeCountOk, NoOnes, Chained, SecsAre, DirSafe, BodyMatches, Distinct;
    res := OK;
    if fp.sect != sect {
      CoreLoose(fp);
      res := FlushBuf(fp);
      if res != OK { return; }
      GeoFacts(fp.fs);
      SectorSafe(fp, k);
      SectorClean(fp.fs, sect);
      ghost var oldSect, oldBuf := fp.sect, fp.buf[..];
      var ok := fp.fs.disk.ReadSector(fp.buf, sect);
      if !ok { return DiskErr; }
      MatchLoad(fp.secs, fp.body, fp.fs.vol, oldSect, oldBuf, sect);
    }
    fp.sect := sect;
  }

  lemma BufferIs(fp: Fil, k: nat)
    requires fp.Core() && k < |fp.secs| && fp.sect == fp.secs[k]
    ensures k < |fp.body| && fp.body[k] == fp.buf[..]
  {
    hide Valid, FreeCountOk, NoOnes, Chained, SecsAre, DirSafe;
  }

  /** Moves the cursor over w bytes just read. */
  method Pass(fp: Fil, w: nat)
    requires fp.Core() && fp.Covers() && fp.Tight() && fp.fptr + w <= fp.objsize && 0 < w && Entered(fp, fp.chain)
    requires Idx(fp.fs.geo, fp.fptr + w - 1) == Idx(fp.fs.geo, fp.fptr)
    requires (fp.fptr + w) % 512 != 0 ==>
      fp.fptr / 512 == (fp.fptr + w) / 512 && fp.fptr / 512 < |fp.secs| && fp.sect == fp.secs[fp.fptr / 512]
    modifies fp`fptr
    ensures fp.Sound() && fp.fptr == old(fp.fptr) + w
  {
    hide Fil.VolumeOk, Fil.BufOk, Fil.WindowOk, Chained, SecsAre, BodyMatches, Idx, Clusters;
    fp.fptr := fp.fptr + w;
  }

  /** n bytes of d from p on were put at at into a buffer that held was. */
  ghost predicate Delivered(d: seq<byte>, now: seq<byte>, was: seq<byte>, at: nat, p: nat, n: nat) {
    p + n <= |d| && at + n <= |was| && now == Patch(was, at, d[p..p + n])
  }

  /** Whole sectors, as many as the cluster has left. */
  method ReadSectors(fp: Fil, rbuff: array<byte>, at: nat, btr: nat, sect: dword) returns (res: FResult, rcnt: nat)
    requires fp.Core() && fp.Covers() && fp.Tight() && Entered(fp, fp.chain) && fp.fptr % 512 == 0 && btr >= 512
    requires fp.fptr / 512 < |fp.secs| && sect == fp.secs[fp.fptr / 512] && fp.fptr + btr <= fp.objsize
    requires forall cnt: nat | Csect(fp.fs.geo, fp.fptr) + cnt <= fp.fs.geo.csize ::
      Contiguous(fp.secs, fp.fptr / 512, cnt)
    requires at + btr <= rbuff.Length && rbuff != fp.buf && rbuff != fp.fs.win
    modifies rbuff, fp`fptr
    ensures res == OK || (res == DiskErr && !fp.fs.disk.reliable)
    ensures res == OK ==> fp.Sound() && 0 < rcnt <= btr && fp.fptr == old(fp.fptr) + rcnt
    ensures res == OK ==> Delivered(fp.Data(), rbuff[..], old(rbuff[..]), at, old(fp.fptr), rcnt)
  {
    hide Fil.VolumeOk, Fil.BufOk, Fil.WindowOk, Chained, SecsAre, BodyMatches, Idx, Clusters, Csect, Contiguous;
    hide RunRead, Bytes, Patch;
    var csect := Csect(fp.fs.geo, fp.fptr);
    var cc := btr / 512;
    if csect + cc > fp.fs.geo.csize { cc := fp.fs.geo.csize - csect; }
    rcnt := cc * 512;
    ghost var y;
    res, y := ReadDirect(fp, rbuff, at, sect, cc);
    if res != OK { return; }
    RunFits(fp.body, fp.fptr / 512, cc, y);
    BytesRun(fp.body, fp.objsize, fp.fptr / 512, cc, y);
    SameCluster(fp.fs.geo, fp.fptr, rcnt);
    Pass(fp, rcnt);
  }

  lemma RunFits(body: seq<Sector>, k: nat, cnt: nat, x: seq<byte>)
    requires RunRead(body, k, cnt, x)
    ensures k + cnt <= |body| && |x| == cnt * 512
  {
  }

  /** At most one sector, through the buffer. */
  method ReadBytes(fp: Fil, rbuff: array<byte>, at: nat, btr: nat) returns (rcnt: nat)
    requires fp.Core() && fp.Covers() && fp.Tight() && Entered(fp, fp.chain) && btr > 0
    requires fp.fptr / 512 < |fp.secs| && fp.sect == fp.secs[fp.fptr / 512] && fp.fptr + btr <= fp.objsize
    requires at + btr <= rbuff.Length && rbuff != fp.buf && rbuff != fp.fs.win
    modifies rbuff, fp`fptr
    ensures fp.Sound() && 0 < rcnt <= btr && fp.fptr == old(fp.fptr) + rcnt
    ensures Delivered(fp.Data(), rbuff[..], old(rbuff[..]), at, old(fp.fptr), rcnt)
  {
    hide Valid, FreeCountOk, NoOnes, DirSafe, Chained, SecsAre, BodyMatches, Idx, Clusters, Bytes, Patch,
      Fil.WindowOk;
    var o := fp.fptr % 512;
    rcnt := 512 - o;
    if rcnt > btr { rcnt := btr; }
    BufferIs(fp, fp.fptr / 512);
    BytesWithin(fp.body, fp.objsize, fp.fptr, rcnt);
    CopyBytes(rbuff, at, fp.buf[o..o + rcnt]);
    SameCluster(fp.fs.geo, fp.fptr, rcnt);
    Pass(fp, rcnt);
  }

  /** One pass of the f_read loop. */
  method ReadStep(fp: Fil, rbuff: array<byte>, at: nat, btr: nat) returns (res: FResult, rcnt: nat)
    requires fp.Sound() && btr > 0 && fp.fptr + btr <= fp.objsize
    requires at + btr <= rbuff.Length && rbuff != fp.buf && rbuff != fp.fs.win
    modifies rbuff, fp`fptr, fp`clust, fp`sect, fp`dirty, fp.buf
    modifies fp.fs`winsect, fp.fs`wflag, fp.fs`vol, fp.fs.win, fp.fs.disk`img
    ensures res == OK || (res == DiskErr && !fp.fs.disk.reliable)
    ensures res == OK ==> fp.Sound() && 0 < rcnt <= btr && fp.fptr == old(fp.fptr) + rcnt
    ensures res != OK ==> fp.Loose()
    ensures res == OK ==> Delivered(fp.Data(), rbuff[..], old(rbuff[..]), at, old(fp.fptr), rcnt)
    ensures res == OK ==> Outside(fp.fs.geo, fp.secs, old(fp.fs.vol), fp.fs.vol)
    ensures res == OK && !old(fp.dirty) ==>
      fp.fs.vol == old(fp.fs.vol) && !fp.dirty && (!old(fp.fs.wflag) ==> !fp.fs.wflag)
  {
    hide Fil.Loose, Valid, Fil.VolumeOk, Fil.BufOk, Fil.WindowOk, Chained, SecsAre, BodyMatches, Idx, Clusters, Csect,
      Contiguous, Bytes, Patch, Entered;
    SoundFacts(fp);
    rcnt := 0;
    if fp.fptr % 512 == 0 {
      var sect;
      res, sect := LocateSector(fp);
      if res != OK { return; }
      if btr / 512 > 0 {
        CoreValid(fp);
        res, rcnt := ReadSectors(fp, rbuff, at, btr, sect);
        return;
      }
      res := LoadSector(fp, sect, fp.fptr / 512);
      if res != OK { return; }
    }
    rcnt := ReadBytes(fp, rbuff, at, btr);
    res := OK;
  }

  /** The loop of f_read. */
  method ReadLoop(fp: Fil, rbuff: array<byte>, btr: nat) returns (res: FResult, br: nat)
    requires fp.Sound() && fp.fptr + btr <= fp.objsize
    requires btr <= rbuff.Length && rbuff != fp.buf && rbuff != fp.fs.win
    modifies rbuff, fp`fptr, fp`clust, fp`sect, fp`dirty, fp.buf
    modifies fp.fs`winsect, fp.fs`wflag, fp.fs`vol, fp.fs.win, fp.fs.disk`img
    ensures res == OK || (res == DiskErr && !fp.fs.disk.reliable)
    ensures res != OK ==> fp.Loose()
    ensures res == OK ==> fp.Sound() && br == btr && fp.fptr == old(fp.fptr) + btr
    ensures res == OK ==> rbuff[..] == Patch(old(rbuff[..]), 0, fp.Data()[old(fp.fptr)..old(fp.fptr) + btr])
    ensures res == OK ==> Outside(fp.fs.geo, fp.secs, old(fp.fs.vol), fp.fs.vol)
    ensures res == OK && !old(fp.dirty) ==>
      fp.fs.vol == old(fp.fs.vol) && !fp.dirty && (!old(fp.fs.wflag) ==> !fp.fs.wflag)
  {
    hide Fil.Loose, Valid, Fil.VolumeOk, Fil.BufOk, Fil.WindowOk, Chained, SecsAre, BodyMatches, Idx, Clusters, Bytes,
      Patch;
    ghost var data, p, was := fp.Data(), fp.fptr, rbuff[..];
    res, br := OK, 0;
    PatchNothing(was);
    assert data[p..p + 0] == [];
    while br < btr
      invariant res == OK && br <= btr && fp.fptr == p + br && fp.Sound()
      invariant rbuff[..] == Patch(was, 0, data[p..p + br])
      invariant Outside(fp.fs.geo, fp.secs, old(fp.fs.vol), fp.fs.vol)
      invariant !old(fp.dirty) ==> fp.fs.vol == old(fp.fs.vol) && !fp.dirty && (!old(fp.fs.wflag) ==> !fp.fs.wflag)
      decreases btr - br
    {
      var rcnt;
      res, rcnt := ReadStep(fp, rbuff, br, btr - br);
      if res != OK { return; }
      PatchTwice(was, 0, data[p..p + br], data[p + br..p + br + rcnt]);
      assert data[p..p + br] + data[p + br..p + br + rcnt] == data[p..p + br + rcnt];
      br := br + rcnt;
    }
  }

  lemma PatchNothing(s: seq<byte>)
    ensures Patch(s, 0, []) == s
  {
  }

  /**
    f_read. On success it delivers min(btr, bytes left) bytes, exactly the content at the cursor, and
    leaves the rest of the caller's buffer and the content alone.
  */
  method Read(fp: Fil, rbuff: array<byte>, btr: nat) returns (res: FResult, br: nat)
    requires fp.err == OK ==> fp.Sound()
    requires btr <= rbuff.Length && rbuff != fp.buf && rbuff != fp.fs.win
    modifies rbuff, fp`fptr, fp`clust, fp`sect, fp`dirty, fp`err, fp.buf
    modifies fp.fs`winsect, fp.fs`wflag, fp.fs`vol, fp.fs.win, fp.fs.disk`img
    ensures fp.fs.disk.reliable && fp.id == fp.fs.id && old(fp.err) == OK && fp.canRead ==> res == OK
    ensures res == OK ==> fp.id == fp.fs.id && old(fp.err) == OK && fp.canRead
    ensures res == OK ==> fp.Sound() && fp.err == OK
    ensures res == OK && old(fp.modified || fp.Synced()) ==> fp.Good()
    ensures res == OK ==> old(fp.fptr) <= fp.objsize
    ensures res == OK ==> br == (if btr > fp.objsize - old(fp.fptr) then fp.objsize - old(fp.fptr) else btr)
    ensures res == OK ==> fp.fptr == old(fp.fptr) + br
    ensures res == OK ==> rbuff[..] == Patch(old(rbuff[..]), 0, fp.Data()[old(fp.fptr)..old(fp.fptr) + br])
    ensures res == OK ==> Outside(fp.fs.geo, fp.secs, old(fp.fs.vol), fp.fs.vol)
    ensures res != OK && (old(fp.err) != OK || !fp.canRead) ==> br == 0 && fp.err == old(fp.err)
    ensures Aborted(old(fp.err), fp.err, res)
    ensures old(fp.err) == OK ==> fp.Loose() && (res != OK ==> Interrupted(fp))
  {
    hide Fil.Loose, Fil.Threaded, Valid, Fil.VolumeOk, Fil.BufOk, Fil.WindowOk, Chained, SecsAre, BodyMatches, Idx,
      Clusters, Bytes, Patch, EntryIs;
    br := 0;
    if fp.err == OK {
      CoreValid(fp);
      CoreThreaded(fp);
    }
    res := Validate(fp);
    if res != OK { return; }
    if fp.err != OK { return fp.err, 0; }
    if !fp.canRead { return Denied, 0; }
    var remain := fp.objsize - fp.fptr;
    res, br := ReadLoop(fp, rbuff, if btr > remain then remain else btr);
    if res != OK { fp.err := res; } else { CoreValid(fp); }
  }
}
