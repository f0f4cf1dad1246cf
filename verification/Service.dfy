/** The storage service task: mounting, the open block file, requests and their answers. */
module Service {
  import opened FatTypes
  import opened FileLocks
  import BlockStore

  type Code = BlockStore.Code

  datatype Command = ReadBlock | WriteBlock | GetStatus | Unknown

  /** A request taken from the queue; active says whether anybody still waits for its promise. */
  datatype Request = Request(active: bool, command: Command, blockId: dword, data: seq<byte>, length: dword)

  /** What a handler can answer. */
  type Handled = c: Code | c == BlockStore.Ok || c == BlockStore.InvalidBlock ||
    c == BlockStore.IoFailure witness BlockStore.Ok

  /**
    What happens to the volume if a round tries to mount and open: the outcomes of f_mount, f_mkfs and
    the second f_mount; whether the drive is lost before f_open and found again by it; whether f_open
    fails on path, directory or disk; whether the file existed, and where its entry is.
  */
  datatype Attempt = Attempt(mount: FResult, made: bool, again: FResult, lost: bool, found: bool, failed: bool,
                             present: bool, clu: dword, ofs: dword)

  /** Whether the attempt ends with a mounted volume: a disk without a file system is formatted once. */
  predicate Mounts(a: Attempt) { a.mount == OK || (a.mount == NoFilesystem && a.made && a.again == OK) }

  /** Whether the block file opens then. A lock is never the reason that it does not. */
  predicate Opens(a: Attempt) { (!a.lost || a.found) && !a.failed }

  /** One round of the service task: the queue was empty, or a request arrived, with the outcome of its handler. */
  datatype Event = Idle(a: Attempt) | Arrived(a: Attempt, r: Request, h: Handled)

  /** The promise of a request is fulfilled or dropped with an error code. */
  datatype Answer = Fulfilled | Dropped(code: Code)

  /** The flags of the service task; published is what storageServiceIsReady tells the other tasks. */
  datatype Flags = Flags(volumeReady: bool, mounted: bool, fileOpen: bool, published: bool)

  /** A volume that is ready is mounted and has its file open. */
  predicate Consistent(f: Flags) { f.volumeReady ==> f.mounted && f.fileOpen }

  /** The answer a request must get in a volume that is ready or not. handled is the code of its handler. */
  function AnswerFor(r: Request, ready: bool, handled: Code): Answer {
    if !r.active then Dropped(BlockStore.Cancelled)
    else if !ready then Dropped(BlockStore.NotReady)
    else if r.command == GetStatus then Fulfilled
    else if r.command == Unknown then Dropped(BlockStore.InvalidBlock)
    else if handled == BlockStore.Ok then Fulfilled
    else Dropped(handled)
  }

  /** Whether the volume still counts as ready afterwards: only an I/O failure changes that. */
  function ReadyAfter(r: Request, ready: bool, handled: Code): bool {
    ready && !(r.active && (r.command == ReadBlock || r.command == WriteBlock) && handled == BlockStore.IoFailure)
  }

  /** A command that has a handler. */
  predicate Handles(c: Command) { c == ReadBlock || c == WriteBlock }

  /** The meanings of the codes leave exactly one answer and one new readiness. */
  lemma OnlyAnswer(r: Request, was: bool, handled: Handled, a: Answer, ready: bool)
    requires (a == Dropped(BlockStore.Cancelled) <==> !r.active) &&
      (a == Dropped(BlockStore.NotReady) <==> r.active && !was)
    requires (a == Dropped(BlockStore.IoFailure) <==> was && !ready) && a != Dropped(BlockStore.Ok) && (ready ==> was)
    requires a == Dropped(BlockStore.IoFailure) ==> Handles(r.command) && handled == BlockStore.IoFailure
    requires a == Fulfilled ==> (Handles(r.command) ==> handled == BlockStore.Ok) && r.command != Unknown
    requires a == Dropped(BlockStore.InvalidBlock) ==>
      r.command == Unknown || (Handles(r.command) && handled == BlockStore.InvalidBlock)
    ensures a == AnswerFor(r, was, handled) && ready == ReadyAfter(r, was, handled)
  {
    match a
    case Fulfilled =>
    case Dropped(code) =>
      match code
      case Ok => assert false;
      case NotReady =>
      case IoFailure =>
      case InvalidBlock =>
      case Cancelled =>
  }

  /** A file object: None when it is not valid. */
  datatype File = Invalid | OpenAs(h: Handle)

  /** The flags after an attempt to mount and open. */
  function Probed(f: Flags, mountOk: bool, openOk: bool): Flags {
    if f.volumeReady then f
    else if !mountOk then f
    else f.(volumeReady := openOk, mounted := true, fileOpen := openOk)
  }

  /** Exactly when an attempt clears fileOpen: it was set, the mount worked and the open did not. */
  lemma FileOpenKept(f: Flags, mountOk: bool, openOk: bool)
    ensures f.fileOpen && !Probed(f, mountOk, openOk).fileOpen <==> f.fileOpen && !f.volumeReady && mountOk && !openOk
    ensures f.mounted ==> Probed(f, mountOk, openOk).mounted
    ensures Consistent(f) ==> Consistent(Probed(f, mountOk, openOk))
  {
  }

  /** Readiness when the request of a round, if there is one, is served. */
  function ReadyFor(f: Flags, e: Event): bool { Probed(f, Mounts(e.a), Opens(e.a)).volumeReady }

  /** The flags after a round. */
  function After(f: Flags, e: Event): (g: Flags)
    ensures Consistent(f) ==> Consistent(g)
    ensures f.mounted ==> g.mounted
    ensures g.published == g.volumeReady
  {
    var ready := if e.Idle? then ReadyFor(f, e) else ReadyAfter(e.r, ReadyFor(f, e), e.h);
    Probed(f, Mounts(e.a), Opens(e.a)).(volumeReady := ready, published := ready)
  }

  function AnswersOf(f: Flags, e: Event): seq<Answer> {
    if e.Idle? then [] else [AnswerFor(e.r, ReadyFor(f, e), e.h)]
  }

  /** The flags after any sequence of rounds. */
  function AfterAll(f: Flags, events: seq<Event>): Flags {
    if events == [] then f else After(AfterAll(f, events[..|events| - 1]), events[|events| - 1])
  }

  /** The answers given meanwhile. */
  function AllAnswers(f: Flags, events: seq<Event>): seq<Answer> {
    if events == [] then []
    else AllAnswers(f, events[..|events| - 1]) + AnswersOf(AfterAll(f, events[..|events| - 1]), events[|events| - 1])
  }

  /**
    Recovery: whatever happened before, a request that finds a disk that mounts and a file that opens
    is handled, and the volume stays ready unless the handler meets an I/O failure.
  */
  lemma Recovers(f: Flags, events: seq<Event>, e: Event)
    requires e.Arrived? && e.r.active && Mounts(e.a) && Opens(e.a)
    ensures AllAnswers(f, events + [e]) == AllAnswers(f, events) + [AnswerFor(e.r, true, e.h)]
    ensures e.h != BlockStore.IoFailure ==> AfterAll(f, events + [e]).published
  {
    assert (events + [e])[..|events|] == events;
  }

  /**
    mounted is never reset, but fileOpen is: from the start, a mount that opens the file, a read that
    meets an I/O failure, and a mount that does not open it.
  */
  lemma FileOpenDrops(good: Attempt, bad: Attempt, r: Request)
    requires Mounts(good) && Opens(good) && Mounts(bad) && !Opens(bad) && r.active && Handles(r.command)
    ensures var run := [Idle(good), Arrived(good, r, BlockStore.IoFailure), Idle(bad)];
      && AfterAll(Start(), run[..2]) == Flags(false, true, true, false)
      && AfterAll(Start(), run) == Flags(false, true, false, false)
  {
    var run := [Idle(good), Arrived(good, r, BlockStore.IoFailure), Idle(bad)];
    assert run[..2][..1] == [Idle(good)] && run[..2][1] == run[1] && run[..3] == run && [Idle(good)][..0] == [];
    assert AfterAll(Start(), [Idle(good)]) == After(Start(), Idle(good));
    assert AfterAll(Start(), run[..2]) == After(After(Start(), Idle(good)), run[1]);
  }

  function Start(): Flags { Flags(false, false, false, false) }

  class Task {
    const locks: LockTable
    var flags: Flags
    var file: File

    constructor ()
      ensures Inv() && flags == Start() && locks.fsid == 0
      ensures fresh(locks) && fresh(locks.files)
    {
      locks := new LockTable(1);
      flags, file := Start(), Invalid;
    }

    /** The only entry in the lock table is that of the service's file, and a ready volume has it. */
    ghost predicate Inv()
      reads this, locks, locks.files
    {
      Sound() && flags.published == flags.volumeReady
    }

    /** mountVolume: mounts, formatting a disk without a file system once. */
    method MountVolume(a: Attempt) returns (ok: bool)
      requires locks.Inv() && locks.fsid < 0xFFFE
      modifies locks, locks.files
      ensures ok == Mounts(a)
      ensures locks.Inv() && locks.live == multiset{} && old(locks.fsid) <= locks.fsid <= old(locks.fsid) + 2
      ensures locks.mounted ==> locks.id > old(locks.fsid)
      ensures ok ==> locks.mounted
      ensures !Full(locks.files[..]) && forall key :: !IsOpen(locks.files[..], key)
    {
      hide TableInv, Full, IsOpen;
      var result := a.mount;
      locks.Remount(result == OK);
      if result == NoFilesystem {
        if !a.made { return false; }
        result := a.again;
        locks.Remount(result == OK);
      }
      ok := result == OK;
    }

    /** openBlockFile on a volume just mounted: whatever goes wrong, it is not a lock. */
    method OpenBlockFile(a: Attempt) returns (res: FResult)
      requires locks.Inv() && locks.fs == 1 && locks.mounted && locks.live == multiset{} && locks.fsid < 0xFFFF
      requires !Full(locks.files[..]) && forall key :: !IsOpen(locks.files[..], key)
      modifies this`file, locks, locks.files
      ensures locks.Inv() && (res == OK <==> Opens(a)) && res != Locked && res != TooManyOpenFiles
      ensures old(locks.fsid) <= locks.fsid <= old(locks.fsid) + 1
      ensures res == OK ==>
        locks.mounted && file.OpenAs? && file.h.id == locks.id <= locks.fsid &&
        locks.live == multiset{file.h}
      ensures res == OK ==> file.h.write && file.h.key == Key(1, a.clu, a.ofs)
      ensures res != OK ==> file == Invalid && locks.live == multiset{}
    {
      hide TableInv, Full, IsOpen, HasWriter;
      file := Invalid;
      if a.lost {
        // f_open finds the drive re-initialised and mounts again
        locks.Remount(a.found);
        if !a.found { return DiskErr; }
      }
      if a.failed { return DiskErr; }
      var key := Key(1, a.clu, a.ofs);
      NobodyThere(locks.files[..], key);
      var h;
      res, h := locks.Open(key, true, a.present);
      if res == OK { file := OpenAs(h); }
    }

    lemma NobodyThere(s: seq<LockEntry>, key: Key)
      requires !IsOpen(s, key)
      ensures FewReaders(s, key) && !HasWriter(s, key)
    {
    }

    /** Inv before the state is published. */
    ghost predicate Sound()
      reads this, locks, locks.files
    {
      && locks.Inv() && locks.fs == 1 && Consistent(flags)
      && locks.live == (if file.OpenAs? && locks.mounted && file.h.id == locks.id then multiset{file.h} else multiset{})
      && (file.OpenAs? ==> file.h.id <= locks.fsid)
      && (flags.volumeReady ==> locks.mounted && file.OpenAs? && file.h.id == locks.id)
    }
  
    /** The attempt to get the volume ready, made when idle and when a request arrives. */
    method Probe(a: Attempt)
      requires Sound() && locks.fsid < 0xFFFD
      modifies this, locks, locks.files
      ensures Sound() && locks.fsid <= old(locks.fsid) + 3
      ensures flags == Probed(old(flags), Mounts(a), Opens(a))
    {
      hide TableInv, Full, IsOpen;
      if !flags.volumeReady {
        var ready := MountVolume(a);
        if ready {
          flags := flags.(mounted := true);
          var res := OpenBlockFile(a);
          ready := res == OK;
          flags := flags.(fileOpen := ready);
        }
        flags := flags.(volumeReady := ready);
      }
    }

    /**
      serviceRequest. What its answer tells: each code has one cause, and the volume stops being ready
      exactly if the requester is told of an I/O failure. handled is what the handler returns.
    */
    method ServiceRequest(r: Request, handled: Handled) returns (a: Answer, ready: bool)
      ensures a == Dropped(BlockStore.Cancelled) <==> !r.active
      ensures a == Dropped(BlockStore.NotReady) <==> r.active && !flags.volumeReady
      ensures a == Dropped(BlockStore.IoFailure) <==> flags.volumeReady && !ready
      ensures a == Dropped(BlockStore.IoFailure) ==> Handles(r.command) && handled == BlockStore.IoFailure
      ensures a == Fulfilled ==>
        r.active && ready && (Handles(r.command) ==> handled == BlockStore.Ok) &&
        r.command != Unknown
      ensures a == Dropped(BlockStore.InvalidBlock) ==>
        r.active && ready && (r.command == Unknown || (Handles(r.command) && handled == BlockStore.InvalidBlock))
      ensures ready ==> flags.volumeReady
      ensures a != Dropped(BlockStore.Ok)
    {
      if !r.active { return Dropped(BlockStore.Cancelled), flags.volumeReady; }
      if !flags.volumeReady { return Dropped(BlockStore.NotReady), flags.volumeReady; }
      var code: Code;
      match r.command {
        case ReadBlock | WriteBlock => code := handled;
        case GetStatus => code := BlockStore.Ok;
        case Unknown => code := BlockStore.InvalidBlock;
      }
      a := if code == BlockStore.Ok then Fulfilled else Dropped(code);
      ready := code != BlockStore.IoFailure;
    }

    /** The end of a round: the new readiness, and its publication. */
    method Publish(ready: bool)
      requires Sound() && (ready ==> flags.volumeReady)
      modifies this`flags
      ensures Inv() && flags == old(flags).(volumeReady := ready, published := ready)
    {
      hide TableInv;
      flags := flags.(volumeReady := ready);
      flags := flags.(published := ready);
    }

    /** One round of the service loop. */
    method Round(e: Event) returns (answers: seq<Answer>)
      requires Inv() && locks.fsid < 0xFFFD
      modifies this, locks, locks.files
      ensures Inv() && locks.fsid <= old(locks.fsid) + 3
      ensures flags == After(old(flags), e) && answers == AnswersOf(old(flags), e)
    {
      hide Sound, TableInv, Mounts, Opens;
      answers := [];
      if e.Idle? {
        if !flags.volumeReady {
          Probe(e.a);
          Publish(flags.volumeReady);
        }
        return;
      }
      if !flags.volumeReady { Probe(e.a); }
      var a, still := ServiceRequest(e.r, e.h);
      OnlyAnswer(e.r, flags.volumeReady, e.h, a, still);
      answers := [a];
      Publish(still);
    }

    /** The end of the service task: closes the file and detaches the volume. */
    method Stop(synced: bool)
      requires Inv() && locks.fsid < 0xFFFF
      modifies locks, locks.files
      ensures locks.Inv() && (flags.mounted ==> locks.live == multiset{} && !locks.mounted)
    {
      hide TableInv, Full, IsOpen;
      if flags.fileOpen && file.OpenAs? {
        if synced { var ignored := locks.Close(file.h); }
      }
      if flags.mounted { locks.Remount(false); }
    }
  }

  /** The requests among the events, in order. */
  function Requests(events: seq<Event>): seq<Request> {
    if events == [] then []
    else Requests(events[..|events| - 1]) + if events[|events| - 1].Arrived? then [events[|events| - 1].r] else []
  }

  /** a is the answer r gets in some state of the volume, from some outcome of its handler. */
  ghost predicate Justified(a: Answer, r: Request) {
    exists ready, handled: Handled :: a == AnswerFor(r, ready, handled)
  }

  /** Cancelled is told exactly when nobody waits; a status request is only ever fulfilled or not ready. */
  lemma JustifiedMeans(a: Answer, r: Request)
    requires Justified(a, r)
    ensures a == Dropped(BlockStore.Cancelled) <==> !r.active
    ensures r.active && r.command == GetStatus ==> a == Fulfilled || a == Dropped(BlockStore.NotReady)
    ensures r.active && r.command == Unknown ==> a != Fulfilled
  {
  }

  /** Every request gets exactly one answer, in order, and nobody else does. */
  lemma {:induction false} AnswersJustified(f: Flags, events: seq<Event>)
    ensures |AllAnswers(f, events)| == |Requests(events)|
    ensures forall k | 0 <= k < |Requests(events)| :: Justified(AllAnswers(f, events)[k], Requests(events)[k])
  {
    hide Justified;
    if events != [] {
      var before, e := events[..|events| - 1], events[|events| - 1];
      AnswersJustified(f, before);
      if e.Arrived? { Justify(e.r, ReadyFor(AfterAll(f, before), e), e.h); }
    }
  }

  lemma Justify(r: Request, ready: bool, handled: Handled)
    ensures Justified(AnswerFor(r, ready, handled), r)
  {
  }

  /** Over any run a ready volume is mounted with its file open, what is published is the truth, and mounted is never
      reset. */
  lemma {:induction false} FlagsOverRuns(f: Flags, events: seq<Event>)
    requires Consistent(f) && f.published == f.volumeReady
    ensures Consistent(AfterAll(f, events)) && AfterAll(f, events).published == AfterAll(f, events).volumeReady
    ensures f.mounted ==> AfterAll(f, events).mounted
  {
    if events != [] { FlagsOverRuns(f, events[..|events| - 1]); }
  }

  /**
    The task over any sequence of events and any failures, up to the wrap of the mount ID: its answers
    and flags are those of the specification above, and the lock table stays exact.
  */
  method Run(t: Task, events: seq<Event>) returns (answers: seq<Answer>)
    requires t.Inv() && t.locks.fsid + 3 * |events| < 0xFFFD
    modifies t, t.locks, t.locks.files
    ensures t.Inv() && t.flags == AfterAll(old(t.flags), events) && answers == AllAnswers(old(t.flags), events)
  {
    hide TableInv, After, AnswersOf;
    answers := [];
    var i := 0;
    assert events[..0] == [];
    while i < |events|
      invariant i <= |events| && t.Inv()
      invariant t.flags == AfterAll(old(t.flags), events[..i]) && answers == AllAnswers(old(t.flags), events[..i])
      invariant t.locks.fsid <= old(t.locks.fsid) + 3 * i
    {
      assert events[..i + 1][..i] == events[..i];
      var a := t.Round(events[i]);
      answers := answers + a;
      i := i + 1;
    }
    assert events[..i] == events;
  }
}
