/** The table of open files: chk_lock, enq_lock, inc_lock, dec_lock, clear_lock and the mount ID check. */
module FileLocks {
  import opened FatTypes

  /** A file is identified by its volume object (0: none) and the place of its directory entry. */
  datatype Key = Key(fs: nat, clu: dword, ofs: dword)

  /** ctr counts readers; WRITER marks a file open for writing. */
  datatype LockEntry = LockEntry(key: Key, ctr: nat)

  const FS_LOCK: nat := 4
  const WRITER: nat := 0x100

  /** What an open file object keeps: its lock index, the mount ID at open, and its access. */
  datatype Handle = Handle(lockid: nat, id: nat, key: Key, write: bool)

  predicate Used(e: LockEntry) { e.key.fs != 0 }

  /** A slot that is in use tells exactly which handles are open on it. */
  ghost predicate SlotOk(e: LockEntry, i: nat, live: multiset<Handle>, id: nat, fs: nat) {
    Used(e) ==>
      var readers, writers := live[Handle(i + 1, id, e.key, false)], live[Handle(i + 1, id, e.key, true)];
      && e.key.fs == fs
      && if e.ctr == WRITER then writers == 1 && readers == 0 else writers == 0 && 1 <= readers == e.ctr < WRITER
  }

  /** h is a handle of the current mount and its slot is in use for its file. */
  ghost predicate HandleOk(s: seq<LockEntry>, id: nat, h: Handle) {
    h.id == id && 1 <= h.lockid <= |s| && Used(s[h.lockid - 1]) && s[h.lockid - 1].key == h.key
  }

  /** One entry per open file, every open handle has one, and the entries are exact. */
  ghost predicate TableInv(s: seq<LockEntry>, live: multiset<Handle>, id: nat, fs: nat) {
    && |s| == FS_LOCK && fs != 0
    && (forall i: nat | i < |s| :: SlotOk(s[i], i, live, id, fs))
    && (forall i: nat, j: nat | i < j < |s| && Used(s[i]) && Used(s[j]) :: s[i].key != s[j].key)
    && (forall h | h in live :: HandleOk(s, id, h))
  }

  /** A writer has its file to itself. */
  lemma WriterExclusive(s: seq<LockEntry>, live: multiset<Handle>, id: nat, fs: nat, h: Handle, g: Handle)
    requires TableInv(s, live, id, fs) && h in live && g in live && h.key == g.key && h.write
    ensures g == h && live[h] == 1
  {
    assert HandleOk(s, id, h) && HandleOk(s, id, g);
    assert SlotOk(s[h.lockid - 1], h.lockid - 1, live, id, fs);
    assert g == Handle(h.lockid, id, h.key, g.write);
  }

  lemma Shape(s: seq<LockEntry>, live: multiset<Handle>, id: nat, fs: nat)
    requires TableInv(s, live, id, fs)
    ensures |s| == FS_LOCK && fs != 0
    ensures forall i: nat | i < |s| && Used(s[i]) :: s[i].key.fs == fs
    ensures forall h | h in live :: 1 <= h.lockid <= FS_LOCK
  {
    forall i: nat | i < |s| && Used(s[i]) ensures s[i].key.fs == fs { assert SlotOk(s[i], i, live, id, fs); }
    forall h | h in live ensures 1 <= h.lockid <= FS_LOCK { assert HandleOk(s, id, h); }
  }

  /** Nothing open, nothing registered. */
  lemma EmptyTable(s: seq<LockEntry>, id: nat, fs: nat)
    requires |s| == FS_LOCK && fs != 0 && forall i: nat | i < |s| :: !Used(s[i])
    ensures TableInv(s, multiset{}, id, fs) && !Full(s) && forall key :: !IsOpen(s, key)
  {
    assert !Used(s[0]);
  }

  predicate Holds(e: LockEntry, key: Key) { Used(e) && e.key == key }

  /** The entry after one more open. */
  function Opened(e: LockEntry, key: Key, write: bool): LockEntry {
    LockEntry(key, if write then WRITER else if Used(e) then e.ctr + 1 else 1)
  }

  lemma Register(s: seq<LockEntry>, live: multiset<Handle>, id: nat, fs: nat, i: nat, key: Key, write: bool)
    requires TableInv(s, live, id, fs) && i < |s| && key.fs == fs
    requires if Used(s[i]) then s[i].key == key && !write && s[i].ctr < WRITER - 1 else forall j: nat | j < |s| ::
      !Holds(s[j], key)
    ensures TableInv(s[i := Opened(s[i], key, write)], live + multiset{Handle(i + 1, id, key, write)}, id, fs)
  {
    var e, h := Opened(s[i], key, write), Handle(i + 1, id, key, write);
    var live' := live + multiset{h};
    assert SlotOk(s[i], i, live, id, fs);
    if !Used(s[i]) {
      assert !HandleOk(s, id, Handle(i + 1, id, key, false)) && !HandleOk(s, id, Handle(i + 1, id, key, true));
    }
    assert SlotOk(e, i, live', id, fs);
    forall j: nat | j < |s| && j != i ensures SlotOk(s[j], j, live', id, fs) { assert SlotOk(s[j], j, live, id, fs); }
    forall g | g in live' ensures HandleOk(s[i := e], id, g) {
      if g != h { assert HandleOk(s, id, g); }
    }
  }

  /** Exactly when one more reader is counted correctly: the 256th would be taken for a writer. */
  lemma ReaderLimit(s: seq<LockEntry>, live: multiset<Handle>, id: nat, fs: nat, i: nat, key: Key)
    requires TableInv(s, live, id, fs) && i < |s| && Holds(s[i], key) && s[i].ctr != WRITER
    ensures TableInv(s[i := Opened(s[i], key, false)], live + multiset{Handle(i + 1, id, key, false)}, id, fs) <==>
      s[i].ctr < WRITER - 1
  {
    assert SlotOk(s[i], i, live, id, fs);
    if s[i].ctr < WRITER - 1 {
      Register(s, live, id, fs, i, key, false);
    } else {
      var h := Handle(i + 1, id, key, false);
      assert (live + multiset{h})[h] > 0;
      assert !SlotOk(Opened(s[i], key, false), i, live + multiset{h}, id, fs);
    }
  }

  lemma HandleFits(s: seq<LockEntry>, live: multiset<Handle>, id: nat, fs: nat, h: Handle)
    requires TableInv(s, live, id, fs) && h in live
    ensures HandleOk(s, id, h)
  {
  }

  /** The entry after one close. */
  function Closed(e: LockEntry): LockEntry {
    if e.ctr == WRITER || e.ctr <= 1 then LockEntry(Key(0, e.key.clu, e.key.ofs), 0) else LockEntry(e.key, e.ctr - 1)
  }

  lemma Release(s: seq<LockEntry>, live: multiset<Handle>, id: nat, fs: nat, h: Handle)
    requires TableInv(s, live, id, fs) && h in live && HandleOk(s, id, h)
    ensures 1 <= h.lockid <= |s| && TableInv(s[h.lockid - 1 := Closed(s[h.lockid - 1])], live - multiset{h}, id, fs)
  {
    assert HandleOk(s, id, h);
    var i := h.lockid - 1;
    ReleasedSlot(s[i], i, live, id, fs, h);
    forall j: nat | j < |s| && j != i ensures SlotOk(s[j], j, live - multiset{h}, id, fs) {
      assert SlotOk(s[j], j, live, id, fs);
    }
    forall g | g in live - multiset{h} ensures HandleOk(s[i := Closed(s[i])], id, g) {
      ReleaseKeeps(s, live, id, fs, h, g);
    }
  }

  lemma ReleasedSlot(e: LockEntry, i: nat, live: multiset<Handle>, id: nat, fs: nat, h: Handle)
    requires SlotOk(e, i, live, id, fs) && Used(e) && h in live && h.lockid == i + 1 && h.id == id && h.key == e.key
    ensures SlotOk(Closed(e), i, live - multiset{h}, id, fs)
  {
    assert h == Handle(i + 1, id, e.key, h.write);
  }

  /** The other handles of a closed file still have its entry. */
  lemma ReleaseKeeps(s: seq<LockEntry>, live: multiset<Handle>, id: nat, fs: nat, h: Handle, g: Handle)
    requires TableInv(s, live, id, fs) && h in live && g in live - multiset{h} && 1 <= h.lockid <= |s|
    ensures HandleOk(s[h.lockid - 1 := Closed(s[h.lockid - 1])], id, g)
  {
    assert HandleOk(s, id, h) && HandleOk(s, id, g);
    if g.lockid == h.lockid {
      var i := h.lockid - 1;
      assert SlotOk(s[i], i, live, id, fs);
      assert g == Handle(i + 1, id, s[i].key, g.write) && h == Handle(i + 1, id, s[i].key, h.write);
    }
  }

  /** The open file is in the table. */
  ghost predicate IsOpen(s: seq<LockEntry>, key: Key) { exists i: nat :: i < |s| && Holds(s[i], key) }

  ghost predicate Full(s: seq<LockEntry>) { forall i: nat | i < |s| :: Used(s[i]) }

  ghost predicate HasWriter(s: seq<LockEntry>, key: Key)
  {
    exists i: nat :: i < |s| && Holds(s[i], key) && s[i].ctr == WRITER
  }

  /** Room for one more reader; a counter that reaches WRITER would read as a writer. */
  ghost predicate FewReaders(s: seq<LockEntry>, key: Key) {
    forall i: nat | i < |s| && Holds(s[i], key) :: s[i].ctr == WRITER || s[i].ctr < WRITER - 1
  }

  ghost predicate NoneBelow(s: seq<LockEntry>, key: Key, n: nat)
  {
    n <= |s| && forall j: nat | j < n :: !Holds(s[j], key)
  }

  ghost predicate NoBlankBelow(s: seq<LockEntry>, n: nat) { n <= |s| && forall j: nat | j < n :: Used(s[j]) }

  lemma NotOpen(s: seq<LockEntry>, key: Key)
    requires NoneBelow(s, key, |s|)
    ensures !IsOpen(s, key) && forall j: nat | j < |s| :: !Holds(s[j], key)
  {
  }

  lemma SomeBlank(s: seq<LockEntry>, i: nat)
    requires !Full(s) && NoBlankBelow(s, i)
    ensures i < |s|
  {
  }

  /** What the caller of inc_lock promises about the slot of the file. */
  lemma SlotAllows(s: seq<LockEntry>, key: Key, write: bool, i: nat)
    requires i < |s| && Holds(s[i], key) && FewReaders(s, key)
    requires if IsOpen(s, key) then !write && !HasWriter(s, key) else !Full(s)
    ensures !write && s[i].ctr < WRITER - 1
  {
  }

  class LockTable {
    const files: array<LockEntry>
    const fs: nat        // the volume object
    var mounted: bool    // it is valid
    var id: nat          // its mount ID
    var fsid: nat        // last mount ID given out, a WORD

    ghost var live: multiset<Handle>   // handles of the current mount that were not closed

    constructor (fs: nat)
      requires fs != 0
      ensures Inv() && live == multiset{} && !mounted && this.fs == fs && fsid == 0 && fresh(files)
    {
      this.fs, mounted, id, fsid, live := fs, false, 0, 0, multiset{};
      files := new LockEntry[FS_LOCK](_ => LockEntry(Key(0, 0, 0), 0));
    }

    ghost predicate Inv()
      reads files, `live, `id, `mounted, `fsid
    {
      TableInv(files[..], live, id, fs) && id <= fsid < 0x1_0000 && (!mounted ==> live == multiset{})
    }

    /** chk_lock. acc is 0 to read, 1 to write, 2 to delete or rename. */
    method ChkLock(key: Key, acc: nat) returns (res: FResult)
      requires Inv() && key.fs != 0 && acc <= 2
      ensures res == OK || res == Locked || res == TooManyOpenFiles
      ensures res == Locked <==> IsOpen(files[..], key) && (acc != 0 || HasWriter(files[..], key))
      ensures res == TooManyOpenFiles <==> !IsOpen(files[..], key) && Full(files[..]) && acc != 2
    {
      var i, be := 0, false;
      while i < FS_LOCK
        invariant i <= FS_LOCK && forall j: nat | j < i :: !Holds(files[..][j], key)
        invariant be <==> exists j: nat :: j < i && !Used(files[..][j])
      {
        if Used(files[i]) {
          if files[i].key == key { break; }
        } else {
          be := true;
        }
        i := i + 1;
      }
      if i == FS_LOCK { return if be || acc == 2 then OK else TooManyOpenFiles; }
      assert Holds(files[..][i], key);
      res := if acc != 0 || files[i].ctr == WRITER then Locked else OK;
    }

    /** The slot of key, FS_LOCK if it has none. */
    method Find(key: Key) returns (i: nat)
      requires files.Length == FS_LOCK && key.fs != 0
      ensures i <= FS_LOCK && (i < FS_LOCK ==> Holds(files[..][i], key)) && NoneBelow(files[..], key, i)
    {
      i := 0;
      while i < FS_LOCK
        invariant i <= FS_LOCK && NoneBelow(files[..], key, i)
      {
        if files[i].key == key { break; }
        i := i + 1;
      }
    }

    /** The first blank slot, FS_LOCK if there is none. */
    method FindBlank() returns (i: nat)
      requires files.Length == FS_LOCK
      ensures i <= FS_LOCK && (i < FS_LOCK ==> !Used(files[..][i])) && NoBlankBelow(files[..], i)
    {
      i := 0;
      while i < FS_LOCK && Used(files[i])
        invariant i <= FS_LOCK && NoBlankBelow(files[..], i)
      {
        i := i + 1;
      }
    }

    /** enq_lock: whether a new object can be registered. */
    method EnqLock() returns (ok: bool)
      requires files.Length == FS_LOCK
      ensures ok <==> !Full(files[..])
    {
      var i := FindBlank();
      ok := i < FS_LOCK;
    }

    /** inc_lock: cannot fail once chk_lock has allowed the open. */
    method IncLock(key: Key, write: bool) returns (lockid: nat)
      requires Inv() && mounted && key.fs == fs && FewReaders(files[..], key)
      requires if IsOpen(files[..], key) then !write && !HasWriter(files[..], key) else !Full(files[..])
      modifies files, `live
      ensures lockid != 0 && Inv() && live == old(live) + multiset{Handle(lockid, id, key, write)}
    {
      hide TableInv, NoneBelow, NoBlankBelow, IsOpen, Full, FewReaders, HasWriter;
      ghost var s := files[..];
      Shape(s, live, id, fs);
      lockid := 0;
      var i := Find(key);
      if i < FS_LOCK {
        SlotAllows(s, key, write, i);
      } else {
        NotOpen(s, key);
        i := FindBlank();
        SomeBlank(s, i);
        if i == FS_LOCK { return; }
        files[i] := LockEntry(key, 0);
      }
      if write && files[i].ctr != 0 { return; }
      files[i] := LockEntry(key, if write then WRITER else files[i].ctr + 1);
      lockid := i + 1;
      Register(s, live, id, fs, i, key, write);
      assert files[..] == s[i := Opened(s[i], key, write)];
      live := live + multiset{Handle(lockid, id, key, write)};
    }

    /** dec_lock with the index kept by an open handle. */
    method DecLock(lockid: nat, ghost h: Handle) returns (res: FResult)
      requires Inv() && mounted && h in live && h.lockid == lockid
      modifies files, `live
      ensures res == OK && Inv() && live == old(live) - multiset{h}
    {
      hide TableInv;
      ghost var s := files[..];
      Shape(s, live, id, fs);
      HandleFits(s, live, id, fs, h);
      Release(s, live, id, fs, h);
      if 1 <= lockid <= FS_LOCK {
        var i := lockid - 1;
        var n := files[i].ctr;
        if n == WRITER { n := 0; }
        if n > 0 { n := n - 1; }
        files[i] := LockEntry(if n == 0 then Key(0, files[i].key.clu, files[i].key.ofs) else files[i].key, n);
        assert files[..] == s[i := Closed(s[i])];
        live := live - multiset{h};
        res := OK;
      } else {
        res := IntErr;
      }
    }

    /** clear_lock: forgets every open file of the volume. */
    method ClearLock()
      requires files.Length == FS_LOCK && forall i: nat | i < FS_LOCK && Used(files[i]) :: files[i].key.fs == fs
      modifies files
      ensures forall i: nat | i < FS_LOCK :: !Used(files[i])
    {
      var i := 0;
      while i < FS_LOCK
        invariant i <= FS_LOCK
        invariant forall j: nat | j < i :: !Used(files[j])
        invariant forall j: nat | j < FS_LOCK && Used(files[j]) :: files[j].key.fs == fs
      {
        if files[i].key.fs == fs { files[i] := LockEntry(Key(0, files[i].key.clu, files[i].key.ofs), files[i].ctr); }
        i := i + 1;
      }
    }

    /**
      f_mount and, when a volume was found, the end of find_volume: every lock is gone and the mount
      ID is one that no handle has.
    */
    method Remount(found: bool)
      requires Inv() && fsid < 0xFFFF
      modifies files, `live, `mounted, `id, `fsid
      ensures Inv() && live == multiset{} && mounted == found && !Full(files[..])
      ensures if found then id == fsid == old(fsid) + 1 else id == old(id) && fsid == old(fsid)
      ensures forall key :: !IsOpen(files[..], key)
    {
      hide TableInv, Full, IsOpen;
      Shape(files[..], live, id, fs);
      assert forall i: nat | i < FS_LOCK && Used(files[i]) :: files[..][i].key.fs == fs;
      ClearLock();
      mounted, live := false, multiset{};
      if found {
        fsid := (fsid + 1) % 0x1_0000;
        id, mounted := fsid, true;
        ClearLock();
      }
      EmptyTable(files[..], id, fs);
    }

    /** The lock part of f_open; an object that did not exist cannot be in the table. */
    method Open(key: Key, write: bool, present: bool) returns (res: FResult, h: Handle)
      requires Inv() && mounted && key.fs == fs && FewReaders(files[..], key)
      requires !present ==> !IsOpen(files[..], key)
      modifies files, `live
      ensures res == OK || res == Locked || res == TooManyOpenFiles
      ensures res == Locked <==> old(IsOpen(files[..], key) && (write || HasWriter(files[..], key)))
      ensures res == TooManyOpenFiles <==> old(!IsOpen(files[..], key) && Full(files[..]))
      ensures Inv() && live == if res == OK then old(live) + multiset{h} else old(live)
      ensures res == OK ==> h.key == key && h.id == id && h.write == write
    {
      h := Handle(0, id, key, write);
      if present {
        res := ChkLock(key, if write then 1 else 0);
      } else {
        var room := EnqLock();
        res := if room then OK else TooManyOpenFiles;
      }
      if res == OK {
        var lockid := IncLock(key, write);
        if lockid == 0 { res := IntErr; return; }
        h := Handle(lockid, id, key, write);
      }
    }

    /**
      The lock part of f_close. A handle of an earlier mount is refused and releases nothing; one of
      the current mount releases its own entry.
    */
    method Close(h: Handle) returns (res: FResult)
      requires Inv() && (h.id == id && mounted ==> h in live)
      modifies files, `live
      ensures res == OK <==> mounted && h.id == id
      ensures res != OK ==> res == InvalidObject && files[..] == old(files[..]) && live == old(live)
      ensures res == OK ==> live == old(live) - multiset{h}
      ensures Inv()
    {
      if !mounted || h.id != id { return InvalidObject; }
      res := DecLock(h.lockid, h);
    }
  }
}
