/** dir_find, dir_alloc, dir_register and dir_remove: a directory table used as a map of names. */
module DirectorySearch {
  import opened FatTypes
  import opened Window
  import opened FatEntries
  import opened FatAccess
  import opened ChainTheory
  import opened Chains
  import opened ClusterMap
  import opened FileMap
  import opened FileObject
  import opened DirectoryMap
  import opened Directory

  /** The entries of the table, as far as they can be reached. */
  ghost function Entries(d: Dir): (r: seq<Slot>)
    requires SecsInside(d.fs.vol, d.secs)
    reads d`secs, d.fs`vol
    ensures |r| == |Reach(d.secs)| * 16 && (|d.secs| <= 4096 ==> r == Slots(d.fs.vol, d.secs))
  {
    ReachInside(d.fs.vol, d.secs);
    Slots(d.fs.vol, Reach(d.secs))
  }

  lemma ReachInside(vol: seq<Sector>, secs: seq<nat>)
    requires SecsInside(vol, secs)
    ensures SecsInside(vol, Reach(secs))
  {
  }

  lemma TableInside(d: Dir)
    requires Usable(d.fs) && d.Table()
    ensures SecsInside(d.fs.vol, d.secs)
    ensures forall i, j | 0 <= i < j < |d.secs| :: d.secs[i] != d.secs[j]
    ensures |d.fs.vol| < 0x1_0000_0000
    ensures forall i | 0 <= i < |d.secs| ::
      0 < d.secs[i] < |d.fs.vol| && d.secs[i] < ERR32 && !InFat(d.fs.geo, d.secs[i]) && !Shadow(d.fs.geo, d.secs[i])
  {
    hide Valid, FreeCountOk, NoOnes, Linked, SecsAre, RootOk;
    GeoFacts(d.fs);
    TableSecs(d.fs.geo, |d.fs.vol|, d.fs.fat, d.sclust, d.chain, d.secs);
  }

  /** dir_sdi to the first entry, which every table has. */
  method Rewind(d: Dir) returns (res: FResult)
    requires Usable(d.fs) && d.Table()
    modifies d`dptr, d`clust, d`sect, d.fs`winsect, d.fs`wflag, d.fs.win, d.fs.disk`img
    ensures Usable(d.fs) && d.Table()
    ensures res == OK || (res == DiskErr && !d.fs.disk.reliable)
    ensures res == OK ==> d.At() && d.dptr == 0
    ensures !old(d.fs.wflag) ==> !d.fs.wflag && d.fs.disk.img == old(d.fs.disk.img)
  {
    hide Valid, FreeCountOk, NoOnes, TableOk;
    SomeEntry(d);
    res := DirSdi(d, 0);
  }

  lemma SomeEntry(d: Dir)
    requires Usable(d.fs) && d.Table()
    ensures d.secs != []
  {
    hide Valid, FreeCountOk, NoOnes, Linked, GoodSecs;
    if d.chain != [] { TimesMonotone(1, |d.chain|, d.fs.geo.csize); }
  }

  lemma PastMore(secs: seq<nat>, p: nat, q: nat)
    requires p <= q
    ensures PastTable(secs, p) ==> PastTable(secs, q)
  {
  }

  /** Sequential and random access agree: k steps from the first entry lead to entry k, or past the end if there is
      none. */
  method Walk(d: Dir, k: nat) returns (res: FResult)
    requires Usable(d.fs) && d.Table()
    modifies d`dptr, d`clust, d`sect, d`chain, d`secs, d.fs`winsect, d.fs`wflag, d.fs`vol, d.fs`fat
    modifies d.fs`lastClst, d.fs`freeClst, d.fs`fsiFlag, d.fs.win, d.fs.disk`img
    ensures res == OK || res == NoFile || (res == DiskErr && !d.fs.disk.reliable)
    ensures res == OK || res == NoFile ==> SameTable(d)
    ensures res == OK ==> d.At() && d.dptr == k * 32
    ensures res == NoFile ==> PastTable(d.secs, k * 32)
  {
    hide Usable, TableOk, OnEntry;
    res := Rewind(d);
    if res != OK { return; }
    var i := 0;
    while i < k
      invariant i <= k && Usable(d.fs) && d.Table() && d.At() && d.dptr == i * 32 && SameTable(d) && res == OK
    {
      PastMore(d.secs, i * 32 + 32, k * 32);
      res := DirNext(d, false);
      if res != OK { return; }
      i := i + 1;
    }
  }

  /** Walking to entry k and positioning on it are the same. */
  method SequentialIsRandom(d: Dir, e: Dir, k: nat) returns (walked: FResult, sought: FResult)
    requires d != e && d.fs == e.fs && d.sclust == e.sclust && d.chain == e.chain && d.secs == e.secs
    requires Usable(d.fs) && d.Table()
    modifies d`dptr, d`clust, d`sect, d`chain, d`secs, e`dptr, e`clust, e`sect
    modifies d.fs`winsect, d.fs`wflag, d.fs`vol, d.fs`fat, d.fs`lastClst, d.fs`freeClst, d.fs`fsiFlag, d.fs.win,
      d.fs.disk`img
    ensures walked == DiskErr || sought == DiskErr ==> !d.fs.disk.reliable
    ensures walked != DiskErr && sought != DiskErr ==> (walked == OK <==> sought == OK)
    ensures walked == OK && sought == OK ==> d.dptr == e.dptr == k * 32 && d.sect == e.sect && d.clust == e.clust
  {
    hide Valid, FreeCountOk, NoOnes, TableOk;
    sought := DirSdi(e, k * 32);
    walked := Walk(d, k);
    if walked == OK && sought == OK { AtUnique(d, e); }
  }

  /** The current entry is entry k of the table. */
  lemma EntryNumber(d: Dir, k: nat)
    requires Usable(d.fs) && d.Table() && d.At() && d.dptr == k * 32
    ensures SecsInside(d.fs.vol, d.secs) && k < |Entries(d)| && d.dptr / 32 == k
    ensures PastTable(d.secs, d.dptr + 32) ==> k + 1 == |Entries(d)|
  {
    hide Usable, TableOk;
    TableInside(d);
  }

  /** Shows the sector of the current entry. */
  method ShowEntry(d: Dir) returns (res: FResult)
    requires Usable(d.fs) && d.Table() && d.At()
    modifies d.fs`winsect, d.fs`wflag, d.fs.win, d.fs.disk`img
    ensures Usable(d.fs) && d.Table() && SecsInside(d.fs.vol, d.secs)
    ensures res == OK || (res == DiskErr && !d.fs.disk.reliable)
    ensures res == OK ==> d.fs.winsect == d.sect && d.dptr / 32 < |Entries(d)|
    ensures res == OK ==> d.fs.win.Length == 512 && d.dptr % 512 + 32 <= 512
    ensures res == OK ==> d.fs.win[d.dptr % 512..d.dptr % 512 + 32] == Entries(d)[d.dptr / 32]
    ensures res == OK && d.sect != old(d.fs.winsect) ==> !d.fs.wflag
    ensures !old(d.fs.wflag) ==> !d.fs.wflag && d.fs.disk.img == old(d.fs.disk.img)
  {
    hide Decodes, FreeCountOk, NoOnes, TableOk, Fatfs.Coherent, ValidGeometry;
    TableInside(d);
    GeoFacts(d.fs);
    SlotPlace(d.dptr);
    res := ShowSector(d.fs, d.sect);
    if res == OK { ShownFacts(d.fs); }
  }

  lemma ShownFacts(fs: Fatfs)
    requires fs.Coherent()
    ensures fs.win.Length == 512
  {
  }

  lemma SlotPlace(p: nat)
    requires p % 32 == 0
    ensures p / 32 / 16 == p / 512 && p / 32 % 16 * 32 == p % 512 && p % 512 + 32 <= 512
  {
    var k := p / 32;
    assert p == k * 32;
  }

  // ----- dir_find

  /** dir_find stops at slot k: nothing before it is a match or the terminator. */
  ghost predicate Passed(slots: seq<Slot>, fn: seq<byte>, k: nat) {
    k <= |slots| && forall j | 0 <= j < k :: slots[j][0] != 0 && !Matches(slots[j], fn)
  }

  /** Nothing in the part of the table that was passed, or behind a terminator, has the name. */
  lemma NotFound(slots: seq<Slot>, fn: seq<byte>, k: nat)
    requires FileName(fn) && Passed(slots, fn, k) && (k == |slots| || slots[k][0] == 0)
    ensures forall j: nat :: !Maps(slots, fn, j)
  {
    forall j: nat ensures !Maps(slots, fn, j) {
      if j < k { MatchIsLive(slots, j, fn); }
    }
  }

  lemma Found(slots: seq<Slot>, fn: seq<byte>, k: nat)
    requires FileName(fn) && k < |slots| && Passed(slots, fn, k) && slots[k][0] != 0 && Matches(slots[k], fn)
    ensures Maps(slots, fn, k)
  {
    MatchIsLive(slots, k, fn);
  }

  datatype Look = Hit | End | Other | Failed

  /** Looks at the current entry. */
  method LookAt(d: Dir, ghost k: nat) returns (look: Look)
    requires Usable(d.fs) && d.Table() && d.At() && SecsInside(d.fs.vol, d.secs) && FileName(d.fn)
    requires d.dptr == k * 32 && k < |Entries(d)| && Passed(Entries(d), d.fn, k)
    modifies d`attr, d.fs`winsect, d.fs`wflag, d.fs.win, d.fs.disk`img
    ensures Usable(d.fs) && d.Table() && SecsInside(d.fs.vol, d.secs)
    ensures look == Failed ==> !d.fs.disk.reliable
    ensures look == Hit ==>
      d.dptr / 32 == k && Maps(Entries(d), d.fn, k) && d.fs.winsect == d.sect &&
      d.attr == Entries(d)[k][11] % 0x40
    ensures look == End ==> forall j: nat :: !Maps(Entries(d), d.fn, j)
    ensures look == Other ==> Passed(Entries(d), d.fn, k + 1)
    ensures !old(d.fs.wflag) ==> !d.fs.wflag && d.fs.disk.img == old(d.fs.disk.img)
  {
    hide Usable, TableOk, OnEntry, Maps, Matches, Slots, Live, FileName, PastTable, SecsInside;
    EntryNumber(d, k);
    var res := ShowEntry(d);
    if res != OK { return Failed; }
    var dir: Slot := d.fs.win[d.dptr % 512..d.dptr % 512 + 32];
    if dir[0] == 0 {
      NotFound(Entries(d), d.fn, k);
      return End;
    }
    d.attr := dir[11] % 0x40;
    if Matches(dir, d.fn) {
      Found(Entries(d), d.fn, k);
      return Hit;
    }
    look := Other;
  }

  /**
    dir_find. OK stops at the entry of that name, shown by the window; NoFile means that no object of
    the directory has it.
  */
  method DirFind(d: Dir) returns (res: FResult)
    requires Usable(d.fs) && d.Table() && FileName(d.fn)
    modifies d`dptr, d`clust, d`sect, d`attr, d`chain, d`secs, d.fs`winsect, d.fs`wflag, d.fs`vol, d.fs`fat
    modifies d.fs`lastClst, d.fs`freeClst, d.fs`fsiFlag, d.fs.win, d.fs.disk`img
    ensures res == OK || res == NoFile || (res == DiskErr && !d.fs.disk.reliable)
    ensures res != DiskErr ==> Usable(d.fs) && d.Table() && SameTable(d) && SecsInside(d.fs.vol, d.secs)
    ensures res == OK ==> d.At() && d.fs.winsect == d.sect && Maps(Entries(d), d.fn, d.dptr / 32)
    ensures res == OK ==> d.attr == Entries(d)[d.dptr / 32][11] % 0x40
    ensures res == NoFile ==> forall j: nat :: !Maps(Entries(d), d.fn, j)
    ensures !old(d.fs.wflag) ==> !d.fs.wflag && d.fs.disk.img == old(d.fs.disk.img)
  {
    hide Usable, TableOk, Dir.At, Maps, Slots, FileName, PastTable, SecsInside, Passed, Entries;
    res := Rewind(d);
    if res != OK { return; }
    ghost var k := 0;
    EntryNumber(d, 0);
    PassedNone(Entries(d), d.fn);
    while true
      invariant Usable(d.fs) && d.Table() && d.At() && SameTable(d) && SecsInside(d.fs.vol, d.secs)
      invariant d.dptr == k * 32 && Passed(Entries(d), d.fn, k)
      invariant !old(d.fs.wflag) ==> !d.fs.wflag && d.fs.disk.img == old(d.fs.disk.img)
      decreases |Reach(d.secs)| * 16 - k
    {
      EntryNumber(d, k);
      var look := LookAt(d, k);
      if look == Failed { return DiskErr; }
      if look == End { return NoFile; }
      if look == Hit { return OK; }
      res := StepOn(d, k + 1);
      if res != OK { return; }
      k := k + 1;
    }
  }

  /** dir_next without stretching, in a search that has come to entry k. */
  method StepOn(d: Dir, ghost k: nat) returns (res: FResult)
    requires Usable(d.fs) && d.Table() && d.At() && SecsInside(d.fs.vol, d.secs) && FileName(d.fn)
    requires d.dptr + 32 == k * 32 && Passed(Entries(d), d.fn, k)
    modifies d`dptr, d`clust, d`sect, d`chain, d`secs, d.fs`winsect, d.fs`wflag, d.fs`vol, d.fs`fat
    modifies d.fs`lastClst, d.fs`freeClst, d.fs`fsiFlag, d.fs.win, d.fs.disk`img
    ensures res == OK || res == NoFile || (res == DiskErr && !d.fs.disk.reliable)
    ensures res != DiskErr ==> Usable(d.fs) && d.Table() && SameTable(d) && SecsInside(d.fs.vol, d.secs)
    ensures res == OK ==> d.At() && d.dptr == k * 32 && Passed(Entries(d), d.fn, k)
    ensures res == NoFile ==> forall j: nat :: !Maps(Entries(d), d.fn, j)
    ensures !old(d.fs.wflag) ==> !d.fs.wflag && d.fs.disk.img == old(d.fs.disk.img)
  {
    hide Usable, TableOk, Dir.At, Maps, Slots, FileName, PastTable, SecsInside, Passed, Entries;
    EntryNumber(d, k - 1);
    res := DirNext(d, false);
    if res == NoFile { NotFound(Entries(d), d.fn, k); }
  }

  lemma PassedNone(slots: seq<Slot>, fn: seq<byte>)
    ensures Passed(slots, fn, 0)
  {
  }

  lemma MapsInside(slots: seq<Slot>, fn: seq<byte>, k: nat)
    requires Maps(slots, fn, k)
    ensures k < |slots|
  {
  }

  // ----- dir_alloc and dir_register

  predicate Blank(s: Slot) { s[0] == DDEM || s[0] == 0 }

  /** slots' is slots, possibly with unused slots appended, and k its first blank one. */
  ghost predicate Prepared(slots: seq<Slot>, slots': seq<Slot>, k: nat) {
    && slots <= slots' && k < |slots'| && k <= |slots| && Blank(slots'[k])
    && (forall j | 0 <= j < k :: !Blank(slots[j]))
    && (forall j | |slots| <= j < |slots'| :: slots'[j][0] == 0)
  }

  /** The entries of a stretched table: the old ones, then unused ones. */
  lemma GrewEntries(d: Dir, secsWas: seq<nat>, chainWas: seq<nat>, fatWas: seq<nat>, volWas: seq<Sector>)
    requires Usable(d.fs) && d.Table() && TableGrew(d, chainWas, secsWas, fatWas, volWas)
    ensures |d.secs| <= 4096 && SecsInside(d.fs.vol, d.secs) && SecsInside(volWas, secsWas) && |secsWas| < |d.secs|
    ensures Slots(volWas, secsWas) <= Entries(d)
    ensures forall j | |secsWas| * 16 <= j < |d.secs| * 16 :: Entries(d)[j][0] == 0
  {
    hide Usable, TableOk, Grown, Slots;
    TableInside(d);
    var vol, secs, added := d.fs.vol, d.secs, d.secs[|secsWas|..];
    forall i | 0 <= i < |secsWas| ensures secsWas[i] == secs[i] && vol[secs[i]] == volWas[secs[i]] {
      assert secs[i] !in added;
    }
    SlotsFrame(volWas, vol, secsWas);
    SlotsAppend(vol, secsWas, secs);
  }

  /** dir_alloc for one entry: the first deleted or unused one, stretching the table if there is none. */
  method DirAlloc(d: Dir) returns (res: FResult)
    requires Usable(d.fs) && d.Table()
    modifies d`dptr, d`clust, d`sect, d`chain, d`secs, d.fs`winsect, d.fs`wflag, d.fs`vol, d.fs`fat
    modifies d.fs`lastClst, d.fs`freeClst, d.fs`fsiFlag, d.fs.win, d.fs.disk`img
    ensures res == OK || res == Denied || (res == DiskErr && !d.fs.disk.reliable)
    ensures SecsInside(old(d.fs.vol), old(d.secs))
    ensures res != DiskErr ==> Usable(d.fs) && d.Table() && SecsInside(d.fs.vol, d.secs)
    ensures res == OK ==> d.At() && d.fs.winsect == d.sect && Prepared(old(Entries(d)), Entries(d), d.dptr / 32)
    ensures res == OK && !SameTable(d) ==> TableGrew(d, old(d.chain), old(d.secs), old(d.fs.fat), old(d.fs.vol))
    ensures res == OK && !SameTable(d) ==> d.dptr / 32 == |old(Entries(d))|
    ensures res == Denied ==> SameTable(d) && forall j | 0 <= j < |Entries(d)| :: !Blank(Entries(d)[j])
    ensures res == Denied ==> d.chain == [] || CountFree(d.fs.fat) == 0 || |d.secs| * 512 >= MAX_DIR
  {
    hide Usable, TableOk, Dir.At, Slots, PastTable, CountFree, TableGrew, SecsInside, Scanned, Prepared;
    TableInside(d);
    ghost var slots, chain, secs, fat, vol := Entries(d), d.chain, d.secs, d.fs.fat, d.fs.vol;
    res := Rewind(d);
    if res != OK { return; }
    ghost var k := 0;
    EntryNumber(d, 0);
    ScannedNone(slots);
    while true
      invariant Usable(d.fs) && d.Table() && d.At() && SecsInside(d.fs.vol, d.secs)
      invariant d.dptr == k * 32 && Scanned(slots, Entries(d), k)
      invariant SameTable(d) || (k == |slots| && TableGrew(d, chain, secs, fat, vol))
      decreases if k == |slots| then 0 else |slots| + 1 - k
    {
      EntryNumber(d, k);
      var blank;
      res, blank := BlankHere(d, k);
      if res != OK { return; }
      ScannedFacts(slots, Entries(d), k);
      if blank { return OK; }
      res := NextBlank(d, k);
      if res != OK { return; }
      k := k + 1;
    }
  }

  /** The step of the search to the next slot, with a new cluster after the last one. */
  method NextBlank(d: Dir, ghost k: nat) returns (res: FResult)
    requires Usable(d.fs) && d.Table() && d.At() && d.dptr == k * 32 && SecsInside(d.fs.vol, d.secs)
    requires k < |Entries(d)| && forall j | 0 <= j <= k :: !Blank(Entries(d)[j])
    modifies d`dptr, d`clust, d`sect, d`chain, d`secs, d.fs`winsect, d.fs`wflag, d.fs`vol, d.fs`fat
    modifies d.fs`lastClst, d.fs`freeClst, d.fs`fsiFlag, d.fs.win, d.fs.disk`img
    ensures res == OK || res == Denied || (res == DiskErr && !d.fs.disk.reliable)
    ensures res != DiskErr ==> Usable(d.fs) && d.Table() && SecsInside(d.fs.vol, d.secs)
    ensures res == OK ==> d.At() && d.dptr == (k + 1) * 32 && Scanned(old(Entries(d)), Entries(d), k + 1)
    ensures res == OK && !SameTable(d) ==>
      k + 1 == |old(Entries(d))| && TableGrew(d, old(d.chain), old(d.secs), old(d.fs.fat), old(d.fs.vol))
    ensures res == Denied ==> SameTable(d) && forall j | 0 <= j < |Entries(d)| :: !Blank(Entries(d)[j])
    ensures res == Denied ==> d.chain == [] || CountFree(d.fs.fat) == 0 || |d.secs| * 512 >= MAX_DIR
  {
    hide Usable, TableOk, Dir.At, Slots, PastTable, CountFree, TableGrew, SecsInside, Scanned, Blank;
    EntryNumber(d, k);
    ghost var slots, chain, secs, fat, vol := Entries(d), d.chain, d.secs, d.fs.fat, d.fs.vol;
    res := DirNext(d, true);
    if res == NoFile { TableInside(d); return Denied; }
    if res != OK { return; }
    if !SameTable(d) { GrewEntries(d, secs, chain, fat, vol); }
    EntryNumber(d, k + 1);
    ScannedMore(slots, Entries(d), k);
  }

  /** Whether the current entry is deleted or unused. */
  method BlankHere(d: Dir, ghost k: nat) returns (res: FResult, blank: bool)
    requires Usable(d.fs) && d.Table() && d.At() && d.dptr == k * 32
    modifies d.fs`winsect, d.fs`wflag, d.fs.win, d.fs.disk`img
    ensures Usable(d.fs) && d.Table() && SecsInside(d.fs.vol, d.secs) && k < |Entries(d)|
    ensures res == OK || (res == DiskErr && !d.fs.disk.reliable)
    ensures res == OK ==> d.fs.winsect == d.sect && blank == Blank(Entries(d)[k])
  {
    hide Usable, TableOk, OnEntry, Slots, PastTable, SecsInside;
    EntryNumber(d, k);
    blank := false;
    res := ShowEntry(d);
    if res != OK { return; }
    var first := d.fs.win[d.dptr % 512..d.dptr % 512 + 32][0];
    blank := first == DDEM || first == 0;
  }

  lemma ScannedNone(slots: seq<Slot>)
    requires slots != []
    ensures Scanned(slots, slots, 0)
  {
  }

  /** What slot k, where the search stands, decides. */
  lemma ScannedFacts(slots: seq<Slot>, now: seq<Slot>, k: nat)
    requires Scanned(slots, now, k)
    ensures |slots| <= |now| && k < |now| && k <= |slots|
    ensures Blank(now[k]) ==> Prepared(slots, now, k)
    ensures !Blank(now[k]) && k < |slots| ==> forall j | 0 <= j <= k :: !Blank(slots[j])
    ensures !Blank(now[k]) ==> k < |slots|
  {
  }

  lemma ScannedMore(slots: seq<Slot>, now: seq<Slot>, k: nat)
    requires k < |slots| && slots <= now && k + 1 < |now| && forall j | 0 <= j <= k :: !Blank(slots[j])
    requires forall j | |slots| <= j < |now| :: now[j][0] == 0
    ensures Scanned(slots, now, k + 1)
  {
  }

  /** The search for a blank slot has come to slot k. */
  ghost predicate Scanned(slots: seq<Slot>, slots': seq<Slot>, k: nat) {
    && slots <= slots' && k < |slots'| && k <= |slots|
    && (forall j | 0 <= j < k :: !Blank(slots[j]))
    && (forall j | |slots| <= j < |slots'| :: slots'[j][0] == 0)
  }

  /** The entry dir_register writes: the name, everything else zero. */
  function NewEntry(fn: seq<byte>): (e: Slot)
    requires |fn| == 11
    ensures e[..11] == fn
  {
    fn + seq(21, i => 0)
  }

  /** A poke into the slot the window shows. */
  method PokeEntry(d: Dir, ghost k: nat, o: nat, data: seq<byte>)
    requires Usable(d.fs) && d.Table() && d.At() && d.dptr == k * 32 && d.fs.winsect == d.sect && o + |data| <= 32
    requires SecsInside(d.fs.vol, d.secs)
    modifies d.fs`wflag, d.fs`vol, d.fs.win
    ensures Usable(d.fs) && d.Table() && SecsInside(d.fs.vol, d.secs) && d.fs.wflag && k < |old(Entries(d))|
    ensures Entries(d) == old(Entries(d))[k := Patched(old(Entries(d))[k], o, data)]
    ensures |d.fs.vol| == |old(d.fs.vol)| && forall s: nat | s < |d.fs.vol| && s != d.sect ::
      d.fs.vol[s] == old(d.fs.vol)[s]
  {
    hide TableOk, Entry, FreeCountOk, NoOnes, Fatfs.Coherent, ValidGeometry, SecsInside, Slots;
    TableInside(d);
    EntryNumber(d, k);
    SlotPlace(d.dptr);
    GeoFacts(d.fs);
    Areas(d.fs.geo, |d.fs.vol|);
    WindowShows(d.fs, d.sect);
    ghost var was, img := d.fs.vol, d.fs.disk.img;
    PokeWindow(d.fs, d.dptr % 512 + o, data);
    InsideSame(was, d.fs.vol, d.secs);
    SlotsPoke(was, d.fs.vol, Reach(d.secs), k, o, data);
    DecodesFrame(d.fs.geo, was, d.fs.vol, d.fs.fat);
    HeldFrame(d.fs, was, img);
  }

  lemma InsideSame(vol: seq<Sector>, vol': seq<Sector>, secs: seq<nat>)
    requires SecsInside(vol, secs) && |vol'| == |vol|
    ensures SecsInside(vol', secs)
  {
  }

  lemma WindowShows(fs: Fatfs, s: nat)
    requires fs.Coherent() && fs.winsect == s < |fs.vol| && s != ERR32 && !Shadow(fs.geo, s)
    ensures fs.win[..] == fs.vol[s] && !IsFsInfo(fs.geo, s)
  {
  }

  /**
    dir_register for a name that is not in the directory. On success exactly this name was added;
    every other object keeps its name and its slot, whether a deleted slot was used again, the end
    moved or the table was stretched.
  */
  method DirRegister(d: Dir) returns (res: FResult)
    requires Usable(d.fs) && d.Table() && FileName(d.fn) && SecsInside(d.fs.vol, d.secs)
    requires ZeroTail(Entries(d)) && forall j: nat :: !Maps(Entries(d), d.fn, j)
    modifies d`dptr, d`clust, d`sect, d`chain, d`secs, d.fs`winsect, d.fs`wflag, d.fs`vol, d.fs`fat
    modifies d.fs`lastClst, d.fs`freeClst, d.fs`fsiFlag, d.fs.win, d.fs.disk`img
    ensures res == OK || res == Denied || (res == DiskErr && !d.fs.disk.reliable)
    ensures res != DiskErr ==> Usable(d.fs) && d.Table() && SecsInside(d.fs.vol, d.secs) && ZeroTail(Entries(d))
    ensures res == OK ==> d.At() && d.fs.winsect == d.sect && d.fs.wflag && Maps(Entries(d), d.fn, d.dptr / 32)
    ensures res == OK ==> Entries(d)[d.dptr / 32] == NewEntry(d.fn)
    ensures res == OK ==> forall name: seq<byte>, j: nat ::
      Maps(Entries(d), name, j) <==> (j == d.dptr / 32 && name == d.fn) || Maps(old(Entries(d)), name, j)
    ensures res == OK && Unique(old(Entries(d))) ==> Unique(Entries(d))
    ensures res == Denied ==> SameTable(d) && forall j | 0 <= j < |Entries(d)| :: !Blank(Entries(d)[j])
    ensures res == Denied ==> d.chain == [] || CountFree(d.fs.fat) == 0 || |d.secs| * 512 >= MAX_DIR
    ensures res == OK ==>
      Outside(d.fs.geo, d.secs, old(d.fs.vol), d.fs.vol) &&
      RegisterFrame(d, old(d.chain), old(d.fs.fat))
    ensures res == OK ==> d.secs == old(d.secs) || |d.secs| <= 4096
    ensures res == OK && d.dptr / 32 < |old(Entries(d))| ==>
      d.chain == old(d.chain) && d.secs == old(d.secs) && d.fs.fat == old(d.fs.fat)
    ensures res == OK ==> forall j: nat | j < d.dptr / 32 && j < |old(Entries(d))| :: !Blank(old(Entries(d))[j])
  {
    hide Usable, TableOk, OnEntry, Slots, PastTable, CountFree, TableGrew, Maps, ZeroTail, Unique, SecsInside, Grown,
      Patched, Outside;
    ghost var slots, chain, secs, fat, vol := Entries(d), d.chain, d.secs, d.fs.fat, d.fs.vol;
    GrownRefl(fat, chain);
    res := DirAlloc(d);
    if res != OK { return; }
    ghost var k := d.dptr / 32;
    ghost var mid := Entries(d);
    if !SameTable(d) { GrewVolume(d, chain, secs, fat, vol); }
    ghost var grown := d.fs.vol;
    res := ShowEntry(d);
    if res != OK { return; }
    PokeEntry(d, k, 0, NewEntry(d.fn));
    PokeOutside(d, vol, grown);
    PatchedWhole(mid[k], NewEntry(d.fn));
    PreparedEntered(slots, mid, Entries(d), k, NewEntry(d.fn), d.fn);
  }

  /** A poke into the current entry stays inside the table. */
  lemma PokeOutside(d: Dir, vol: seq<Sector>, mid: seq<Sector>)
    requires d.At() && (mid == vol || Outside(d.fs.geo, d.secs, vol, mid))
    requires |d.fs.vol| == |mid| && forall s: nat | s < |mid| && s != d.sect :: d.fs.vol[s] == mid[s]
    ensures Outside(d.fs.geo, d.secs, vol, d.fs.vol)
  {
    assert d.sect in d.secs;
  }

  /** The clusters of the table are the old ones and free ones. */
  ghost predicate RegisterFrame(d: Dir, chainWas: seq<nat>, fatWas: seq<nat>)
    reads d`chain, d.fs`fat
  {
    Grown(fatWas, chainWas, d.fs.fat, d.chain)
  }

  lemma GrewVolume(d: Dir, chainWas: seq<nat>, secsWas: seq<nat>, fatWas: seq<nat>, volWas: seq<Sector>)
    requires TableGrew(d, chainWas, secsWas, fatWas, volWas)
    ensures |d.fs.vol| == |volWas| && Grown(fatWas, chainWas, d.fs.fat, d.chain)
    ensures Outside(d.fs.geo, d.secs, volWas, d.fs.vol) && |d.secs| <= 4096
  {
    hide Grown;
    forall s: nat | s !in d.secs ensures s !in d.secs[|secsWas|..] {}
  }

  lemma PreparedEntered(slots: seq<Slot>, mid: seq<Slot>, now: seq<Slot>, k: nat, e: Slot, fn: seq<byte>)
    requires FileName(fn) && e == NewEntry(fn) && ZeroTail(slots) && (forall j: nat :: !Maps(slots, fn, j))
    requires Prepared(slots, mid, k) && now == mid[k := e]
    ensures ZeroTail(now) && Maps(now, fn, k) && (Unique(slots) ==> Unique(now))
    ensures forall name: seq<byte>, j: nat :: Maps(now, name, j) <==> (j == k && name == fn) || Maps(slots, name, j)
  {
    hide Maps, ZeroTail, Unique;
    NotLabel(fn);
    EnteredMap(slots, now, k, e, fn);
  }

  lemma PatchedWhole(s: Slot, e: Slot)
    ensures Patched(s, 0, e) == e
  {
  }

  lemma NotLabel(fn: seq<byte>)
    requires |fn| == 11
    ensures !Bit(NewEntry(fn)[11], AM_VOL)
  {
  }

  /** dir_remove on the entry of an object: exactly that object is gone. */
  method DirRemove(d: Dir, ghost k: nat) returns (res: FResult)
    requires Usable(d.fs) && d.Table() && d.At() && SecsInside(d.fs.vol, d.secs) && d.dptr == k * 32
    requires ZeroTail(Entries(d)) && Live(Entries(d), k)
    modifies d.fs`winsect, d.fs`wflag, d.fs`vol, d.fs.win, d.fs.disk`img
    ensures res == OK || (res == DiskErr && !d.fs.disk.reliable)
    ensures Usable(d.fs) && d.Table() && SecsInside(d.fs.vol, d.secs) && ZeroTail(Entries(d))
    ensures res == OK ==> forall name: seq<byte>, j: nat :: Maps(Entries(d), name, j) <==>
      j != k && Maps(old(Entries(d)), name, j)
    ensures res == OK && Unique(old(Entries(d))) ==> Unique(Entries(d))
    ensures res != OK ==> Entries(d) == old(Entries(d))
  {
    hide Usable, TableOk, OnEntry, Slots, Maps, ZeroTail, Unique, SecsInside;
    res := ShowEntry(d);
    if res != OK { return; }
    PokeEntry(d, k, 0, [DDEM]);
    DeletedMap(old(Entries(d)), Entries(d), k);
  }

  /** Rewriting an entry without touching its name or the label bit changes no name. */
  lemma SameNames(slots: seq<Slot>, k: nat, e: Slot)
    requires k < |slots| && e[..11] == slots[k][..11] && Bit(e[11], AM_VOL) == Bit(slots[k][11], AM_VOL)
    ensures forall name: seq<byte>, j: nat :: Maps(slots[k := e], name, j) <==> Maps(slots, name, j)
    ensures ZeroTail(slots) ==> ZeroTail(slots[k := e])
  {
    var now := slots[k := e];
    assert e[0] == e[..11][0] && slots[k][0] == slots[k][..11][0];
    forall i | 0 <= i < |slots| ensures now[i][0] == slots[i][0] {}
    forall j: nat ensures Before(now, j) <==> Before(slots, j) {}
  }
}
