/** f_open of a file in the root directory, created if it does not exist. */
module FileOpen {
  import opened FatTypes
  import opened Window
  import opened DirEntry
  import opened FatAccess
  import opened ChainTheory
  import opened Chains
  import opened ClusterMap
  import opened FileMap
  import opened FileObject
  import opened FileSpec
  import opened DirectoryMap
  import opened Directory
  import opened DirectorySearch

  const AM_RDO: byte := 0x01
  const AM_DIR: byte := 0x10
  const AM_ARC: byte := 0x20

  /** Start cluster and size fields of an entry. */
  function SlotClust(g: Geometry, e: Slot): nat {
    if g.fsType == FAT32 then Word(e[26], e[27]) + Word(e[20], e[21]) * 0x1_0000 else Word(e[26], e[27])
  }

  function SlotSize(e: Slot): dword { Dword(e[28], e[29], e[30], e[31]) }

  /** The fields of a slot are those of the directory sector. */
  lemma SlotFields(g: Geometry, s: Sector, o: nat, e: Slot)
    requires o + 32 <= 512 && e == s[o..o + 32]
    ensures EntryClust(g, s, o) == SlotClust(g, e) && EntrySize(s, o) == SlotSize(e)
  {
    assert forall j: nat | j < 32 :: e[j] == s[o + j];
    assert s[o + 26] == e[26] && s[o + 27] == e[27] && s[o + 20] == e[20] && s[o + 21] == e[21];
    assert s[o + 28] == e[28] && s[o + 29] == e[29] && s[o + 30] == e[30] && s[o + 31] == e[31];
  }

  /** The entry of a file that was just created: no cluster, no byte. */
  predicate EmptyFile(g: Geometry, e: Slot) { SlotClust(g, e) == 0 && SlotSize(e) == 0 && e[11] == AM_ARC }

  /** The directory entry as f_open initialises it. */
  function Created(g: Geometry, e: Slot, tm: dword): (r: Slot) {
    var e1 := Patched(e, 14, StDword(tm));
    var e2 := Patched(e1, 22, StDword(tm));
    var e3 := Patched(e2, 11, [AM_ARC]);
    var e4 := Patched(e3, 26, StWord(0));
    var e5 := if g.fsType == FAT32 then Patched(e4, 20, StWord(0)) else e4;
    Patched(e5, 28, StDword(0))
  }

  lemma CreatedFields(g: Geometry, e: Slot, tm: dword)
    ensures EmptyFile(g, Created(g, e, tm)) && Created(g, e, tm)[..11] == e[..11]
  {
    hide Patched, StDword, StWord, Bit, Word, Dword;
    StoresLoad(0, 0);
    ArchiveBit(AM_ARC);
    var e1 := Patched(e, 14, StDword(tm));
    var e2 := Patched(e1, 22, StDword(tm));
    var e3 := Patched(e2, 11, [AM_ARC]);
    var e4 := Patched(e3, 26, StWord(0));
    var e5 := if g.fsType == FAT32 then Patched(e4, 20, StWord(0)) else e4;
    var e6 := Patched(e5, 28, StDword(0));
    PatchedBytes(e, 14, StDword(tm));
    PatchedBytes(e1, 22, StDword(tm));
    PatchedBytes(e2, 11, [AM_ARC]);
    PatchedBytes(e3, 26, StWord(0));
    if g.fsType == FAT32 { PatchedBytes(e4, 20, StWord(0)); }
    PatchedBytes(e5, 28, StDword(0));
    assert e6[..11] == e[..11];
  }

  /** A stored value loads back. */
  lemma StoresLoad(v: nat, w: dword)
    requires v < 0x1_0000
    ensures Word(StWord(v)[0], StWord(v)[1]) == v
    ensures Dword(StDword(w)[0], StDword(w)[1], StDword(w)[2], StDword(w)[3]) == w
  {
    DwordRoundTrip(w);
  }

  lemma ArchiveBit(a: byte)
    requires a == AM_ARC
    ensures !Bit(a, AM_VOL)
  {
  }

  lemma PatchedBytes(s: Slot, o: nat, data: seq<byte>)
    requires o + |data| <= 32
    ensures forall j | 0 <= j < 32 :: Patched(s, o, data)[j] == if o <= j < o + |data| then data[j - o] else s[j]
  {
  }

  /** Cleans the directory entry of a new file. */
  method InitEntry(d: Dir, ghost k: nat, tm: dword)
    requires Usable(d.fs) && d.Table() && d.At() && d.dptr == k * 32 && d.fs.winsect == d.sect &&
      SecsInside(d.fs.vol, d.secs)
    modifies d.fs`wflag, d.fs`vol, d.fs.win
    ensures Usable(d.fs) && d.Table() && SecsInside(d.fs.vol, d.secs) && d.fs.wflag && k < |old(Entries(d))|
    ensures Entries(d) == old(Entries(d))[k := Created(d.fs.geo, old(Entries(d))[k], tm)]
    ensures |d.fs.vol| == |old(d.fs.vol)| && forall s: nat | s < |d.fs.vol| && s != d.sect ::
      d.fs.vol[s] == old(d.fs.vol)[s]
  {
    hide Usable, TableOk, OnEntry, SecsInside, Slots, Patched, StDword, StWord;
    PokeEntry(d, k, 14, StDword(tm));
    PokeEntry(d, k, 22, StDword(tm));
    PokeEntry(d, k, 11, [AM_ARC]);
    PokeEntry(d, k, 26, StWord(0));
    if d.fs.geo.fsType == FAT32 { PokeEntry(d, k, 20, StWord(0)); }
    PokeEntry(d, k, 28, StDword(0));
  }

  /** The root directory, with unique names, and the other chains of the volume. */
  ghost predicate RootOf(g: Geometry, vol: seq<Sector>, fat: seq<nat>, dchain: seq<nat>, dsecs: seq<nat>,
                         m: map<nat, seq<nat>>) {
    && TableOk(g, |vol|, fat, 0, dchain, dsecs) && |dsecs| <= MAX_DIR / 512 && SecsInside(vol, dsecs)
    && ZeroTail(Slots(vol, dsecs)) && Unique(Slots(vol, dsecs))
    && Layout(fat, m) && (dchain != [] ==> dchain[0] in m && m[dchain[0]] == dchain)
  }

  /** Entry e names a file with exactly the clusters of chain, which is none of the directory's. */
  ghost predicate FileEntry(g: Geometry, fat: seq<nat>, e: Slot, chain: seq<nat>, dchain: seq<nat>,
                            m: map<nat, seq<nat>>) {
    && g.csize > 0 && Chained(fat, chain, SlotClust(g, e)) && |chain| == Clusters(g, SlotSize(e))
    && (chain != [] ==> chain[0] in m && m[chain[0]] == chain && (dchain != [] ==> chain[0] != dchain[0]))
  }

  /** The entry the window shows lies outside the FAT and outside the file. */
  lemma EntrySafe(d: Dir, chain: seq<nat>, m: map<nat, seq<nat>>)
    requires Usable(d.fs) && d.Table() && d.At() && AllLinked(d.fs.fat, m) && Disjoint(m)
    requires d.chain != [] ==> d.chain[0] in m && m[d.chain[0]] == d.chain
    requires chain != [] ==> chain[0] in m && m[chain[0]] == chain && (d.chain != [] ==> chain[0] != d.chain[0])
    ensures DirSafe(d.fs.geo, |d.fs.vol|, d.fs.fat, chain, d.sect, d.clust)
  {
    hide Valid, FreeCountOk, NoOnes, SecsOf, Linked, FirstSector, Disjoint, Idx, Csect, Run;
    GeoFacts(d.fs);
    TableInside(d);
    var i := Idx(d.fs.geo, d.dptr);
    if d.chain == [] {
      StaticBelow(d.fs.geo, d.secs, d.dptr / 512);
    } else {
      DynamicPosition(d.fs.geo, |d.fs.vol|, d.chain, d.secs, d.dptr);
      ChainStep(d.fs.fat, d.chain, i);
      if chain != [] { HeadsApart(m, d.chain, i, chain); }
      CsectBound(d.fs.geo, d.dptr);
    }
  }

  lemma CsectBound(g: Geometry, p: nat)
    requires g.csize > 0
    ensures Csect(g, p) < g.csize
  {
  }

  lemma StaticBelow(g: Geometry, secs: seq<nat>, i: nat)
    requires RootOk(g) && g.fsType != FAT32 && secs == Run(g.dirbase, g.nRootdir / 16) && i < |secs|
    ensures secs[i] < g.database
  {
  }

  lemma HeadsApart(m: map<nat, seq<nat>>, a: seq<nat>, i: nat, b: seq<nat>)
    requires Disjoint(m) && i < |a| && b != [] && a[0] in m && m[a[0]] == a && b[0] in m && m[b[0]] == b && a[0] != b[0]
    ensures a[i] !in b
  {
    if a[i] in b { assert Owner(m, a[0], a[i]) && Owner(m, b[0], a[i]); }
  }

  /** A file object as its entry and its sectors tell. */
  ghost predicate Loaded(fp: Fil)
    reads fp`secs, fp`body, fp`sclust, fp`objsize, fp.fs`vol
  {
    && fp.dirSect < |fp.fs.vol| && fp.dirOfs + 32 <= 512
    && EntryIs(fp.fs.geo, fp.fs.vol[fp.dirSect], fp.dirOfs, fp.sclust, fp.objsize)
    && |fp.body| == |fp.secs| && forall i | 0 <= i < |fp.secs| ::
      fp.secs[i] < |fp.fs.vol| && fp.body[i] == fp.fs.vol[fp.secs[i]]
  }

  /** The end of f_open: the file object for the entry the window shows. */
  method OpenEntry(d: Dir, created: bool, ghost k: nat, ghost chain: seq<nat>, ghost m: map<nat, seq<nat>>)
    returns (fp: Fil)
    requires Usable(d.fs) && d.Table() && d.At() && d.dptr == k * 32 && d.fs.winsect == d.sect &&
      (created || !d.fs.wflag)
    requires RootOf(d.fs.geo, d.fs.vol, d.fs.fat, d.chain, d.secs, m) && k < |Entries(d)|
    requires FileEntry(d.fs.geo, d.fs.fat, Entries(d)[k], chain, d.chain, m)
    ensures fresh(fp) && fresh(fp.buf) && fp.fs == d.fs && Open(fp, true, m) && fp.chain == chain && fp.fptr == 0
    ensures fp.objsize == SlotSize(Entries(d)[k]) && fp.dirSect == d.sect && fp.dirOfs == d.dptr % 512
    ensures Loaded(fp) && fp.modified == created
  {
    hide Valid, FreeCountOk, NoOnes, Linked, SecsOf, TableOk, Slots, Layout, Clusters, SlotClust, SlotSize, ZeroTail,
      Unique;
    hide EntryClust, EntrySize, DirSafe, Fil.VolumeOk, Fil.BufOk, Fil.WindowOk;
    TableInside(d);
    SlotPlace(d.dptr);
    LayoutParts(d.fs.fat, m);
    EntrySafe(d, chain, m);
    EntryNumber(d, k);
    SlotIs(d, k);
    SlotFields(d.fs.geo, d.fs.vol[d.sect], d.dptr % 512, Entries(d)[k]);
    fp := new Fil(d.fs, true, true, created, d.dptr % 512, d.clust, chain);
  }

  lemma LayoutParts(fat: seq<nat>, m: map<nat, seq<nat>>)
    requires Layout(fat, m)
    ensures AllLinked(fat, m) && Disjoint(m)
  {
  }

  lemma SlotIs(d: Dir, k: nat)
    requires SecsInside(d.fs.vol, d.secs) && k < |Entries(d)| && d.At() && d.dptr == k * 32
    ensures d.sect < |d.fs.vol| && d.dptr % 512 + 32 <= 512
    ensures Entries(d)[k] == d.fs.vol[d.sect][d.dptr % 512..d.dptr % 512 + 32]
  {
    SlotPlace(d.dptr);
  }

  /** The chains of the volume after the directory may have been stretched. */
  ghost method GrowLayout(d: Dir, chainWas: seq<nat>, fatWas: seq<nat>, m: map<nat, seq<nat>>)
    returns (m': map<nat, seq<nat>>)
    requires Usable(d.fs) && d.Table() && Layout(fatWas, m) &&
      (chainWas != [] ==> chainWas[0] in m && m[chainWas[0]] == chainWas)
    requires RegisterFrame(d, chainWas, fatWas)
    ensures Layout(d.fs.fat, m') && (d.chain != [] ==> d.chain[0] in m' && m'[d.chain[0]] == d.chain)
    ensures Others(m', d.chain) == Others(m, chainWas)
  {
    hide Usable, Layout, Linked, Grown;
    GrownLayout(fatWas, d.fs.fat, m, chainWas, d.chain);
    m' := Replaced(m, chainWas, d.chain);
    ReplacedHas(m, chainWas, d.chain);
  }

  /** Filling in a new entry changes no name. */
  lemma CreatedNames(slots: seq<Slot>, k: nat, e: Slot, fn: seq<byte>)
    requires k < |slots| && |fn| == 11 && slots[k] == NewEntry(fn) && e[..11] == slots[k][..11] && !Bit(e[11], AM_VOL)
    requires ZeroTail(slots) && Unique(slots)
    ensures forall name: seq<byte>, j: nat :: Maps(slots[k := e], name, j) <==> Maps(slots, name, j)
    ensures ZeroTail(slots[k := e]) && Unique(slots[k := e])
  {
    hide Maps, ZeroTail, Unique;
    NotLabel(fn);
    SameNames(slots, k, e);
    UniqueSame(slots, slots[k := e]);
  }

  lemma UniqueSame(slots: seq<Slot>, slots': seq<Slot>)
    requires Unique(slots) && forall name: seq<byte>, j: nat :: Maps(slots', name, j) <==> Maps(slots, name, j)
    ensures Unique(slots')
  {
    hide Maps;
  }

  ghost predicate HasName(slots: seq<Slot>, fn: seq<byte>) { exists j: nat :: Maps(slots, fn, j) }

  /** A read-only file or a directory cannot be opened for writing. */
  predicate Refused(e: Slot) { Bit(e[11] % 0x40, AM_RDO) || Bit(e[11] % 0x40, AM_DIR) }

  /** The entry of the name is one that is refused. */
  ghost predicate NameRefused(slots: seq<Slot>, fn: seq<byte>) {
    exists j: nat :: Maps(slots, fn, j) && j < |slots| && Refused(slots[j])
  }

  lemma RefusedAt(slots: seq<Slot>, fn: seq<byte>, k: nat)
    requires Unique(slots) && Maps(slots, fn, k) && k < |slots|
    ensures NameRefused(slots, fn) <==> Refused(slots[k])
  {
    hide Maps, Refused;
  }

  lemma NotRefused(slots: seq<Slot>, fn: seq<byte>)
    ensures !HasName(slots, fn) ==> !NameRefused(slots, fn)
  {
  }

  ghost predicate HasBlank(slots: seq<Slot>) { exists j: nat :: j < |slots| && Blank(slots[j]) }

  lemma NoneBlank(slots: seq<Slot>)
    requires forall j | 0 <= j < |slots| :: !Blank(slots[j])
    ensures !HasBlank(slots)
  {
  }

  /** The first blank slot is in the table if any slot is blank. */
  lemma FirstBlank(slots: seq<Slot>, k: nat)
    requires forall j: nat | j < k && j < |slots| :: !Blank(slots[j])
    ensures HasBlank(slots) ==> k < |slots|
  {
  }

  /** The directory part of f_open with FA_OPEN_ALWAYS: finds the entry or adds it. */
  method FindOrCreate(d: Dir, tm: dword, ghost m: map<nat, seq<nat>>)
    returns (res: FResult, created: bool, ghost m': map<nat, seq<nat>>)
    requires Usable(d.fs) && !d.fs.wflag && d.sclust == 0 && FileName(d.fn)
    requires RootOf(d.fs.geo, d.fs.vol, d.fs.fat, d.chain, d.secs, m)
    modifies d, d.fs`winsect, d.fs`wflag, d.fs`vol, d.fs`fat, d.fs`lastClst, d.fs`freeClst, d.fs`fsiFlag, d.fs.win,
      d.fs.disk`img
    ensures res == OK || res == Denied || (res == DiskErr && !d.fs.disk.reliable)
    ensures res == OK ==> Usable(d.fs) && RootOf(d.fs.geo, d.fs.vol, d.fs.fat, d.chain, d.secs, m')
    ensures res == OK ==> d.At() && d.fs.winsect == d.sect && (created || !d.fs.wflag) && d.dptr / 32 < |Entries(d)|
    ensures res == OK ==> Maps(Entries(d), d.fn, d.dptr / 32) && created == !HasName(old(Entries(d)), d.fn)
    ensures res == OK && created ==> EmptyFile(d.fs.geo, Entries(d)[d.dptr / 32])
    ensures res == OK && created ==> forall name: seq<byte>, j: nat ::
      Maps(Entries(d), name, j) <==> (j == d.dptr / 32 && name == d.fn) || Maps(old(Entries(d)), name, j)
    ensures res == OK && !created ==> SameTable(d) && m' == m && d.attr == Entries(d)[d.dptr / 32][11] % 0x40
    ensures res == OK && HasBlank(old(Entries(d))) ==> d.fs.fat == old(d.fs.fat) && d.chain == old(d.chain)
    ensures res == OK ==> Others(m', d.chain) == Others(m, old(d.chain))
    ensures res == Denied ==> !HasName(old(Entries(d)), d.fn) && !HasBlank(old(Entries(d)))
    ensures res == OK ==> Outside(d.fs.geo, d.secs, old(d.fs.vol), d.fs.vol)
    ensures d.fn == old(d.fn) && (HasName(old(Entries(d)), d.fn) ==> d.fs.disk.img == old(d.fs.disk.img))
  {
    hide Usable, TableOk, OnEntry, SecsInside, Slots, Maps, ZeroTail, Unique, Layout, Linked, Created, SlotClust,
      SlotSize, Live, Outside;
    m', created := m, false;
    ghost var slots, chain, fat, vol := Entries(d), d.chain, d.fs.fat, d.fs.vol;
    res := DirFind(d);
    OutsideRefl(d.fs.geo, d.secs, vol);
    if res == OK { MapsInside(Entries(d), d.fn, d.dptr / 32); return; }
    if res != NoFile { return; }
    res := DirRegister(d);
    if res != OK {
      if res == Denied { NoneBlank(slots); }
      return;
    }
    ghost var k, before, mid := d.dptr / 32, Entries(d), d.fs.vol;
    FirstBlank(slots, k);
    SlotPlace(d.dptr);
    InitEntry(d, k, tm);
    PokeOutside(d, vol, mid);
    CreatedFields(d.fs.geo, before[k], tm);
    CreatedNames(before, k, Created(d.fs.geo, before[k], tm), d.fn);
    m' := GrowLayout(d, chain, fat, m);
    created := true;
  }

  /** Whatever entry has the name belongs to the file with chain. */
  ghost predicate NamedFile(g: Geometry, fat: seq<nat>, slots: seq<Slot>, fn: seq<byte>, chain: seq<nat>,
                            dchain: seq<nat>, m: map<nat, seq<nat>>) {
    forall k: nat | Maps(slots, fn, k) :: k < |slots| && FileEntry(g, fat, slots[k], chain, dchain, m)
  }

  /** fp is the file of slot k of the table, which has the name and is no read-only file or directory. */
  ghost predicate IsEntry(fp: Fil, d: Dir, fn: seq<byte>, k: nat)
    reads d`secs, d.fs`vol
  {
    && k / 16 < |d.secs| && fp.dirSect == d.secs[k / 16] && fp.dirOfs == k % 16 * 32
    && SecsInside(d.fs.vol, d.secs) && Maps(Entries(d), fn, k) && k < |Entries(d)| && !Refused(Entries(d)[k])
  }

  /**
    f_open of a file in the root directory with FA_READ | FA_WRITE | FA_OPEN_ALWAYS. On success the
    file is consistent and at its start; a file that did not exist is new and empty, one that did has
    its old clusters. Read-only files and directories are refused.
  */
  method OpenAlways(fs: Fatfs, fn: seq<byte>, tm: dword, ghost dchain: seq<nat>, ghost dsecs: seq<nat>,
                    ghost chain: seq<nat>, ghost m: map<nat, seq<nat>>)
    returns (res: FResult, fp: Fil?, ghost d: Dir, ghost k: nat, ghost m': map<nat, seq<nat>>)
    requires Usable(fs) && !fs.wflag && FileName(fn) && RootOf(fs.geo, fs.vol, fs.fat, dchain, dsecs, m)
    requires NamedFile(fs.geo, fs.fat, Slots(fs.vol, dsecs), fn, chain, dchain, m)
    modifies fs`winsect, fs`wflag, fs`vol, fs`fat, fs`lastClst, fs`freeClst, fs`fsiFlag, fs.win, fs.disk`img
    ensures res == OK || res == Denied || (res == DiskErr && !fs.disk.reliable)
    ensures res == OK <==> fp != null
    ensures res == Denied ==>
      NameRefused(old(Slots(fs.vol, dsecs)), fn) ||
        (!HasName(old(Slots(fs.vol, dsecs)), fn) && !HasBlank(old(Slots(fs.vol, dsecs))))
    ensures res == OK ==> !NameRefused(old(Slots(fs.vol, dsecs)), fn)
    ensures fp != null ==> fresh(fp) && fresh(fp.buf) && fp.fs == fs && Open(fp, true, m') && fp.fptr == 0
    ensures fp != null ==>
      d.fs == fs && d.secs != [] && RootOf(fs.geo, fs.vol, fs.fat, d.chain, d.secs, m') &&
      Others(m', d.chain) == Others(m, dchain)
    ensures fp != null ==> Outside(fs.geo, d.secs, old(fs.vol), fs.vol) && IsEntry(fp, d, fn, k)
    ensures fp != null ==> Loaded(fp)
    ensures fp != null && HasName(old(Slots(fs.vol, dsecs)), fn) ==>
      fs.vol == old(fs.vol) && fs.fat == old(fs.fat) && d.chain == dchain && d.secs == dsecs && m' == m
    ensures fp != null && !HasName(old(Slots(fs.vol, dsecs)), fn) ==> fp.chain == [] && fp.objsize == 0
    ensures fp != null && HasName(old(Slots(fs.vol, dsecs)), fn) ==> fp.chain == chain && !fp.modified
    ensures HasName(old(Slots(fs.vol, dsecs)), fn) ==> fs.disk.img == old(fs.disk.img)
    ensures fp != null && (HasName(old(Slots(fs.vol, dsecs)), fn) || HasBlank(old(Slots(fs.vol, dsecs)))) ==>
      fs.fat == old(fs.fat)
  {
    hide Usable, TableOk, OnEntry, SecsInside, Slots, Maps, Layout, Linked, SlotClust, SlotSize, Open, ZeroTail,
      Unique, FileEntry;
    hide EmptyFile, HasName, HasBlank, NameRefused, Outside;
    var dj := new Dir(fs, 0, fn, dchain, dsecs);
    d, k, m', fp := dj, 0, m, null;
    var created;
    res, created, m' := FindOrCreate(dj, tm, m);
    if res != OK { return; }
    EntryInTable(dj);
    k := dj.dptr / 32;
    NotRefused(old(Slots(fs.vol, dsecs)), fn);
    if !created {
      RefusedAt(Entries(dj), fn, k);
      if Bit(dj.attr, AM_RDO) || Bit(dj.attr, AM_DIR) { return Denied, null, d, k, m'; }
    } else {
      EmptyEntry(fs.geo, fs.fat, Entries(dj)[k], dj.chain, m');
    }
    fp := OpenEntry(dj, created, k, if created then [] else chain, m');
    if created { EmptySize(fs.geo, Entries(dj)[k]); }
  }

  lemma EntryInTable(d: Dir)
    requires d.At()
    ensures d.secs != [] && d.dptr == d.dptr / 32 * 32 && d.fs.geo.csize > 0
    ensures d.dptr / 32 / 16 < |d.secs| && d.sect == d.secs[d.dptr / 32 / 16] && d.dptr % 512 == d.dptr / 32 % 16 * 32
  {
    SlotPlace(d.dptr);
  }

  lemma EmptyEntry(g: Geometry, fat: seq<nat>, e: Slot, dchain: seq<nat>, m: map<nat, seq<nat>>)
    requires EmptyFile(g, e) && g.csize > 0
    ensures FileEntry(g, fat, e, [], dchain, m)
  {
  }

  lemma EmptySize(g: Geometry, e: Slot)
    requires EmptyFile(g, e)
    ensures SlotSize(e) == 0 && !Refused(e)
  {
    hide SlotSize, SlotClust;
  }
}
