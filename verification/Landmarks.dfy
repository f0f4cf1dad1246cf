/** What a mount and a search of the root directory look at, and what of it has to stay on the disk. */
module Landmarks {
  import opened FatTypes
  import opened Window
  import opened FatEntries
  import opened DirEntry
  import opened FatAccess
  import opened ChainTheory
  import opened ClusterMap
  import opened FileMap
  import opened FileObject
  import opened FileSpec
  import opened FileSync
  import opened FileReopen
  import opened DirectoryMap
  import opened Directory
  import opened FileOpen
  import opened BootSector
  import opened Mount
  import opened PowerLoss

  /** The root directory is read from these clusters and sectors. */
  ghost predicate RootLeads(g: Geometry, disk: nat, fat: seq<nat>, dchain: seq<nat>, dsecs: seq<nat>) {
    if TableStart(g, 0) == 0
    then dchain == [] && RootOk(g) && g.fsType != FAT32 && dsecs == Run(g.dirbase, g.nRootdir / 16)
    else dchain != [] && Leads(fat, dchain) && dchain[0] == TableStart(g, 0) && SecsAre(g, disk, dchain, dsecs)
  }

  /**
    Read from the disk alone: the search of a mount comes to the volume, and in the root directory there
    slot k, and no other, has the name, of a file that can be opened.
  */
  ghost predicate Findable(h: Home, img: seq<Sector>) {
    && Boots(img, h.geo) && (h.sole ==> Only(img, h.geo))
    && RootLeads(h.geo, |img|, FatOf(h.geo, img), h.dchain, h.dsecs)
    && h.k / 16 < |h.dsecs| && SecsInside(img, h.dsecs) && FileName(h.fn)
    && ZeroTail(Slots(img, h.dsecs)) && Unique(Slots(img, h.dsecs))
    && Maps(Slots(img, h.dsecs), h.fn, h.k) && !Refused(Slots(img, h.dsecs)[h.k])
  }

  /** The file of a synced disk is. */
  lemma FindableHome(h: Home, img: seq<Sector>, chain: seq<nat>, m: map<nat, seq<nat>>, data: seq<byte>)
    requires Remountable(h, img, chain, m, data)
    ensures Findable(h, img)
  {
    hide Boots, Only, ValidGeometry, Maps, Refused, ZeroTail, Unique, FileOnDisk, Layout, SecsAre, RootOk, FatOf,
      NoOnes;
  }

  /** Sectors, and the chain of the directory. */
  datatype Marks = Marks(secs: set<nat>, chain: seq<nat>)

  /** Every sector the search of a mount can look at, and the directory. */
  function MarksOf(h: Home, img: seq<Sector>): Marks {
    Marks((set c: nat | c < |img| && BootCandidate(img, c)) + (set s | s in h.dsecs), h.dchain)
  }

  lemma FindableFacts(h: Home, img: seq<Sector>)
    requires Findable(h, img)
    ensures ValidGeometry(h.geo, |img|) && Leads(FatOf(h.geo, img), h.dchain) && h.k / 16 < |h.dsecs|
    ensures forall s | s in MarksOf(h, img).secs :: s < |img|
    ensures h.dsecs[h.k / 16] in MarksOf(h, img).secs && MarksOf(h, img).chain == h.dchain
  {
    hide BootsAs, Only, Slots, Maps, Refused, ZeroTail, Unique, SecsAre, RootOk, FatOf, BootCandidate;
    BootsSize(img, h.geo);
  }

  /** With other sectors changed, and in the slot no more than a file operation changes, the file is still found. */
  lemma FindableKept(h: Home, img: seq<Sector>, img': seq<Sector>)
    requires Findable(h, img) && |img'| == |img| && Distinct(h.dsecs)
    requires forall i | 0 <= i < |h.dsecs| :: !InFat(h.geo, h.dsecs[i])
    requires h.dchain != [] ==> Leads(FatOf(h.geo, img'), h.dchain)
    requires forall s | s in MarksOf(h, img).secs && s != h.dsecs[h.k / 16] :: s < |img| && img'[s] == img[s]
    requires h.geo.volbase < h.dsecs[h.k / 16] < EndOf(h.geo)
    requires EntryKept(img[h.dsecs[h.k / 16]], img'[h.dsecs[h.k / 16]], h.k % 16 * 32)
    ensures Findable(h, img')
  {
    hide BootsAs, Only, ValidGeometry, Slots, Maps, Refused, ZeroTail, Unique, EntryKept, SecsAre, RootOk, FatOf,
      EndOf, Leads, BootCandidate;
    forall c: nat | c < |img| && BootCandidate(img, c) ensures img'[c] == img[c] { assert c in MarksOf(h, img).secs; }
    BootsSame(img, img', h.geo);
    SlotsMarked(h, img, img');
    NamesBeside(Slots(img, h.dsecs), Slots(img', h.dsecs), h.k);
  }

  /** The slots after that. */
  lemma SlotsMarked(h: Home, img: seq<Sector>, img': seq<Sector>)
    requires SecsInside(img, h.dsecs) && |img'| == |img| && h.k / 16 < |h.dsecs| && Distinct(h.dsecs)
    requires forall i | 0 <= i < |h.dsecs| :: !InFat(h.geo, h.dsecs[i])
    requires forall s | s in MarksOf(h, img).secs && s != h.dsecs[h.k / 16] :: s < |img| && img'[s] == img[s]
    requires EntryKept(img[h.dsecs[h.k / 16]], img'[h.dsecs[h.k / 16]], h.k % 16 * 32)
    ensures SecsInside(img', h.dsecs) && |Slots(img', h.dsecs)| == |Slots(img, h.dsecs)| && h.k < |h.dsecs| * 16
    ensures Slots(img', h.dsecs) == Slots(img, h.dsecs)[h.k := Slots(img', h.dsecs)[h.k]]
    ensures Slots(img', h.dsecs)[h.k][..11] == Slots(img, h.dsecs)[h.k][..11]
    ensures Slots(img', h.dsecs)[h.k][11] == Slots(img, h.dsecs)[h.k][11] ||
      Slots(img', h.dsecs)[h.k][11] == SetArchive(Slots(img, h.dsecs)[h.k][11])
  {
    hide Slots, EntryKept, BootCandidate, SetArchive, InFat;
    var d := h.dsecs[h.k / 16];
    var mid := img[d := img'[d]];
    forall i | 0 <= i < |h.dsecs| ensures img'[h.dsecs[i]] == mid[h.dsecs[i]] {
      assert h.dsecs[i] in MarksOf(h, img).secs;
    }
    SlotsBeside(h.geo, [], h.dsecs, h.k, img, mid);
    SlotsFrame(mid, img', h.dsecs);
  }

  // ----- They are out of the way of a file that grows

  /** No FAT update, no file and no new cluster reaches these sectors. */
  ghost predicate Aside(g: Geometry, disk: nat, fat: seq<nat>, secs: seq<nat>, x: Marks) {
    && (forall s | s in x.secs :: s < disk && s !in secs && !InFat(g, s) && !Shadow(g, s) && NotSpare(g, fat, s))
    && (x.chain != [] ==> Linked(fat, x.chain))
  }

  ghost predicate NotSpare(g: Geometry, fat: seq<nat>, s: nat) { forall c: nat | Free(fat, c) :: !InCluster(g, c, s) }

  lemma UsedNotSpare(g: Geometry, fat: seq<nat>, c: nat, s: nat)
    requires InCluster(g, c, s) && !Free(fat, c)
    ensures NotSpare(g, fat, s)
  {
    hide FirstSector;
    forall d: nat | Free(fat, d) ensures !InCluster(g, d, s) {
      if d < c { ClustersApart(g, d, c); } else { ClustersApart(g, c, d); }
    }
  }

  lemma OutsideNotSpare(g: Geometry, disk: nat, fat: seq<nat>, s: nat)
    requires ValidGeometry(g, disk) && |fat| == g.nFatent && (s < g.database || s >= EndOf(g))
    ensures NotSpare(g, fat, s)
  {
    hide FatBytes, Times;
    forall c: nat | Free(fat, c) ensures !InCluster(g, c, s) { TimesMonotone(c - 2, g.nFatent - 2, g.csize); }
  }

  /** Where the search of a mount looks outside the volume, or at its first sector. */
  lemma CandidatesAside(g: Geometry, img: seq<Sector>, fat: seq<nat>, c: nat)
    requires Boots(img, g) && BootCandidate(img, c) && |fat| == g.nFatent
    ensures c < |img| && (c <= g.volbase || c >= EndOf(g)) && !InFat(g, c) && !Shadow(g, c) && NotSpare(g, fat, c)
  {
    hide BootsAs, NotSpare, FatBytes, Times;
    BootsSize(img, g);
    Visible(g, |img|, c);
    OutsideNotSpare(g, |img|, fat, c);
  }

  lemma TableAside(g: Geometry, disk: nat, fat: seq<nat>, dchain: seq<nat>, dsecs: seq<nat>)
    requires ValidGeometry(g, disk) && |fat| == g.nFatent && TableOk(g, disk, fat, 0, dchain, dsecs)
    ensures forall i | 0 <= i < |dsecs| :: NotSpare(g, fat, dsecs[i])
  {
    hide NotSpare, SecsOf, Linked, FirstSector, FatBytes, Times, RootOk, ValidGeometry;
    forall i | 0 <= i < |dsecs| ensures NotSpare(g, fat, dsecs[i]) {
      if dchain == [] {
        StaticRoot(g, dsecs, i);
        OutsideNotSpare(g, disk, fat, dsecs[i]);
      } else {
        var a, j := SecsIndex(g, dchain, i);
        LinkUsed(fat, dchain, a);
        UsedNotSpare(g, fat, dchain[a], dsecs[i]);
      }
    }
  }

  lemma StaticRoot(g: Geometry, dsecs: seq<nat>, i: nat)
    requires RootOk(g) && g.fsType != FAT32 && dsecs == Run(g.dirbase, g.nRootdir / 16) && i < |dsecs|
    ensures dsecs[i] < g.database
  {
  }

  lemma LinkUsed(fat: seq<nat>, chain: seq<nat>, i: nat)
    requires Linked(fat, chain) && i < |chain|
    ensures Cluster(fat, chain[i]) && !Free(fat, chain[i])
  {
  }

  /** The landmarks of a file at home. */
  lemma MarksAside(fp: Fil, h: Home, m: map<nat, seq<nat>>, img: seq<Sector>)
    requires Open(fp, true, m) && Resident(fp, h, m) && Boots(img, h.geo) && |img| == |fp.fs.vol|
    ensures Aside(fp.fs.geo, |fp.fs.vol|, fp.fs.fat, fp.secs, MarksOf(h, img))
    ensures h.k / 16 < |h.dsecs| && Distinct(h.dsecs)
    ensures forall i | 0 <= i < |h.dsecs| :: !InFat(h.geo, h.dsecs[i]) && h.geo.volbase < h.dsecs[i] < EndOf(h.geo)
  {
    hide Boots, Only, NotSpare, ValidGeometry, Linked, SecsAre, TableOk, EndOf, Fil.BufOk, Fil.WindowOk, BodyMatches,
      Fil.Cursor, Fil.Tight, Fil.Synced, BootCandidate, Maps, Refused, ZeroTail, Unique, NoOnes;
    hide InFat, Shadow;
    var g, disk, fat := h.geo, |fp.fs.vol|, fp.fs.fat;
    BootsSize(img, g);
    TableSecs(g, disk, fat, 0, h.dchain, h.dsecs);
    TableApart(g, disk, fat, m, h.dchain, h.dsecs, fp.chain, fp.secs);
    TableBelow(g, disk, fat, h.dchain, h.dsecs);
    TableAside(g, disk, fat, h.dchain, h.dsecs);
    TableChain(g, disk, fat, h.dchain, h.dsecs);
    ChainBelow(g, disk, fat, fp.chain, fp.secs);
    forall c: nat | c < |img| && BootCandidate(img, c)
      ensures c !in fp.secs && !InFat(g, c) && !Shadow(g, c) && NotSpare(g, fat, c)
    {
      CandidatesAside(g, img, fat, c);
    }
  }

  lemma TableChain(g: Geometry, disk: nat, fat: seq<nat>, dchain: seq<nat>, dsecs: seq<nat>)
    requires TableOk(g, disk, fat, 0, dchain, dsecs)
    ensures dchain != [] ==> Linked(fat, dchain)
  {
    hide Linked, SecsAre;
  }
}
