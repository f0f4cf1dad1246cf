/** What is still on the disk after an operation failed, or was cut short, at any point. */
module Survival {
  import opened FatTypes
  import opened BlockDevice
  import opened Window
  import opened FatEntries
  import opened DirEntry
  import opened FatAccess
  import opened ChainTheory
  import opened Chains
  import opened ClusterMap
  import opened FileBytes
  import opened FileMap
  import opened FileObject
  import opened FileSpec
  import opened FileSync
  import opened BlockStore
  import opened PowerLoss
  import opened Landmarks

  /**
    Read from the disk alone: the directory entry, as many clusters as its size needs, and their sectors
    hold the data. Unlike FileOnDisk the chain need not end there.
  */
  ghost predicate PrefixOnDisk(g: Geometry, img: seq<Sector>, dirSect: nat, dirOfs: nat, chain: seq<nat>,
                               data: seq<byte>) {
    && ValidGeometry(g, |img|) && dirSect < |img| && dirOfs + 32 <= 512
    && (chain != [] ==> EntryClust(g, img[dirSect], dirOfs) == chain[0]) && Leads(FatOf(g, img), chain)
    && |data| == EntrySize(img[dirSect], dirOfs) && |chain| == Clusters(g, |data|)
    && (forall k | 0 <= k < |SecsListed(g, chain)| :: SecsListed(g, chain)[k] < |img|)
    && |data| <= |SecsListed(g, chain)| * 512
    && data == Bytes(SectorsAt(img, SecsListed(g, chain)), |data|)
  }

  /** A file on the disk is one of these. */
  lemma FileIsPrefix(g: Geometry, img: seq<Sector>, dirSect: nat, dirOfs: nat, chain: seq<nat>, data: seq<byte>)
    requires FileOnDisk(g, img, dirSect, dirOfs, chain, data)
    ensures PrefixOnDisk(g, img, dirSect, dirOfs, chain, data)
  {
    hide SecsOf, Bytes, Entry, EntryClust, EntrySize, Clusters, ValidGeometry, FatOf;
  }

  /** The disk determines chain and content. */
  lemma PrefixUnique(g: Geometry, img: seq<Sector>, dirSect: nat, dirOfs: nat, c1: seq<nat>, d1: seq<byte>,
                     c2: seq<nat>, d2: seq<byte>)
    requires PrefixOnDisk(g, img, dirSect, dirOfs, c1, d1) && PrefixOnDisk(g, img, dirSect, dirOfs, c2, d2)
    ensures c1 == c2 && d1 == d2
  {
    hide SecsListed, Bytes, Entry, EntryClust, EntrySize, Clusters, ValidGeometry, FatOf;
    if c1 != [] { LeadsUnique(FatOf(g, img), c1, c2, |c1|); }
  }

  lemma {:induction false} LeadsUnique(fat: seq<nat>, c1: seq<nat>, c2: seq<nat>, n: nat)
    requires Leads(fat, c1) && Leads(fat, c2) && n <= |c1| == |c2| && (n > 0 ==> c1[0] == c2[0])
    ensures c1[..n] == c2[..n]
  {
    if n > 1 {
      LeadsUnique(fat, c1, c2, n - 1);
      assert c1[n - 2] == c1[..n - 1][n - 2] && c2[n - 2] == c2[..n - 1][n - 2];
      assert fat[c1[n - 2]] == c1[n - 1] && fat[c2[n - 2]] == c2[n - 1];
    }
  }

  // ----- What the disk is held to

  /** The clusters whose links the recorded size needs. */
  function Inner(chain: seq<nat>): seq<nat> { if chain == [] then [] else chain[..|chain| - 1] }

  /** The file as it is on image img, its entry, links and sectors, and what leads to it. */
  ghost function PromiseOf(g: Geometry, img: seq<Sector>, chain: seq<nat>, dirSect: nat, x: Marks): Promise
    requires ValidGeometry(g, |img|)
  {
    Promise(map s: nat | s < |img| && (s in SecsListed(g, chain) || s == dirSect || s in x.secs) :: img[s],
            map c: nat | c < g.nFatent && (c in Inner(chain) || c in Inner(x.chain)) :: FatOf(g, img)[c])
  }

  lemma PromiseParts(g: Geometry, img: seq<Sector>, chain: seq<nat>, d: nat, x: Marks)
    requires ValidGeometry(g, |img|) && d < |img| && Leads(FatOf(g, img), chain)
    requires forall k | 0 <= k < |SecsListed(g, chain)| :: SecsListed(g, chain)[k] < |img|
    ensures var p := PromiseOf(g, img, chain, d, x);
      && d in p.secs && p.secs[d] == img[d]
      && (forall k | 0 <= k < |SecsListed(g, chain)| ::
            var s := SecsListed(g, chain)[k]; s in p.secs && p.secs[s] == img[s])
      && (forall s | s in x.secs && s < |img| :: s in p.secs && p.secs[s] == img[s])
      && (forall i | 0 <= i < |chain| - 1 :: chain[i] in p.links && p.links[chain[i]] == chain[i + 1])
  {
    hide SecsListed, Entry, ValidGeometry;
    InnerLinks(g, img, chain, x, PromiseOf(g, img, chain, d, x).links);
  }

  lemma InnerLinks(g: Geometry, img: seq<Sector>, chain: seq<nat>, x: Marks, links: map<nat, nat>)
    requires ValidGeometry(g, |img|) && Leads(FatOf(g, img), chain)
    requires forall c: nat | c < g.nFatent && c in Inner(chain) :: c in links && links[c] == FatOf(g, img)[c]
    ensures forall i | 0 <= i < |chain| - 1 :: chain[i] in links && links[chain[i]] == chain[i + 1]
  {
    hide Entry, ValidGeometry;
    forall i | 0 <= i < |chain| - 1 ensures chain[i] in links && links[chain[i]] == chain[i + 1] {
      assert Inner(chain)[i] == chain[i];
      assert FatOf(g, img)[chain[i]] == chain[i + 1];
    }
  }

  /** So are the links of the directory. */
  lemma PromisedMarks(g: Geometry, img: seq<Sector>, chain: seq<nat>, d: nat, x: Marks)
    requires ValidGeometry(g, |img|) && Leads(FatOf(g, img), x.chain)
    ensures var links := PromiseOf(g, img, chain, d, x).links;
      forall i | 0 <= i < |x.chain| - 1 :: x.chain[i] in links && links[x.chain[i]] == x.chain[i + 1]
  {
    hide Entry, ValidGeometry;
    InnerLinks(g, img, x.chain, x, PromiseOf(g, img, chain, d, x).links);
  }

  /** A synced file is promised, and the sectors and links of x with it. */
  ghost method Pledge(fp: Fil, x: Marks)
    requires fp.Sound() && fp.Synced() && Aside(fp.fs.geo, |fp.fs.vol|, fp.fs.fat, fp.secs, x)
    modifies fp.fs`promise
    ensures fp.Sound() && fp.Synced() && ValidGeometry(fp.fs.geo, |fp.fs.disk.img|)
    ensures fp.fs.promise == PromiseOf(fp.fs.geo, fp.fs.disk.img, fp.chain, fp.dirSect, x)
  {
    hide FreeCountOk, NoOnes, Valid, Linked, SecsAre, BodyMatches, DirSafe, PromiseOf, Fil.Cursor, Fil.Tight,
      NoneSpare;
    hide Aside;
    GeoFacts(fp.fs);
    var p := PromiseOf(fp.fs.geo, fp.fs.disk.img, fp.chain, fp.dirSect, x);
    PledgeSecs(fp, x);
    PledgeLinks(fp, x);
    Renew(fp.fs, p);
  }

  lemma PledgeSecs(fp: Fil, x: Marks)
    requires fp.Sound() && fp.Synced() && Aside(fp.fs.geo, |fp.fs.vol|, fp.fs.fat, fp.secs, x)
    ensures ValidGeometry(fp.fs.geo, |fp.fs.disk.img|)
    ensures var p := PromiseOf(fp.fs.geo, fp.fs.disk.img, fp.chain, fp.dirSect, x);
      Keeps(fp.fs.geo, fp.fs.vol, p.secs, ERR32) && NoneSpare(fp.fs.geo, fp.fs.fat, p.secs)
  {
    hide FreeCountOk, NoOnes, Valid, Linked, BodyMatches, SecsOf, Fil.Cursor, Fil.Tight, Fil.BufOk, FatOf,
      ValidGeometry, NotSpare, InCluster, InFat, Shadow, Fil.WindowOk;
    GeoFacts(fp.fs);
    CleanVolume(fp.fs);
    CoreLoose(fp);
    DirFacts(fp);
    Areas(fp.fs.geo, |fp.fs.vol|);
    DataSectors(fp);
    assert SecsListed(fp.fs.geo, fp.chain) == fp.secs;
    var p := PromiseOf(fp.fs.geo, fp.fs.disk.img, fp.chain, fp.dirSect, x);
    forall s, c: nat | s in p.secs && Free(fp.fs.fat, c) ensures !InCluster(fp.fs.geo, c, s) {
      assert NotSpare(fp.fs.geo, fp.fs.fat, s);
      SpareIsNot(fp.fs.geo, fp.fs.fat, s, c);
    }
  }

  lemma SpareIsNot(g: Geometry, fat: seq<nat>, s: nat, c: nat)
    requires NotSpare(g, fat, s) && Free(fat, c)
    ensures !InCluster(g, c, s)
  {
    hide InCluster;
  }

  /** The sectors of the file and of its entry are neither in the FAT nor hidden from the volume nor free. */
  lemma DataSectors(fp: Fil)
    requires fp.Core()
    ensures forall k | 0 <= k < |fp.secs| :: fp.secs[k] < |fp.fs.vol| && fp.secs[k] < ERR32
    ensures forall k | 0 <= k < |fp.secs| :: !InFat(fp.fs.geo, fp.secs[k]) && !Shadow(fp.fs.geo, fp.secs[k])
    ensures forall k | 0 <= k < |fp.secs| :: NotSpare(fp.fs.geo, fp.fs.fat, fp.secs[k])
    ensures NotSpare(fp.fs.geo, fp.fs.fat, fp.dirSect)
  {
    hide FreeCountOk, NoOnes, Decodes, Held, Fatfs.Coherent, Linked, BodyMatches, SecsOf, Times, FatBytes, NotSpare,
      FirstSector;
    GeoFacts(fp.fs);
    var g, fat := fp.fs.geo, fp.fs.fat;
    forall k | 0 <= k < |fp.secs| ensures NotSpare(g, fat, fp.secs[k]) {
      var i, j := SecsIndex(g, fp.chain, k);
      LinkUsed(fat, fp.chain, i);
      UsedNotSpare(g, fat, fp.chain[i], fp.secs[k]);
    }
    if fp.dirSect >= g.database {
      UsedNotSpare(g, fat, fp.dirClust, fp.dirSect);
    } else {
      BelowNotSpare(g, fat, fp.dirSect);
    }
  }

  lemma BelowNotSpare(g: Geometry, fat: seq<nat>, s: nat)
    requires s < g.database
    ensures NotSpare(g, fat, s)
  {
  }

  lemma PledgeLinks(fp: Fil, x: Marks)
    requires fp.Sound() && fp.Synced() && Aside(fp.fs.geo, |fp.fs.vol|, fp.fs.fat, fp.secs, x)
    ensures ValidGeometry(fp.fs.geo, |fp.fs.disk.img|) && |fp.fs.vol| == |fp.fs.disk.img|
    ensures var p := PromiseOf(fp.fs.geo, fp.fs.disk.img, fp.chain, fp.dirSect, x);
      HasLinks(fp.fs.geo, fp.fs.vol, p.links) && HasLinks(fp.fs.geo, fp.fs.disk.img, p.links)
  {
    hide FreeCountOk, NoOnes, SecsAre, BodyMatches, Fil.Cursor, Fil.Tight, Fil.BufOk, Fil.WindowOk, ValidGeometry,
      Entry, Fatfs.Coherent;
    hide Held, Linked, NotSpare;
    GeoFacts(fp.fs);
    CleanFat(fp.fs);
    var p := PromiseOf(fp.fs.geo, fp.fs.disk.img, fp.chain, fp.dirSect, x);
    forall c | c in p.links
      ensures HasEntry(fp.fs.geo, c) && p.links[c] == fp.fs.fat[c] && 2 <= fp.fs.fat[c] < fp.fs.geo.nFatent
    {
      InnerUsed(fp.fs.fat, if c in Inner(fp.chain) then fp.chain else x.chain, c);
    }
  }

  lemma InnerUsed(fat: seq<nat>, chain: seq<nat>, c: nat)
    requires c in Inner(chain) && Linked(fat, chain)
    ensures 2 <= c < |fat| && 2 <= fat[c] < |fat|
  {
    var i: nat :| i < |Inner(chain)| && Inner(chain)[i] == c;
    assert chain[i] == c && Cluster(fat, chain[i]) && Cluster(fat, chain[i + 1]);
    assert fat[chain[i]] == chain[i + 1];
  }

  // ----- What is left of it

  /** Everything but block b of what was recorded on image img0 can still be read from the disk. */
  lemma Torn(g: Geometry, img0: seq<Sector>, img: seq<Sector>, dirSect: nat, dirOfs: nat, chain: seq<nat>,
             data: seq<byte>, x: Marks, now: Promise, secs: seq<nat>, b: nat) returns (left: seq<byte>)
    requires FileOnDisk(g, img0, dirSect, dirOfs, chain, data) && ValidGeometry(g, |img|) && dirSect < |img|
    requires SecsListed(g, chain) <= secs && Distinct(secs) && dirSect !in secs
    requires GivenUp(PromiseOf(g, img0, chain, dirSect, x), now, BlockSector(secs, b) + {dirSect})
    requires img[dirSect] == img0[dirSect] && HasLinks(g, img, now.links)
    requires forall s | s in now.secs :: s < |img| && img[s] == now.secs[s]
    ensures PrefixOnDisk(g, img, dirSect, dirOfs, chain, left) && |left| == |data| && KeepsOthers(data, left, b)
  {
    hide SecsOf, Entry, EntryClust, EntrySize, Clusters, ValidGeometry, SecsListed, PromiseOf, Linked, Bytes;
    FileIsPrefix(g, img0, dirSect, dirOfs, chain, data);
    PromiseParts(g, img0, chain, dirSect, x);
    var list := SecsListed(g, chain);
    LinksLead(g, img, img0, chain, now.links);
    SectorsInside(g, |img|, FatOf(g, img0), chain);
    left := Bytes(SectorsAt(img, list), |data|);
    forall k | 0 <= k < |list| && k != b ensures img[list[k]] == img0[list[k]] {
      SectorLeft(g, img0, img, dirSect, chain, x, now, secs, b, k);
    }
    BytesLeft(SectorsAt(img0, list), SectorsAt(img, list), |data|, b);
  }

  lemma SectorsInside(g: Geometry, disk: nat, fat: seq<nat>, chain: seq<nat>)
    requires ValidGeometry(g, disk) && |fat| == g.nFatent && (chain != [] ==> Linked(fat, chain))
    ensures forall k | 0 <= k < |SecsListed(g, chain)| :: SecsListed(g, chain)[k] < disk
  {
    hide SecsOf, ValidGeometry, Linked;
    ChainSecs(g, disk, fat, chain);
  }

  lemma LinksLead(g: Geometry, img: seq<Sector>, img0: seq<Sector>, chain: seq<nat>, links: map<nat, nat>)
    requires ValidGeometry(g, |img|) && ValidGeometry(g, |img0|) && Leads(FatOf(g, img0), chain) &&
      HasLinks(g, img, links)
    requires forall i | 0 <= i < |chain| - 1 :: chain[i] in links && links[chain[i]] == chain[i + 1]
    ensures Leads(FatOf(g, img), chain)
  {
    hide Entry, ValidGeometry;
    forall i | 0 <= i < |chain| ensures Cluster(FatOf(g, img), chain[i]) { assert Cluster(FatOf(g, img0), chain[i]); }
  }

  /** A promised sector other than that of block b is on the disk as it was. */
  lemma SectorLeft(g: Geometry, img0: seq<Sector>, img: seq<Sector>, dirSect: nat, chain: seq<nat>, x: Marks,
                   now: Promise, secs: seq<nat>, b: nat, k: nat)
    requires ValidGeometry(g, |img0|) && k < |SecsListed(g, chain)| && k != b && dirSect < |img0| && dirSect < |img|
    requires SecsListed(g, chain) <= secs && Distinct(secs) && dirSect !in secs && Leads(FatOf(g, img0), chain)
    requires forall i | 0 <= i < |SecsListed(g, chain)| ::
      SecsListed(g, chain)[i] < |img0| && SecsListed(g, chain)[i] < |img|
    requires GivenUp(PromiseOf(g, img0, chain, dirSect, x), now, BlockSector(secs, b) + {dirSect})
    requires forall s | s in now.secs :: s < |img| && img[s] == now.secs[s]
    ensures img[SecsListed(g, chain)[k]] == img0[SecsListed(g, chain)[k]]
  {
    hide SecsListed, PromiseOf, ValidGeometry;
    PromiseParts(g, img0, chain, dirSect, x);
    var s := SecsListed(g, chain)[k];
    assert secs[k] == s && (b < |secs| ==> secs[b] != s);
    assert s in now.secs;
  }

  /** The same with an entry that was written since, for a file that was not shortened. */
  lemma Rewrote(fp: Fil, img0: seq<Sector>, chain: seq<nat>, data: seq<byte>, x: Marks, secs: seq<nat>, b: nat)
    returns (chain': seq<nat>, left: seq<byte>)
    requires FileOnDisk(fp.fs.geo, img0, fp.dirSect, fp.dirOfs, chain, data)
    requires SecsListed(fp.fs.geo, chain) <= secs <= fp.secs
    requires GivenUp(PromiseOf(fp.fs.geo, img0, chain, fp.dirSect, x), fp.fs.promise,
      BlockSector(secs, b) + {fp.dirSect})
    requires fp.Loose() && fp.Threaded() && |data| <= fp.objsize <= |fp.secs| * 512
    requires fp.dirSect < |fp.fs.disk.img| && fp.dirOfs + 32 <= 512
    requires EntryIs(fp.fs.geo, fp.fs.disk.img[fp.dirSect], fp.dirOfs, fp.sclust, fp.objsize)
    requires ValidGeometry(fp.fs.geo, |fp.fs.disk.img|) && FatOf(fp.fs.geo, fp.fs.disk.img) == fp.fs.fat
    requires forall s | s in fp.fs.promise.secs :: s < |fp.fs.disk.img| && fp.fs.disk.img[s] == fp.fs.promise.secs[s]
    ensures PrefixOnDisk(fp.fs.geo, fp.fs.disk.img, fp.dirSect, fp.dirOfs, chain', left)
    ensures KeepsOthers(data, left, b)
  {
    hide SecsOf, Entry, EntryClust, EntrySize, Clusters, ValidGeometry, SecsListed, PromiseOf, Linked, Bytes, FatOf,
      Leads, Fil.Loose, Valid;
    var g, img := fp.fs.geo, fp.fs.disk.img;
    FileIsPrefix(g, img0, fp.dirSect, fp.dirOfs, chain, data);
    PromiseParts(g, img0, chain, fp.dirSect, x);
    LooseSize(fp);
    chain' := NeededChain(fp);
    var list, was := SecsListed(g, chain'), SecsListed(g, chain);
    left := Bytes(SectorsAt(img, list), fp.objsize);
    forall k | 0 <= k < |was| && k != b && k < |list| ensures img[list[k]] == img0[was[k]] {
      assert was[k] == secs[k] == fp.secs[k] == list[k];
      SectorLeft(g, img0, img, fp.dirSect, chain, x, fp.fs.promise, fp.secs, b, k);
    }
    BytesMore(SectorsAt(img0, was), |data|, SectorsAt(img, list), fp.objsize, b);
    EntryFields(g, img[fp.dirSect], fp.dirOfs, fp.sclust, fp.objsize);
  }

  lemma LooseSize(fp: Fil)
    requires fp.Loose()
    ensures |fp.fs.vol| == |fp.fs.disk.img| == fp.fs.size && fp.fs.geo.csize > 0
  {
    hide Decodes, Held, Times, FatBytes;
  }

  lemma EntryFields(g: Geometry, s: Sector, o: nat, sclust: nat, size: nat)
    requires o + 32 <= 512 && EntryIs(g, s, o, sclust, size)
    ensures EntryClust(g, s, o) == sclust && EntrySize(s, o) == size
  {
    hide EntryClust, EntrySize;
  }

  /** As many clusters as the size needs. */
  lemma NeededChain(fp: Fil) returns (chain: seq<nat>)
    requires fp.Threaded() && fp.fs.geo.csize > 0 && fp.objsize <= |fp.secs| * 512
    ensures |chain| == Clusters(fp.fs.geo, fp.objsize) && Leads(fp.fs.fat, chain)
    ensures chain != [] ==> chain[0] == fp.sclust
    ensures SecsListed(fp.fs.geo, chain) <= fp.secs && fp.objsize <= |SecsListed(fp.fs.geo, chain)| * 512
    ensures forall k | 0 <= k < |SecsListed(fp.fs.geo, chain)| :: SecsListed(fp.fs.geo, chain)[k] < fp.fs.size
    ensures Distinct(fp.secs) && fp.dirSect !in fp.secs
  {
    hide SecsOf, Idx;
    var g, n := fp.fs.geo, Clusters(fp.fs.geo, fp.objsize);
    if fp.objsize > 0 {
      IdxSector(g, fp.objsize - 1);
      if |fp.chain| <= Idx(g, fp.objsize - 1) { TimesMonotone(|fp.chain|, Idx(g, fp.objsize - 1), g.csize); }
    }
    chain := fp.chain[..n];
    SecsPrefix(g, fp.chain, n);
    CoverLemma(g, chain, fp.objsize);
  }

  lemma BytesMore(was: seq<Sector>, n: nat, now: seq<Sector>, m: nat, b: nat)
    requires n <= |was| * 512 && n <= m <= |now| * 512
    requires forall k | 0 <= k < |was| && k != b && k < |now| :: now[k] == was[k]
    ensures KeepsOthers(Bytes(was, n), Bytes(now, m), b)
  {
    forall i: nat | i < n && !(b * 512 <= i < b * 512 + 512) ensures Bytes(now, m)[i] == Bytes(was, n)[i] {
      assert i / 512 != b;
    }
  }

  lemma BytesLeft(was: seq<Sector>, now: seq<Sector>, n: nat, b: nat)
    requires |now| == |was| && n <= |was| * 512 && forall k | 0 <= k < |was| && k != b :: now[k] == was[k]
    ensures KeepsOthers(Bytes(was, n), Bytes(now, n), b)
  {
    forall i: nat | i < n && !(b * 512 <= i < b * 512 + 512) ensures Bytes(now, n)[i] == Bytes(was, n)[i] {
      assert i / 512 != b;
    }
  }

  /** Every byte of d is in d' too, but for those of the blocks in gone. */
  ghost predicate KeepsBut(d: seq<byte>, d': seq<byte>, gone: set<nat>) {
    |d| <= |d'| && forall i: nat | i < |d| && i / 512 !in gone :: d'[i] == d[i]
  }

  lemma OthersBut(d: seq<byte>, d': seq<byte>, b: nat, gone: set<nat>)
    requires KeepsOthers(d, d', b) && (b in gone || b * 512 >= |d|)
    ensures KeepsBut(d, d', gone)
  {
    forall i: nat | i < |d| && i / 512 !in gone ensures d'[i] == d[i] { assert i / 512 != b; }
  }

  /** Read from the disk alone, the file has these bytes, but for those of the blocks in gone. */
  ghost predicate Survives(g: Geometry, img: seq<Sector>, dirSect: nat, dirOfs: nat, data: seq<byte>, gone: set<nat>) {
    exists chain, left :: PrefixOnDisk(g, img, dirSect, dirOfs, chain, left) && KeepsBut(data, left, gone)
  }

  /** The landmarks that were promised, but for the sector of the entry. */
  lemma MarksLeft(g: Geometry, img0: seq<Sector>, img: seq<Sector>, dirSect: nat, chain: seq<nat>, x: Marks,
                  now: Promise, secs: seq<nat>, b: nat)
    requires ValidGeometry(g, |img0|) && ValidGeometry(g, |img|)
    requires Leads(FatOf(g, img0), x.chain) && forall s | s in x.secs :: s < |img0| && s !in secs
    requires GivenUp(PromiseOf(g, img0, chain, dirSect, x), now, BlockSector(secs, b) + {dirSect})
    requires HasLinks(g, img, now.links) && forall s | s in now.secs :: s < |img| && img[s] == now.secs[s]
    ensures forall s | s in x.secs && s != dirSect :: s < |img| && img[s] == img0[s]
    ensures Leads(FatOf(g, img), x.chain)
  {
    hide SecsListed, ValidGeometry, Leads, FatOf;
    PromisedMarks(g, img0, chain, dirSect, x);
    LinksLead(g, img, img0, x.chain, now.links);
    var was := PromiseOf(g, img0, chain, dirSect, x);
    forall s | s in x.secs && s != dirSect ensures s < |img| && img[s] == img0[s] {
      assert s in was.secs && was.secs[s] == img0[s];
      assert s in now.secs;
    }
  }

  // ----- Requests that fail

  /** What was last recorded of a file, if anything: the image it was read from, and what leads to it. */
  datatype Recorded = Recorded(known: bool, img0: seq<Sector>, chain: seq<nat>, data: seq<byte>, x: Marks)

  /** fp was recorded with these clusters and bytes, and has not given up any of it. */
  ghost predicate Since(fp: Fil, rec: Recorded)
    reads fp`secs, fp`body, fp`objsize, fp.fs`promise
  {
    && FileOnDisk(fp.fs.geo, rec.img0, fp.dirSect, fp.dirOfs, rec.chain, rec.data)
    && fp.fs.promise == PromiseOf(fp.fs.geo, rec.img0, rec.chain, fp.dirSect, rec.x)
    && SecsListed(fp.fs.geo, rec.chain) <= fp.secs && fp.Covers() && rec.data <= fp.Data() && |rec.img0| == fp.fs.size
  }

  /** It was recorded together with what leads to it. */
  ghost predicate Marked(h: Home, rec: Recorded) {
    && rec.x == MarksOf(h, rec.img0) && Findable(h, rec.img0) && Distinct(h.dsecs)
    && forall i | 0 <= i < |h.dsecs| :: !InFat(h.geo, h.dsecs[i]) && h.geo.volbase < h.dsecs[i] < EndOf(h.geo)
  }

  /** The sectors that a request, and a sync after it, may damage. */
  function Reached(r: Request, secs: seq<nat>, d: nat): set<nat> {
    (if r.WriteBlock? then BlockSector(secs, r.blockId) else {}) + {d}
  }

  /** What a request that failed, on a file with these sectors and n bytes, leaves of a promise. */
  ghost predicate Left(fp: Fil, r: Request, was: Promise, secs: seq<nat>, n: nat)
    reads fp, fp.fs`winsect, fp.fs`wflag, fp.fs`vol, fp.fs`fat, fp.fs`promise, fp.fs`fsiCount, fp.fs.win, fp.fs.disk
  {
    && fp.Loose() && fp.Threaded() && secs <= fp.secs && n <= fp.objsize <= |fp.secs| * 512
    && GivenUp(was, fp.fs.promise, Reached(r, secs, fp.dirSect))
    && (fp.fs.disk.atomic ==> EntryOldOrNew(fp, was))
    && (fp.modified && fp.dirSect in was.secs ==> fp.dirSect in fp.fs.promise.secs)
  }

  /** The blocks that a request may leave in any state if it fails. */
  function Target(r: Request): set<nat> { if r.WriteBlock? then {r.blockId} else {} }

  /** What is recorded, in terms of the promise, the sectors and the state before a request. */
  ghost predicate RecordedAt(fp: Fil, rec: Recorded, was: Promise, secs: seq<nat>, s: State) {
    && FileOnDisk(fp.fs.geo, rec.img0, fp.dirSect, fp.dirOfs, rec.chain, rec.data)
    && was == PromiseOf(fp.fs.geo, rec.img0, rec.chain, fp.dirSect, rec.x)
    && SecsListed(fp.fs.geo, rec.chain) <= secs && Distinct(secs) && |rec.img0| == fp.fs.size
    && rec.data <= s.data
  }

  /** After a failed request the file can be read from the disk with every recorded byte outside the block written. */
  lemma AfterFailure(fp: Fil, r: Request, rec: Recorded, was: Promise, secs: seq<nat>, s: State)
    requires RecordedAt(fp, rec, was, secs, s) && Left(fp, r, was, secs, |s.data|) && fp.fs.disk.atomic
    ensures Survives(fp.fs.geo, fp.fs.disk.img, fp.dirSect, fp.dirOfs, rec.data, Target(r))
  {
    hide FileOnDisk, PromiseOf, SecsListed, Fil.Loose, Valid, PrefixOnDisk, KeepsBut, GivenUp, ValidGeometry, FatOf,
      SecsAre, Leads;
    var g, img, b := fp.fs.geo, fp.fs.disk.img, if r.WriteBlock? then r.blockId else |secs|;
    RecordedFacts(g, rec.img0, fp.dirSect, fp.dirOfs, rec.chain, rec.data, rec.x);
    StillPromised(fp);
    ReachedBlock(was, fp.fs.promise, r, secs, fp.dirSect, b);
    var chain, left := rec.chain, rec.data;
    if img[fp.dirSect] == was.secs[fp.dirSect] {
      left := Torn(g, rec.img0, img, fp.dirSect, fp.dirOfs, rec.chain, rec.data, rec.x, fp.fs.promise, secs, b);
    } else {
      chain, left := Rewrote(fp, rec.img0, rec.chain, rec.data, rec.x, secs, b);
    }
    OthersBut(rec.data, left, b, Target(r));
    assert PrefixOnDisk(g, img, fp.dirSect, fp.dirOfs, chain, left);
  }

  /** And it can be found there: a mount comes to the volume, a search to its name. */
  lemma FoundAfterFailure(fp: Fil, h: Home, r: Request, rec: Recorded, was: Promise, secs: seq<nat>, s: State)
    requires RecordedAt(fp, rec, was, secs, s) && Left(fp, r, was, secs, |s.data|) && fp.fs.disk.atomic
    requires Marked(h, rec) && fp.fs.geo == h.geo && fp.dirSect == h.dsecs[h.k / 16] && fp.dirOfs == h.k % 16 * 32
    requires forall t | t in rec.x.secs :: t !in secs
    ensures Findable(h, fp.fs.disk.img)
  {
    hide FileOnDisk, PromiseOf, SecsListed, Fil.Loose, Fil.Threaded, Valid, GivenUp, ValidGeometry, Findable, EndOf,
      FatOf, Leads, InFat, MarksOf;
    var img, b := fp.fs.disk.img, if r.WriteBlock? then r.blockId else |secs|;
    RecordedFacts(h.geo, rec.img0, fp.dirSect, fp.dirOfs, rec.chain, rec.data, rec.x);
    StillPromised(fp);
    ReachedBlock(was, fp.fs.promise, r, secs, fp.dirSect, b);
    FindableFacts(h, rec.img0);
    MarksLeft(h.geo, rec.img0, img, fp.dirSect, rec.chain, rec.x, fp.fs.promise, secs, b);
    SameEntry(rec.img0[fp.dirSect], fp.dirOfs);
    FindableKept(h, rec.img0, img);
  }

  lemma RecordedFacts(g: Geometry, img: seq<Sector>, d: nat, o: nat, chain: seq<nat>, data: seq<byte>, x: Marks)
    requires FileOnDisk(g, img, d, o, chain, data)
    ensures ValidGeometry(g, |img|) && d < |img| && o + 32 <= 512 && |data| <= |SecsListed(g, chain)| * 512
    ensures d in PromiseOf(g, img, chain, d, x).secs && PromiseOf(g, img, chain, d, x).secs[d] == img[d]
  {
    hide SecsListed, Linked, Bytes, Clusters, EntryClust, EntrySize, Entry, ValidGeometry, PromiseOf;
    FileIsPrefix(g, img, d, o, chain, data);
    PromiseParts(g, img, chain, d, x);
  }

  lemma StillPromised(fp: Fil)
    requires fp.Loose()
    ensures ValidGeometry(fp.fs.geo, |fp.fs.disk.img|) && |fp.fs.disk.img| == fp.fs.size
    ensures fp.fs.disk.atomic ==> HasLinks(fp.fs.geo, fp.fs.disk.img, fp.fs.promise.links)
    ensures forall s | s in fp.fs.promise.secs :: s < |fp.fs.disk.img| && fp.fs.disk.img[s] == fp.fs.promise.secs[s]
  {
    hide Decodes, HasLinks, ValidGeometry, Copies, SaysFree;
    forall s | s in fp.fs.promise.secs
      ensures s < |fp.fs.disk.img| && fp.fs.disk.img[s] == fp.fs.promise.secs[s]
    {
      PromisedSector(fp.fs, s);
    }
  }

  lemma ReachedBlock(was: Promise, now: Promise, r: Request, secs: seq<nat>, d: nat, b: nat)
    requires GivenUp(was, now, Reached(r, secs, d)) && b == if r.WriteBlock? then r.blockId else |secs|
    ensures GivenUp(was, now, BlockSector(secs, b) + {d})
  {
  }

  /** A synced file is recorded as it is, and on a volume that is laid out with what leads to it. */
  ghost method Record(fp: Fil, h: Home, laid: bool, m: map<nat, seq<nat>>) returns (rec: Recorded)
    requires Open(fp, laid, m) && fp.Synced() && (laid ==> Resident(fp, h, m))
    modifies fp.fs`promise
    ensures Open(fp, laid, m) && fp.Synced() && Since(fp, rec) && rec.known && fp.Covers() && rec.data == fp.Data()
    ensures laid ==> Marked(h, rec)
  {
    hide Fil.Core, Fil.Cursor, Fil.Tight, Among, FileOnDisk, PromiseOf, Marked, Resident, Remountable, Aside, MarksOf;
    var img := fp.fs.disk.img;
    var x := if laid then MarksOf(h, img) else Marks({}, []);
    if laid { MarksNow(fp, h, m); }
    MarksAre(fp, h, laid, x);
    Pledge(fp, x);
    SyncedOnDisk(fp);
    AllSectors(fp);
    SameSize(fp, laid, m);
    rec := Recorded(true, img, fp.chain, fp.Data(), x);
    if laid { MarkedNow(h, rec); }
  }

  lemma AllSectors(fp: Fil)
    requires fp.Core()
    ensures SecsListed(fp.fs.geo, fp.chain) == fp.secs && Distinct(fp.secs)
  {
    hide Fil.VolumeOk, Fil.BufOk, Fil.WindowOk, Chained, BodyMatches, SecsOf;
  }

  /** Nothing is recorded. */
  ghost method Forget(fp: Fil, laid: bool, m: map<nat, seq<nat>>) returns (rec: Recorded)
    requires Open(fp, laid, m)
    modifies fp.fs`promise
    ensures Open(fp, laid, m) && !rec.known
  {
    hide Valid, FreeCountOk, NoOnes, Chained, SecsAre, BodyMatches, DirSafe, Fil.Cursor, Fil.Tight, Fil.Synced, Among;
    Release(fp.fs, NoPromise());
    rec := Recorded(false, [], [], [], Marks({}, []));
  }

  /** Nothing has been given up yet. */
  lemma NothingLeft(fp: Fil, r: Request)
    requires fp.Core() && fp.Covers()
    ensures Left(fp, r, fp.fs.promise, fp.secs, fp.objsize)
  {
    hide Fil.Loose, Fil.Threaded, Fil.Core, EntryOldOrNew;
    CoreLoose(fp);
    CoreThreaded(fp);
    EntryStays(fp);
    NoneGivenUp(fp.fs.promise, Reached(r, fp.secs, fp.dirSect));
  }

  /** The landmarks of a synced file. */
  lemma MarksNow(fp: Fil, h: Home, m: map<nat, seq<nat>>)
    requires Open(fp, true, m) && fp.Synced() && Resident(fp, h, m)
    ensures Aside(fp.fs.geo, |fp.fs.vol|, fp.fs.fat, fp.secs, MarksOf(h, fp.fs.disk.img))
    ensures Findable(h, fp.fs.disk.img) && h.k / 16 < |h.dsecs| && Distinct(h.dsecs)
    ensures forall i | 0 <= i < |h.dsecs| :: !InFat(h.geo, h.dsecs[i]) && h.geo.volbase < h.dsecs[i] < EndOf(h.geo)
  {
    hide Open, Resident, Aside, MarksOf, Fil.Synced, Remountable, InFat, EndOf;
    SameSize(fp, true, m);
    SyncedRemountable(fp, h, m);
    FindableHome(h, fp.fs.disk.img, fp.chain, m, fp.Data());
    MarksAside(fp, h, m, fp.fs.disk.img);
  }

  lemma SameSize(fp: Fil, laid: bool, m: map<nat, seq<nat>>)
    requires Open(fp, laid, m)
    ensures |fp.fs.vol| == |fp.fs.disk.img| == fp.fs.size && fp.Covers() && fp.Sound()
  {
    hide Fil.BufOk, Fil.WindowOk, Chained, SecsAre, BodyMatches, Fil.Cursor, Fil.Tight, Among, Fil.Synced, Decodes,
      Held;
  }

  lemma MarksAre(fp: Fil, h: Home, laid: bool, x: Marks)
    requires laid ==> Aside(fp.fs.geo, |fp.fs.vol|, fp.fs.fat, fp.secs, x)
    requires !laid ==> x == Marks({}, [])
    ensures Aside(fp.fs.geo, |fp.fs.vol|, fp.fs.fat, fp.secs, x)
  {
  }

  lemma MarkedNow(h: Home, rec: Recorded)
    requires rec.x == MarksOf(h, rec.img0) && Findable(h, rec.img0) && Distinct(h.dsecs)
    requires forall i | 0 <= i < |h.dsecs| :: !InFat(h.geo, h.dsecs[i]) && h.geo.volbase < h.dsecs[i] < EndOf(h.geo)
    ensures Marked(h, rec)
  {
  }
}
