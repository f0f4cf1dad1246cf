/** A file that was synced, found again by its name after everything in memory is lost. */
module PowerLoss {
  import opened FatTypes
  import opened BlockDevice
  import opened Window
  import opened FatEntries
  import opened DirEntry
  import opened ChainTheory
  import opened Chains
  import opened ClusterMap
  import opened FileBytes
  import opened FileMap
  import opened FileObject
  import opened FileSpec
  import opened FileSync
  import opened FileReopen
  import opened DirectoryMap
  import opened Directory
  import opened DirectorySearch
  import opened FileOpen
  import opened VolumePlan
  import opened BootSector
  import opened Mount
  import opened Format
  import opened FormatMount

  // ----- Volumes that a mount comes to

  /** First sector behind the clusters. */
  function EndOf(g: Geometry): nat {
    g.database + if g.nFatent >= 2 then Times(g.nFatent - 2, g.csize) else 0
  }

  /** The search of a mount comes to volume g, and looks at no sector of it but the first. */
  ghost predicate Boots(img: seq<Sector>, g: Geometry) {
    && BootsAs(img, g.volbase, g)
    && forall c: nat | BootCandidate(img, c) && c > g.volbase :: c >= EndOf(g)
  }

  /** There is no other volume that a mount with read errors could come to. */
  ghost predicate Only(img: seq<Sector>, g: Geometry) {
    forall b: nat | BootCandidate(img, b) && HasVolume(img, b) :: b == g.volbase
  }

  /** Changes inside the volume do not matter to the search. */
  lemma BootsKept(img: seq<Sector>, img': seq<Sector>, g: Geometry)
    requires Boots(img, g) && |img'| == |img|
    requires forall s: nat | s < |img| && (s <= g.volbase || s >= EndOf(g)) :: img'[s] == img[s]
    ensures Boots(img', g) && img'[g.volbase] == img[g.volbase] && (Only(img, g) ==> Only(img', g))
  {
    hide PartitionStart, BootKind, BootsAs, Only;
    BootsSame(img, img', g);
  }

  /** It looks at no others. */
  lemma BootsSame(img: seq<Sector>, img': seq<Sector>, g: Geometry)
    requires Boots(img, g) && |img'| == |img|
    requires forall c: nat | c < |img| && BootCandidate(img, c) :: img'[c] == img[c]
    ensures Boots(img', g) && g.volbase < |img| && img'[g.volbase] == img[g.volbase]
    ensures Only(img, g) ==> Only(img', g)
  {
    hide PartitionStart, BootKind, ParseBpb, BpbInRange, ValidGeometry, FirstPartition;
    assert BootCandidate(img, 0);
    VolumeLookedAt(img);
    forall c: nat | BootCandidate(img', c) ensures BootCandidate(img, c) && img'[c] == img[c] {}
    if BootKind(img[0]) == NotFat { SamePartition(img, img', 0); }
  }

  lemma VolumeLookedAt(img: seq<Sector>)
    requires VolumeAt(img).Some?
    ensures BootCandidate(img, VolumeAt(img).value)
  {
    hide PartitionStart, BootKind;
    if !HasVolume(img, 0) { StartLookedAt(img, 0); }
  }

  lemma {:induction false} StartLookedAt(img: seq<Sector>, i: nat)
    requires img != [] && i <= 4 && FirstPartition(img, i).Some?
    ensures exists j | 0 <= j < 4 :: PartitionStart(img[0], j) == FirstPartition(img, i).value < |img|
    decreases 4 - i
  {
    hide PartitionStart, BootKind;
    if i < 4 && !PartitionHas(img, i) { StartLookedAt(img, i + 1); }
  }

  lemma {:induction false} SamePartition(img: seq<Sector>, img': seq<Sector>, i: nat)
    requires |img'| == |img| > 0 && img'[0] == img[0] && i <= 4
    requires forall j | 0 <= j < 4 && PartitionStart(img[0], j) < |img| ::
      img'[PartitionStart(img[0], j)] == img[PartitionStart(img[0], j)]
    ensures FirstPartition(img', i) == FirstPartition(img, i)
    decreases 4 - i
  {
    hide PartitionStart, BootKind;
    if i < 4 { SamePartition(img, img', i + 1); }
  }

  /** What f_mkfs has made is such a volume. */
  lemma FormattedBoots(img: seq<Sector>, p: Plan, bVol: nat)
    requires Bootable(img, p, bVol)
    ensures Boots(img, PlanGeometry(p, bVol)) && PlanGeometry(p, bVol).volbase == bVol
    ensures Only(img, PlanGeometry(p, bVol))
  {
    hide Sensible, IsVbr, Trusted, VolumeAt, ParseBpb, ValidGeometry, HasVolume, PartitionStart, Times, BootKind;
    BootableMounts(img, p, bVol);
    forall c: nat | BootCandidate(img, c) ensures c == 0 || c == bVol {
      if c != 0 { CandidateIs(img, p, bVol, c); }
    }
  }

  lemma CandidateIs(img: seq<Sector>, p: Plan, bVol: nat, c: nat)
    requires Bootable(img, p, bVol) && BootCandidate(img, c) && c != 0
    ensures c == bVol
  {
    hide Sensible, PartitionStart, BootKind;
    if bVol != 0 {
      var i :| 0 <= i < 4 && PartitionStart(img[0], i) == c;
      assert i == 0 || i == 1 || i == 2 || i == 3;
    }
  }

  // ----- A file in the root directory of such a volume

  /** Where a file lives: the volume, whether it is the only one, its root directory, and the slot with its name. */
  datatype Home = Home(geo: Geometry, sole: bool, fn: seq<byte>, dchain: seq<nat>, dsecs: seq<nat>, k: nat)

  /** The volume boots and its root directory has the name in that slot, for a file with chain. */
  ghost predicate HomeAt(h: Home, vol: seq<Sector>, fat: seq<nat>, chain: seq<nat>, m: map<nat, seq<nat>>) {
    && Boots(vol, h.geo) && (h.sole ==> Only(vol, h.geo)) && |fat| == h.geo.nFatent && FileName(h.fn)
    && RootOf(h.geo, vol, fat, h.dchain, h.dsecs, m) && h.k / 16 < |h.dsecs|
    && Maps(Slots(vol, h.dsecs), h.fn, h.k) && !Refused(Slots(vol, h.dsecs)[h.k])
    && (chain != [] ==> chain[0] in m && m[chain[0]] == chain && (h.dchain != [] ==> chain[0] != h.dchain[0]))
  }

  /** fp is the file of that slot. */
  ghost predicate Resident(fp: Fil, h: Home, m: map<nat, seq<nat>>)
    reads fp`chain, fp.fs`vol, fp.fs`fat
  {
    && HomeAt(h, fp.fs.vol, fp.fs.fat, fp.chain, m) && fp.fs.geo == h.geo
    && (fp.fs.disk.reliable && HasFsInfo(h.geo, fp.fs.vol) ==> fp.fs.fsiUsed)
    && fp.dirSect == h.dsecs[h.k / 16] && fp.dirOfs == h.k % 16 * 32
  }

  /** No sector of the directory belongs to the file or to the FAT. */
  lemma TableApart(g: Geometry, disk: nat, fat: seq<nat>, m: map<nat, seq<nat>>, dchain: seq<nat>, dsecs: seq<nat>,
                   chain: seq<nat>, secs: seq<nat>)
    requires ValidGeometry(g, disk) && TableOk(g, disk, fat, 0, dchain, dsecs) && Disjoint(m) &&
      SecsAre(g, disk, chain, secs)
    requires dchain != [] ==> dchain[0] in m && m[dchain[0]] == dchain
    requires chain != [] ==> chain[0] in m && m[chain[0]] == chain && (dchain != [] ==> chain[0] != dchain[0])
    ensures forall i | 0 <= i < |dsecs| ::
      dsecs[i] !in secs && !InFat(g, dsecs[i]) && dsecs[i] >= g.fatbase + g.fsize && dsecs[i] < disk
    ensures Distinct(dsecs)
  {
    hide Linked, RootOk, SecsOf, FatBytes, Times, FirstSector, Disjoint;
    TableSecs(g, disk, fat, 0, dchain, dsecs);
    forall i | 0 <= i < |dsecs| ensures dsecs[i] !in secs && dsecs[i] >= g.fatbase + g.fsize {
      if dchain == [] {
        StaticBelow(g, dsecs, i);
        StaticAbove(g, dsecs, i);
      } else if dsecs[i] in secs {
        var k: nat :| k < |secs| && secs[k] == dsecs[i];
        var a, x := SecsIndex(g, dchain, i);
        var b, y := SecsIndex(g, chain, k);
        HeadsApart(m, dchain, a, chain);
        assert chain[b] in chain;
        if dchain[a] < chain[b] {
          ClustersApart(g, dchain[a], chain[b]);
        } else {
          ClustersApart(g, chain[b], dchain[a]);
        }
      }
    }
  }

  lemma StaticAbove(g: Geometry, secs: seq<nat>, i: nat)
    requires RootOk(g) && g.fsType != FAT32 && secs == Run(g.dirbase, g.nRootdir / 16) && i < |secs|
    ensures secs[i] >= g.fatbase + g.fsize
  {
  }

  /** The archive bit is none of those that matter. */
  lemma ArchiveHarmless(a: byte)
    ensures Bit(SetArchive(a), AM_VOL) == Bit(a, AM_VOL)
    ensures Bit(SetArchive(a) % 0x40, AM_RDO) == Bit(a % 0x40, AM_RDO) &&
      Bit(SetArchive(a) % 0x40, AM_DIR) == Bit(a % 0x40, AM_DIR)
  {
    hide Bit;
    var w, q, r := a / 0x40, a / 0x20, a % 0x20;
    if q % 2 == 0 {
      assert a == 0x40 * w + r;
      LowBits(w, r, 0);
      LowBits(w, r, 1);
    }
  }

  lemma LowBits(w: nat, r: nat, b: nat)
    requires r < 0x20 && b < 2 && w < 4
    ensures var a := 0x40 * w + 0x20 * b + r;
      a % 0x40 == 0x20 * b + r && Bit(a, AM_VOL) == ((r / 8) % 2 == 1)
      && Bit(a % 0x40, AM_RDO) == (r % 2 == 1) && Bit(a % 0x40, AM_DIR) == (r / 16 == 1)
  {
    var a := 0x40 * w + 0x20 * b + r;
    DivMod(a, 8, 8 * w + 4 * b + r / 8, r % 8);
    DivMod(a, 0x40, w, 0x20 * b + r);
  }

  /** The slots of the table after the file was worked on: only its own slot may have changed, and there no name. */
  lemma SlotsBeside(g: Geometry, secs: seq<nat>, dsecs: seq<nat>, k: nat, vol: seq<Sector>, vol': seq<Sector>)
    requires SecsInside(vol, dsecs) && k / 16 < |dsecs| && Distinct(dsecs)
    requires Beside(g, secs, dsecs[k / 16], k % 16 * 32, vol, vol')
    requires forall i | 0 <= i < |dsecs| :: dsecs[i] !in secs && !InFat(g, dsecs[i])
    ensures SecsInside(vol', dsecs) && k < |Slots(vol, dsecs)|
    ensures Slots(vol', dsecs) == Slots(vol, dsecs)[k := Slots(vol', dsecs)[k]]
    ensures Slots(vol', dsecs)[k][..11] == Slots(vol, dsecs)[k][..11]
    ensures Slots(vol', dsecs)[k][11] == Slots(vol, dsecs)[k][11] ||
      Slots(vol', dsecs)[k][11] == SetArchive(Slots(vol, dsecs)[k][11])
  {
    hide SetArchive, InFat;
    var s, t, o := vol[dsecs[k / 16]], vol'[dsecs[k / 16]], k % 16 * 32;
    var a, b := Slots(vol, dsecs), Slots(vol', dsecs);
    forall j: nat | j < |a| && j != k ensures b[j] == a[j] {
      if j / 16 == k / 16 {
        assert s[j % 16 * 32..j % 16 * 32 + 32] == t[j % 16 * 32..j % 16 * 32 + 32];
      } else {
        assert dsecs[j / 16] != dsecs[k / 16];
      }
    }
    assert t[o..o + 32][..11] == s[o..o + 32][..11];
  }

  /** So the directory has the same names. */
  lemma NamesBeside(slots: seq<Slot>, slots': seq<Slot>, k: nat)
    requires k < |slots| == |slots'| && slots' == slots[k := slots'[k]] && slots'[k][..11] == slots[k][..11]
    requires slots'[k][11] == slots[k][11] || slots'[k][11] == SetArchive(slots[k][11])
    requires ZeroTail(slots) && Unique(slots)
    ensures ZeroTail(slots') && Unique(slots') && Refused(slots'[k]) == Refused(slots[k])
    ensures forall name: seq<byte>, j: nat :: Maps(slots', name, j) <==> Maps(slots, name, j)
  {
    hide Maps, ZeroTail, Unique, SetArchive;
    ArchiveHarmless(slots[k][11]);
    SameNames(slots, k, slots'[k]);
    UniqueSame(slots, slots');
  }

  /** Neither the file nor the directory nor the FAT has a sector that the search looks at. */
  lemma BootBeside(h: Home, secs: seq<nat>, dirSect: nat, dirOfs: nat, vol: seq<Sector>, vol': seq<Sector>)
    requires Boots(vol, h.geo) && Beside(h.geo, secs, dirSect, dirOfs, vol, vol')
    requires h.geo.fatbase <= dirSect < EndOf(h.geo)
    requires forall i | 0 <= i < |secs| :: h.geo.database <= secs[i] < EndOf(h.geo)
    ensures Boots(vol', h.geo) && vol'[h.geo.volbase] == vol[h.geo.volbase]
    ensures Only(vol, h.geo) ==> Only(vol', h.geo)
  {
    hide Only, BootsAs, Times, FatBytes, EntryKept, BootCandidate;
    BootsSize(vol, h.geo);
    BootsKept(vol, vol', h.geo);
  }

  lemma BootsSize(img: seq<Sector>, g: Geometry)
    requires Boots(img, g)
    ensures ValidGeometry(g, |img|) && g.volbase < |img| < 0x1_0000_0000
    ensures g.volbase < g.fatbase && g.fatbase + g.fsize <= g.database <= EndOf(g) <= |img|
  {
    hide Trusted, VolumeAt, ParseBpb, FatBytes, Times, BootCandidate;
  }

  /** Working on the file keeps it at home. */
  lemma HomeKept(h: Home, vol: seq<Sector>, fat: seq<nat>, chain: seq<nat>, m: map<nat, seq<nat>>, vol': seq<Sector>,
                 fat': seq<nat>, chain': seq<nat>, m': map<nat, seq<nat>>, secs': seq<nat>)
    requires HomeAt(h, vol, fat, chain, m) && Beside(h.geo, secs', h.dsecs[h.k / 16], h.k % 16 * 32, vol, vol')
    requires Layout(fat', m') && (chain' != [] ==> chain'[0] in m' && m'[chain'[0]] == chain') && |fat'| == |fat|
    requires Others(m', chain') == Others(m, chain) && SecsAre(h.geo, |vol'|, chain', secs')
    ensures HomeAt(h, vol', fat', chain', m') && (HasFsInfo(h.geo, vol') <==> HasFsInfo(h.geo, vol))
  {
    hide Boots, Only, ValidGeometry, Slots, Maps, Refused, ZeroTail, Unique, Linked, SecsAre, RootOk, Disjoint,
      Covered, Beside, SecsInside;
    BootsSize(vol, h.geo);
    DirectoryStays(h.dchain, chain, m, chain', m');
    LayoutParts(fat', m');
    TableStays(h, |vol|, fat, fat', m');
    SameLength(h, secs', vol, vol');
    TableApart(h.geo, |vol'|, fat', m', h.dchain, h.dsecs, chain', secs');
    TableBelow(h.geo, |vol|, fat', h.dchain, h.dsecs);
    if chain' != [] { LayoutLinked(fat', m', chain'[0]); }
    ChainBelow(h.geo, |vol|, fat', chain', secs');
    BootBeside(h, secs', h.dsecs[h.k / 16], h.k % 16 * 32, vol, vol');
    SlotsBeside(h.geo, secs', h.dsecs, h.k, vol, vol');
    NamesBeside(Slots(vol, h.dsecs), Slots(vol', h.dsecs), h.k);
  }

  lemma ResidentKept(fp: Fil, h: Home, vol: seq<Sector>, fat: seq<nat>, chain: seq<nat>, m: map<nat, seq<nat>>,
                     m': map<nat, seq<nat>>)
    requires HomeAt(h, vol, fat, chain, m) && fp.fs.geo == h.geo && |fp.fs.fat| == |fat|
    requires fp.fs.disk.reliable && HasFsInfo(h.geo, vol) ==> fp.fs.fsiUsed
    requires h.k / 16 < |h.dsecs| && fp.dirSect == h.dsecs[h.k / 16] && fp.dirOfs == h.k % 16 * 32
    requires Open(fp, true, m') && Others(m', fp.chain) == Others(m, chain)
    requires Beside(fp.fs.geo, fp.secs, fp.dirSect, fp.dirOfs, vol, fp.fs.vol)
    ensures Resident(fp, h, m')
  {
    hide HomeAt, Layout, Others, Beside, SecsAre, Fil.VolumeOk, Fil.BufOk, Fil.WindowOk, BodyMatches, Fil.Cursor,
      Fil.Tight, Fil.Synced;
    SameLength(h, fp.secs, vol, fp.fs.vol);
    HomeKept(h, vol, fat, chain, m, fp.fs.vol, fp.fs.fat, fp.chain, m', fp.secs);
  }

  lemma SameLength(h: Home, secs: seq<nat>, vol: seq<Sector>, vol': seq<Sector>)
    requires h.k / 16 < |h.dsecs| && Beside(h.geo, secs, h.dsecs[h.k / 16], h.k % 16 * 32, vol, vol')
    ensures |vol'| == |vol|
  {
  }

  /** Chains and tables lie below the end of the volume. */
  lemma ChainBelow(g: Geometry, disk: nat, fat: seq<nat>, chain: seq<nat>, secs: seq<nat>)
    requires ValidGeometry(g, disk) && |fat| == g.nFatent && SecsAre(g, disk, chain, secs)
    requires chain != [] ==> Linked(fat, chain)
    ensures forall i | 0 <= i < |secs| :: g.database <= secs[i] < EndOf(g)
  {
    hide SecsOf, Times, FatBytes, Linked;
    ChainSecs(g, EndOf(g), fat, chain);
  }

  lemma TableBelow(g: Geometry, disk: nat, fat: seq<nat>, dchain: seq<nat>, dsecs: seq<nat>)
    requires ValidGeometry(g, disk) && |fat| == g.nFatent && TableOk(g, disk, fat, 0, dchain, dsecs)
    ensures forall i | 0 <= i < |dsecs| :: dsecs[i] < EndOf(g)
  {
    hide Times, FatBytes, SecsAre, Linked;
    if dchain != [] { ChainBelow(g, disk, fat, dchain, dsecs); }
  }

  /** The directory's chain is one of the others. */
  lemma DirectoryStays(dchain: seq<nat>, chain: seq<nat>, m: map<nat, seq<nat>>, chain': seq<nat>,
                       m': map<nat, seq<nat>>)
    requires Others(m', chain') == Others(m, chain)
    requires dchain != [] ==> dchain[0] in m && m[dchain[0]] == dchain && (chain != [] ==> chain[0] != dchain[0])
    ensures dchain != [] ==> dchain[0] in m' && m'[dchain[0]] == dchain && (chain' != [] ==> chain'[0] != dchain[0])
  {
    if dchain != [] { assert dchain[0] in Others(m, chain) && Others(m, chain)[dchain[0]] == dchain; }
  }

  lemma TableStays(h: Home, disk: nat, fat: seq<nat>, fat': seq<nat>, m': map<nat, seq<nat>>)
    requires TableOk(h.geo, disk, fat, 0, h.dchain, h.dsecs) && AllLinked(fat', m')
    requires h.dchain != [] ==> h.dchain[0] in m' && m'[h.dchain[0]] == h.dchain
    ensures TableOk(h.geo, disk, fat', 0, h.dchain, h.dsecs)
  {
    hide Linked, SecsAre, RootOk;
  }

  // ----- What is on the disk, and coming back to it

  /** The disk alone has the volume, the directory, the file and its content. */
  ghost predicate Remountable(h: Home, img: seq<Sector>, chain: seq<nat>, m: map<nat, seq<nat>>, data: seq<byte>) {
    && ValidGeometry(h.geo, |img|) && HomeAt(h, img, FatOf(h.geo, img), chain, m) && NoOnes(FatOf(h.geo, img))
    && FileOnDisk(h.geo, img, h.dsecs[h.k / 16], h.k % 16 * 32, chain, data)
  }

  /** With nothing pending the disk is the volume, but for the FSInfo sector. */
  lemma CleanHome(h: Home, vol: seq<Sector>, img: seq<Sector>, fat: seq<nat>, chain: seq<nat>, m: map<nat, seq<nat>>)
    requires HomeAt(h, vol, fat, chain, m) && |img| == |vol|
    requires forall s | 0 <= s < |vol| && !Shadow(h.geo, s) :: img[s] == vol[s]
    ensures HomeAt(h, img, fat, chain, m) && (HasFsInfo(h.geo, img) <==> HasFsInfo(h.geo, vol))
  {
    hide Boots, Only, ValidGeometry, Slots, Maps, Refused, ZeroTail, Unique, Linked, SecsAre, RootOk, Layout, TableOk,
      Shadow;
    BootsSize(vol, h.geo);
    TableSecs(h.geo, |vol|, fat, 0, h.dchain, h.dsecs);
    forall s: nat | s < |vol| && (s <= h.geo.volbase || s >= EndOf(h.geo)) ensures img[s] == vol[s] {
      Visible(h.geo, |vol|, s);
    }
    BootsKept(vol, img, h.geo);
    SlotsFrame(vol, img, h.dsecs);
  }

  lemma Visible(g: Geometry, disk: nat, s: nat)
    requires ValidGeometry(g, disk) && (s <= g.volbase || s >= EndOf(g))
    ensures !Shadow(g, s)
  {
    hide Times, FatBytes;
  }

  /** After a successful f_sync, on any disk; the free count is right too if it was so in memory and no write of
      FSInfo failed. */
  lemma SyncedRemountable(fp: Fil, h: Home, m: map<nat, seq<nat>>)
    requires Open(fp, true, m) && Resident(fp, h, m) && fp.Synced()
    ensures Remountable(h, fp.fs.disk.img, fp.chain, m, fp.Data())
    ensures ValidGeometry(h.geo, |fp.fs.disk.img|) && FatOf(h.geo, fp.fs.disk.img) == fp.fs.fat
    ensures fp.fs.disk.reliable && fp.fs.exact && (fp.fs.fsiUsed ==> fp.fs.fsiFlag == 0) ==>
      CountSaved(h.geo, fp.fs.disk.img)
  {
    hide HomeAt, FileOnDisk, Fil.BufOk, Fil.WindowOk, BodyMatches, SecsAre, Idx, Clusters, Among, Entry,
      ValidGeometry, Shadow, NoOnes, Linked;
    hide CountSaved;
    GeoFacts(fp.fs);
    SyncedReopenable(fp);
    CleanFat(fp.fs);
    CleanVolume(fp.fs);
    CleanHome(h, fp.fs.vol, fp.fs.disk.img, fp.fs.fat, fp.chain, m);
    if fp.fs.disk.reliable && fp.fs.exact && (fp.fs.fsiUsed ==> fp.fs.fsiFlag == 0) { SavedCount(fp.fs); }
  }

  /**
    The write of FSInfo is allowed to fail. Whatever it leaves there, the file survives; the count that
    the next mount loads is right or unknown exactly if that sector says so.
  */
  lemma FsInfoLost(h: Home, img: seq<Sector>, chain: seq<nat>, m: map<nat, seq<nat>>, data: seq<byte>, s: Sector)
    requires Remountable(h, img, chain, m, data) && h.geo.fsType == FAT32
    ensures h.geo.volbase + 1 < |img| && ValidGeometry(h.geo, |img|)
    ensures Remountable(h, img[h.geo.volbase + 1 := s], chain, m, data)
    ensures CountSaved(h.geo, img[h.geo.volbase + 1 := s]) <==>
      !HasFsInfo(h.geo, img) || FsInfoCounts(s).0 > h.geo.nFatent - 2 ||
        FsInfoCounts(s).0 == CountFree(FatOf(h.geo, img))
  {
    hide HomeAt, FileOnDisk, Entry, ValidGeometry, Shadow, NoOnes, Linked, LdWord, FsInfoCounts, CountFree, FatOf,
      InFat;
    HomeAreas(h, img, FatOf(h.geo, img), chain, m);
    var img' := img[h.geo.volbase + 1 := s];
    assert forall t | 0 <= t < |img| && t != h.geo.volbase + 1 :: img'[t] == img[t];
    ShadowFat(h.geo, img, img');
    CleanHome(h, img, img', FatOf(h.geo, img), chain, m);
    OnDiskFrame(h.geo, img, img', h.dsecs[h.k / 16], h.k % 16 * 32, chain, data);
  }

  lemma HomeAreas(h: Home, img: seq<Sector>, fat: seq<nat>, chain: seq<nat>, m: map<nat, seq<nat>>)
    requires HomeAt(h, img, fat, chain, m)
    ensures ValidGeometry(h.geo, |img|) && |fat| == h.geo.nFatent && h.k / 16 < |h.dsecs| &&
      !Shadow(h.geo, h.dsecs[h.k / 16])
    ensures h.geo.fsType == FAT32 ==> h.geo.volbase + 1 < |img| && Shadow(h.geo, h.geo.volbase + 1)
  {
    hide Boots, Slots, Maps, Refused, ZeroTail, Unique, Linked, SecsAre, RootOk, Layout, TableOk, Shadow;
    BootsSize(img, h.geo);
    TableSecs(h.geo, |img|, fat, 0, h.dchain, h.dsecs);
    AfterBoot(h.geo, |img|);
  }

  lemma AfterBoot(g: Geometry, disk: nat)
    requires ValidGeometry(g, disk)
    ensures g.fsType == FAT32 ==> g.volbase + 1 < disk && Shadow(g, g.volbase + 1)
  {
  }

  /** FAT and file do not depend on the sectors outside the logical volume. */
  lemma ShadowFat(g: Geometry, img: seq<Sector>, img': seq<Sector>)
    requires ValidGeometry(g, |img|) && |img'| == |img| && forall s | 0 <= s < |img| && !Shadow(g, s) ::
      img'[s] == img[s]
    ensures FatOf(g, img') == FatOf(g, img)
  {
    hide Entry;
    Areas(g, |img|);
    DecodesFrame(g, img, img', FatOf(g, img));
  }

  lemma OnDiskFrame(g: Geometry, img: seq<Sector>, img': seq<Sector>, dirSect: nat, dirOfs: nat, chain: seq<nat>,
                    data: seq<byte>)
    requires FileOnDisk(g, img, dirSect, dirOfs, chain, data) && !Shadow(g, dirSect)
    requires |img'| == |img| && forall s | 0 <= s < |img| && !Shadow(g, s) :: img'[s] == img[s]
    ensures FileOnDisk(g, img', dirSect, dirOfs, chain, data)
  {
    hide Linked, SecsOf, Bytes, Clusters, EntryClust, EntrySize, FatOf;
    ShadowFat(g, img, img');
    Areas(g, |img|);
    assert SectorsAt(img', SecsListed(g, chain)) == SectorsAt(img, SecsListed(g, chain));
  }

  /** Such a disk with a count that was saved earlier, when the number of free clusters was another one. */
  lemma StaleCount(h: Home, img: seq<Sector>, chain: seq<nat>, m: map<nat, seq<nat>>, data: seq<byte>, free: dword,
                   last: dword)
    requires Remountable(h, img, chain, m, data) && HasFsInfo(h.geo, img)
    requires free <= h.geo.nFatent - 2 && ValidGeometry(h.geo, |img|) && free != CountFree(FatOf(h.geo, img))
    ensures h.geo.volbase + 1 < |img| && !CountSaved(h.geo, img[h.geo.volbase + 1 := FsInfoSector(free, last)])
    ensures Remountable(h, img[h.geo.volbase + 1 := FsInfoSector(free, last)], chain, m, data)
  {
    hide Remountable, CountSaved, CountFree, FatOf, FsInfoSector, FsInfoCounts, LdWord, ValidGeometry;
    FsInfoLost(h, img, chain, m, data, FsInfoSector(free, last));
    SavedCounts(free, last);
  }

  /** What a mount of such a disk has loaded. */
  lemma MountedHome(fs: Fatfs, h: Home, chain: seq<nat>, m: map<nat, seq<nat>>, data: seq<byte>)
    requires Attached(fs, h.geo.volbase) && Remountable(h, fs.vol, chain, m, data)
    ensures Usable(fs) && fs.geo == h.geo && fs.fat == FatOf(h.geo, fs.vol)
    ensures fs.disk.reliable && HasFsInfo(h.geo, fs.vol) ==> fs.fsiUsed
    ensures fs.disk.reliable ==> (fs.exact <==> CountSaved(h.geo, fs.vol))
  {
    hide FileOnDisk, ValidGeometry, ParseBpb, Entry, FsInfoCounts, CountFree, NoOnes, RootOf, LdWord, Maps, Refused,
      FatOf, Decodes;
    hide Fatfs.Coherent, Trusted, VolumeAt, BootCandidate, Only;
    if fs.disk.reliable { LoadedCount(fs); }
    ValidFacts(fs);
  }

  lemma HasClusters(g: Geometry, disk: nat)
    requires ValidGeometry(g, disk)
    ensures g.csize > 0
  {
  }

  /** The entry names the file. */
  lemma EntryNames(h: Home, img: seq<Sector>, chain: seq<nat>, m: map<nat, seq<nat>>, data: seq<byte>)
    requires Remountable(h, img, chain, m, data)
    ensures var fat, slots := FatOf(h.geo, img), Slots(img, h.dsecs);
      && RootOf(h.geo, img, fat, h.dchain, h.dsecs, m) && HasName(slots, h.fn) && !NameRefused(slots, h.fn)
      && NamedFile(h.geo, fat, slots, h.fn, chain, h.dchain, m)
  {
    hide Boots, ValidGeometry, Maps, Refused, ZeroTail, Layout, TableOk, FatOf, Linked, Bytes, SecsAre, Entry, NoOnes,
      Clusters;
    hide EntryClust, EntrySize, SlotClust, SlotSize;
    var slots := Slots(img, h.dsecs);
    HasClusters(h.geo, |img|);
    MapsInside(slots, h.fn, h.k);
    RefusedAt(slots, h.fn, h.k);
    assert slots[h.k] == img[h.dsecs[h.k / 16]][h.k % 16 * 32..h.k % 16 * 32 + 32];
    SlotFields(h.geo, img[h.dsecs[h.k / 16]], h.k % 16 * 32, slots[h.k]);
  }

  /**
    Everything in memory is lost; the disk is mounted, the file opened by its name, and there it is
    with the content it was synced with, ready to be worked on. A disk that fails is left as it is; if it
    has another volume besides, a read error may lead there instead.
  */
  method Remount(disk: Disk, id: nat, fn: seq<byte>, tm: dword, ghost h: Home, ghost chain: seq<nat>,
                 ghost m: map<nat, seq<nat>>, ghost data: seq<byte>)
    returns (res: FResult, fp: Fil?)
    requires (disk.reliable || h.sole) && Remountable(h, disk.img, chain, m, data) && fn == h.fn
    modifies disk`img
    ensures (res == OK <==> fp != null) && (disk.reliable ==> res == OK) && disk.img == old(disk.img)
    ensures fp != null ==> fresh(fp) && fresh(fp.buf) && fresh(fp.fs) && fresh(fp.fs.win) && fp.fs.disk == disk
    ensures fp != null ==> Open(fp, true, m) && Resident(fp, h, m) && fp.chain == chain && fp.fptr == 0
    ensures fp != null ==> fp.Covers() && fp.Data() == data && fp.Synced()
    ensures fp != null ==> ValidGeometry(h.geo, |old(disk.img)|) && fp.fs.fat == FatOf(h.geo, old(disk.img))
    ensures fp != null && disk.reliable ==> (fp.fs.exact <==> CountSaved(h.geo, old(disk.img)))
  {
    hide Remountable, Resident, Usable, RootOf, NamedFile, Slots, HasName, HasBlank, NameRefused, Open, IsEntry,
      Loaded;
    hide Fil.Covers, FatOf, CountSaved, Fil.Synced;
    fp := null;
    ghost var img := disk.img;
    var fs;
    res, fs := MountHome(disk, id, h, chain, m, data);
    if res != OK { return; }
    EntryNames(h, img, chain, m, data);
    ghost var d, k, m';
    res, fp, d, k, m' := OpenAlways(fs, fn, tm, h.dchain, h.dsecs, chain, m);
    if res != OK { return; }
    SameSlot(fp, d, h, k, chain, m, data);
    SameContent(fp, h, img, chain, m, data);
    OpenedSynced(fp, m);
  }

  lemma OpenedSynced(fp: Fil, m: map<nat, seq<nat>>)
    requires Open(fp, true, m) && !fp.modified
    ensures fp.Synced()
  {
    hide Fil.Sound, Fil.Synced, Among;
  }

  /** The mount of such a disk. */
  method MountHome(disk: Disk, id: nat, ghost h: Home, ghost chain: seq<nat>, ghost m: map<nat, seq<nat>>,
                   ghost data: seq<byte>)
    returns (res: FResult, fs: Fatfs?)
    requires (disk.reliable || h.sole) && Remountable(h, disk.img, chain, m, data)
    ensures (res == OK <==> fs != null) && (disk.reliable ==> res == OK)
    ensures fs != null ==> fresh(fs) && fresh(fs.win) && fs.disk == disk && Usable(fs) && !fs.wflag
    ensures fs != null ==> fs.vol == disk.img && fs.geo == h.geo
    ensures fs != null ==> ValidGeometry(h.geo, |fs.vol|) && fs.fat == FatOf(h.geo, fs.vol) && FileName(h.fn)
    ensures fs != null && disk.reliable ==>
      (HasFsInfo(h.geo, fs.vol) ==> fs.fsiUsed) && (fs.exact <==> CountSaved(h.geo, fs.vol))
  {
    hide Remountable, Usable, Attached, Trusted, VolumeAt, ParseBpb, ValidGeometry, FatOf, BootCandidate, HasVolume,
      Outcomes, Settled;
    hide CountSaved, HasFsInfo;
    ghost var b, kinds;
    HomeBoots(h, disk.img, chain, m, data);
    res, fs, b, kinds := FindVolume(disk, id);
    if fs != null {
      AttachedParts(fs, h.geo.volbase);
      MountedHome(fs, h, chain, m, data);
    }
  }

  lemma HomeBoots(h: Home, img: seq<Sector>, chain: seq<nat>, m: map<nat, seq<nat>>, data: seq<byte>)
    requires Remountable(h, img, chain, m, data)
    ensures h.geo.volbase < |img| < 0x1_0000_0000 && img != [] && Trusted(img) && VolumeAt(img) == Some(h.geo.volbase)
    ensures ParseBpb(img[h.geo.volbase], h.geo.volbase).Some? && FileName(h.fn) && ValidGeometry(h.geo, |img|)
    ensures h.sole ==> Only(img, h.geo)
  {
    hide Only, BootCandidate, HasVolume, BpbInRange, ValidGeometry, VolumeAt, ParseBpb, RootOf, FileOnDisk, NoOnes,
      Maps, Refused;
  }

  /** The name leads to the slot it had. */
  lemma SameSlot(fp: Fil, d: Dir, h: Home, k: nat, chain: seq<nat>, m: map<nat, seq<nat>>, data: seq<byte>)
    requires Remountable(h, fp.fs.vol, chain, m, data) && fp.fs.geo == h.geo && fp.fs.fat == FatOf(h.geo, fp.fs.vol)
    requires fp.fs.disk.reliable && HasFsInfo(h.geo, fp.fs.vol) ==> fp.fs.fsiUsed
    requires d.fs == fp.fs && d.secs == h.dsecs && IsEntry(fp, d, h.fn, k) && fp.chain == chain
    ensures Resident(fp, h, m)
  {
    hide Boots, ValidGeometry, Maps, Refused, ZeroTail, Layout, TableOk, FatOf, FileOnDisk, NoOnes, HasFsInfo;
    assert k == h.k;
  }

  lemma SameContent(fp: Fil, h: Home, img: seq<Sector>, chain: seq<nat>, m: map<nat, seq<nat>>, data: seq<byte>)
    requires Open(fp, true, m) && Resident(fp, h, m) && Loaded(fp) && fp.fs.vol == img && fp.chain == chain
    requires Remountable(h, img, chain, m, data)
    ensures fp.Covers() && fp.Data() == data
  {
    hide HomeAt, Entry, EntryIs, Fil.BufOk, Fil.WindowOk, Fil.VolumeOk, SecsAre, BodyMatches, Idx, Clusters, Among,
      NoOnes, HasFsInfo;
    hide FileOnDisk;
    SameData(fp, img, data);
  }
}
