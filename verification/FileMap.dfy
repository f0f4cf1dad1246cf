/** What it means for a chain, a sector buffer and the volume to hold the content of a file. */
module FileMap {
  import opened FatTypes
  import opened FatEntries
  import opened ChainTheory
  import opened ClusterMap
  import opened FileBytes

  /** chain starts at sclust (0: no cluster yet) and is terminated. */
  ghost predicate Chained(fat: seq<nat>, chain: seq<nat>, sclust: nat) {
    if chain == [] then sclust == 0 else sclust == chain[0] && Linked(fat, chain)
  }

  /** secs lists the sectors of chain. */
  ghost predicate SecsAre(g: Geometry, disk: nat, chain: seq<nat>, secs: seq<nat>) {
    (forall i | 0 <= i < |chain| :: chain[i] >= 2) && secs == SecsOf(g, chain) && GoodSecs(g, disk, secs)
  }

  /** body is the content of the sectors of secs, where sector sect is taken from the buffer. */
  ghost predicate BodyMatches(secs: seq<nat>, body: seq<Sector>, vol: seq<Sector>, sect: nat, buf: seq<byte>) {
    && |body| == |secs|
    && forall k | 0 <= k < |secs| :: secs[k] < |vol| && body[k] == if secs[k] == sect then buf else vol[secs[k]]
  }

  /** The sector of the directory entry is outside the FAT and never part of the file. */
  ghost predicate DirSafe(g: Geometry, disk: nat, fat: seq<nat>, chain: seq<nat>, dirSect: nat, dirClust: nat) {
    && dirSect < disk && !InFat(g, dirSect) && !Shadow(g, dirSect)
    && (dirSect >= g.database ==>
          Cluster(fat, dirClust) && fat[dirClust] != 0 && dirClust !in chain
          && FirstSector(g, dirClust) <= dirSect < FirstSector(g, dirClust) + g.csize)
  }

  /** Sector s belongs to cluster c. */
  predicate InCluster(g: Geometry, c: nat, s: nat) {
    c >= 2 && FirstSector(g, c) <= s < FirstSector(g, c) + g.csize
  }

  /** None of these sectors is one that a file may get when it grows. */
  ghost predicate NoneSpare(g: Geometry, fat: seq<nat>, secs: map<nat, Sector>) {
    forall s, c: nat | s in secs && Free(fat, c) :: !InCluster(g, c, s)
  }

  /** chain' extends chain by clusters that were free; no other entry changed. */
  ghost predicate Grown(fat: seq<nat>, chain: seq<nat>, fat': seq<nat>, chain': seq<nat>) {
    && |fat'| == |fat| && chain <= chain'
    && (forall i | |chain| <= i < |chain'| :: Free(fat, chain'[i]))
    && (forall c: nat | Cluster(fat, c) && c !in chain' :: fat'[c] == fat[c])
  }

  lemma GrownRefl(fat: seq<nat>, chain: seq<nat>)
    ensures Grown(fat, chain, fat, chain)
  {
  }

  lemma GrownTrans(f: seq<nat>, a: seq<nat>, f': seq<nat>, a': seq<nat>, f'': seq<nat>, a'': seq<nat>)
    requires Grown(f, a, f', a') && Grown(f', a', f'', a'') && Distinct(a'')
    ensures Grown(f, a, f'', a'')
  {
    forall i | |a| <= i < |a''| ensures Free(f, a''[i]) {
      if i < |a'| {
        assert a''[i] == a'[i];
      } else {
        assert Free(f', a''[i]);
        assert a''[i] !in a';
      }
    }
  }

  lemma DirApart(g: Geometry, disk: nat, fat: seq<nat>, chain: seq<nat>, secs: seq<nat>, dirSect: nat, dirClust: nat)
    requires ValidGeometry(g, disk) && SecsAre(g, disk, chain, secs)
    requires DirSafe(g, disk, fat, chain, dirSect, dirClust)
    ensures dirSect !in secs
  {
    if dirSect in secs {
      var k: nat :| k < |secs| && secs[k] == dirSect;
      var i, j := SecsIndex(g, chain, k);
      if chain[i] < dirClust { ClustersApart(g, chain[i], dirClust); } else { ClustersApart(g, dirClust, chain[i]); }
    }
  }

  // ----- Moves of the sector buffer

  /** A dirty buffer written to its sector. */
  lemma MatchFlush(secs: seq<nat>, body: seq<Sector>, vol: seq<Sector>, vol': seq<Sector>, sect: nat, buf: seq<byte>)
    requires BodyMatches(secs, body, vol, sect, buf) && |vol'| == |vol|
    requires forall s | 0 <= s < |vol| && s != sect :: vol'[s] == vol[s]
    ensures BodyMatches(secs, body, vol', sect, buf)
  {
  }

  /** A clean buffer reloaded with another sector. */
  lemma MatchLoad(secs: seq<nat>, body: seq<Sector>, vol: seq<Sector>, sect: nat, buf: seq<byte>, sect': nat)
    requires BodyMatches(secs, body, vol, sect, buf) && sect' < |vol|
    requires sect in secs ==> sect < |vol| && buf == vol[sect]
    ensures BodyMatches(secs, body, vol, sect', vol[sect'])
  {
  }

  /** The buffer takes over sector k of the file with new content. */
  lemma MatchPatch(secs: seq<nat>, body: seq<Sector>, vol: seq<Sector>, sect: nat, buf: seq<byte>, k: nat, buf': Sector)
    requires BodyMatches(secs, body, vol, sect, buf) && k < |secs| && Distinct(secs)
    requires sect in secs ==> secs[k] == sect || (sect < |vol| && buf == vol[sect])
    ensures |body| == |secs| && BodyMatches(secs, body[k := buf'], vol, secs[k], buf')
  {
    forall l | 0 <= l < |secs|
      ensures secs[l] < |vol| && body[k := buf'][l] == if secs[l] == secs[k] then buf' else vol[secs[l]]
    {
      if l < k { assert secs[l] != secs[k]; } else if k < l { assert secs[k] != secs[l]; }
    }
  }

  /** cnt sectors of the file from position k on are consecutive on the disk. */
  ghost predicate Contiguous(secs: seq<nat>, k: nat, cnt: nat) {
    k + cnt <= |secs| && forall l: nat | k <= l < k + cnt :: secs[l] == secs[k] + (l - k)
  }

  /** Within one cluster the sectors are consecutive. */
  lemma ClusterRun(g: Geometry, ch: seq<nat>, i: nat, j: nat, cnt: nat)
    requires (forall k | 0 <= k < |ch| :: ch[k] >= 2) && i < |ch| && j < g.csize && j + cnt <= g.csize
    ensures Contiguous(SecsOf(g, ch), Times(i, g.csize) + j, cnt)
  {
    hide SecsOf, FirstSector;
    var secs, k := SecsOf(g, ch), Times(i, g.csize) + j;
    SecsAt(g, ch, i, j);
    if cnt > 0 { SecsAt(g, ch, i, j + cnt - 1); }
    forall l: nat | k <= l < k + cnt ensures l < |secs| && secs[l] == secs[k] + (l - k) {
      SecsAt(g, ch, i, j + (l - k));
    }
  }

  /** Consecutive sectors of one cluster written past the buffer, which is clean or refilled. */
  lemma MatchRun(secs: seq<nat>, body: seq<Sector>, vol: seq<Sector>, vol': seq<Sector>, sect: nat, buf: seq<byte>,
                 buf': seq<byte>, k: nat, cnt: nat, x: seq<byte>) returns (body': seq<Sector>)
    requires BodyMatches(secs, body, vol, sect, buf) && |vol'| == |vol| && Distinct(secs)
    requires cnt > 0 && Contiguous(secs, k, cnt) && |x| == cnt * 512 && secs[k] + cnt <= |vol|
    requires forall i: nat | secs[k] <= i < secs[k] + cnt :: vol'[i] == Chunk(x, i - secs[k])
    requires forall s: nat | s < |vol| && !(secs[k] <= s < secs[k] + cnt) :: vol'[s] == vol[s]
    requires if secs[k] <= sect < secs[k] + cnt then sect < |vol| && buf' == vol'[sect] else buf' == buf
    ensures RunWritten(body, body', k, cnt, x) && BodyMatches(secs, body', vol', sect, buf')
  {
    body' := seq(|body|, l requires 0 <= l < |body| => if k <= l < k + cnt then vol'[secs[l]] else body[l]);
    forall l: nat | l < |secs| ensures secs[l] < |vol'| && body'[l] == if secs[l] == sect then buf' else vol'[secs[l]] {
      if !(k <= l < k + cnt) && secs[k] <= secs[l] < secs[k] + cnt {
        RunInjective(secs, k, cnt, l);
      }
    }
  }

  lemma RunInjective(secs: seq<nat>, k: nat, cnt: nat, l: nat)
    requires Distinct(secs) && cnt > 0 && Contiguous(secs, k, cnt) && l < |secs|
    requires secs[k] <= secs[l] < secs[k] + cnt
    ensures k <= l < k + cnt
  {
    var i := secs[l] - secs[k];
    assert secs[k + i] == secs[l];
  }

  /** New clusters bring in whatever their sectors hold. */
  lemma MatchGrow(secs: seq<nat>, body: seq<Sector>, vol: seq<Sector>, sect: nat, buf: seq<byte>, secs': seq<nat>)
    returns (body': seq<Sector>)
    requires BodyMatches(secs, body, vol, sect, buf) && secs <= secs'
    requires forall k | 0 <= k < |secs'| :: secs'[k] < |vol|
    requires sect in secs' && sect !in secs ==> |buf| == 512
    ensures body <= body' && BodyMatches(secs', body', vol, sect, buf)
  {
    body' := body + seq(|secs'| - |secs|, i requires 0 <= i < |secs'| - |secs| =>
      if secs'[|secs| + i] == sect then assert sect in secs'; buf else vol[secs'[|secs| + i]]);
  }

  // ----- Growing the chain

  /** The FAT side of appending free cluster n. */
  lemma ChainGrow(fat: seq<nat>, chain: seq<nat>, sclust: nat, n: nat, eoc: nat)
    requires Chained(fat, chain, sclust) && Free(fat, n) && eoc >= |fat| && NoOnes(fat)
    ensures chain != [] ==> Cluster(fat, chain[|chain| - 1])
    ensures var f := if chain == [] then fat[n := eoc] else fat[n := eoc][chain[|chain| - 1] := n];
      && Chained(f, chain + [n], if chain == [] then n else sclust)
      && Grown(fat, chain, f, chain + [n]) && NoOnes(f)
  {
    if chain == [] {
      assert Linked(fat[n := eoc], [n]);
    } else {
      StretchLinked(fat, chain, n, eoc);
    }
  }

  lemma DirSafeGrow(g: Geometry, disk: nat, fat: seq<nat>, chain: seq<nat>, f: seq<nat>, n: nat, dirSect: nat,
                    dirClust: nat)
    requires DirSafe(g, disk, fat, chain, dirSect, dirClust) && Free(fat, n) && Grown(fat, chain, f, chain + [n])
    ensures DirSafe(g, disk, f, chain + [n], dirSect, dirClust)
  {
  }

  /** The sector list of a terminated chain. */
  lemma ChainSecs(g: Geometry, disk: nat, fat: seq<nat>, chain: seq<nat>)
    requires ValidGeometry(g, disk) && |fat| == g.nFatent && (chain != [] ==> Linked(fat, chain))
    ensures (forall i | 0 <= i < |chain| :: chain[i] >= 2) && SecsAre(g, disk, chain, SecsOf(g, chain))
  {
    hide SecsOf, FatBytes;
    if chain != [] { LinkedAllDistinct(fat, chain); }
    forall i | 0 <= i < |chain| ensures HasEntry(g, chain[i]) { assert Cluster(fat, chain[i]); }
    SecsGood(g, disk, chain);
  }

  lemma SecsAppend(g: Geometry, chain: seq<nat>, n: nat)
    requires (forall i | 0 <= i < |chain| :: chain[i] >= 2) && n >= 2
    ensures SecsOf(g, chain) <= SecsOf(g, chain + [n])
  {
    assert (chain + [n])[..|chain|] == chain;
  }

  /** x is the raw content of cnt consecutive sectors. */
  ghost predicate RawRun(vol: seq<Sector>, from: nat, cnt: nat, x: seq<byte>) {
    && |x| == cnt * 512 && from + cnt <= |vol|
    && forall i: nat | i < |x| :: x[i] == vol[from + i / 512][i % 512]
  }

  /** Sectors read past the buffer, with the cached one replaced, are the content of the file. */
  lemma ReadMatches(secs: seq<nat>, body: seq<Sector>, vol: seq<Sector>, sect: nat, buf: seq<byte>, k: nat, cnt: nat,
                    x: seq<byte>, x': seq<byte>, replaced: bool)
    requires BodyMatches(secs, body, vol, sect, buf) && cnt > 0 && Contiguous(secs, k, cnt) && |x| == cnt * 512
    requires secs[k] + cnt <= |vol| && RawRun(vol, secs[k], cnt, x)
    requires if secs[k] <= sect < secs[k] + cnt && replaced
      then |buf| == 512 && x' == Patch(x, (sect - secs[k]) * 512, buf)
             else x' == x && (secs[k] <= sect < secs[k] + cnt ==> buf == vol[sect])
    ensures RunRead(body, k, cnt, x')
  {
    hide Patch, RawRun, Chunk;
    forall l: nat | k <= l < k + cnt ensures Chunk(x', l - k) == body[l] {
      assert secs[l] == secs[k] + (l - k);
      RawSector(vol, secs[k], cnt, x, l - k);
      if secs[k] <= sect < secs[k] + cnt && replaced { PatchSector(x, sect - secs[k], buf, l - k); }
    }
  }

  lemma RawSector(vol: seq<Sector>, from: nat, cnt: nat, x: seq<byte>, e: nat)
    requires RawRun(vol, from, cnt, x) && e < cnt
    ensures Chunk(x, e) == vol[from + e]
  {
    var y := Chunk(x, e);
    forall j: nat | j < 512 ensures y[j] == vol[from + e][j] {
      assert (e * 512 + j) / 512 == e && (e * 512 + j) % 512 == j;
    }
  }

  lemma PatchSector(x: seq<byte>, d: nat, buf: seq<byte>, e: nat)
    requires |buf| == 512 && d * 512 + 512 <= |x| && e * 512 + 512 <= |x|
    ensures Chunk(Patch(x, d * 512, buf), e) == if d == e then buf else Chunk(x, e)
  {
  }
}
