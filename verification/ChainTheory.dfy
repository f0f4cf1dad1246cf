/** The FAT as a heap of cluster chains: what allocation and removal do to it, on values. */
module ChainTheory {

  predicate Cluster(fat: seq<nat>, c: nat) { 2 <= c < |fat| }

  predicate Free(fat: seq<nat>, c: nat) { Cluster(fat, c) && fat[c] == 0 }

  /** No entry holds the reserved value 1. */
  ghost predicate NoOnes(fat: seq<nat>) { forall c: nat | Cluster(fat, c) :: fat[c] != 1 }

  /** Free clusters below n. */
  function FreeBelow(fat: seq<nat>, n: nat): (k: nat)
    requires n <= |fat|
    ensures n <= 2 ==> k == 0
    ensures n >= 2 ==> k <= n - 2
  {
    if n <= 2 then 0 else FreeBelow(fat, n - 1) + if fat[n - 1] == 0 then 1 else 0
  }

  /** Number of free clusters of the volume. */
  function CountFree(fat: seq<nat>): nat { FreeBelow(fat, |fat|) }

  lemma {:induction false} FreeBelowUpdate(fat: seq<nat>, c: nat, v: nat, n: nat)
    requires Cluster(fat, c) && n <= |fat|
    ensures FreeBelow(fat[c := v], n) ==
      FreeBelow(fat, n) + if c < n then (if v == 0 then 1 else 0) - (if fat[c] == 0 then 1 else 0) else 0
  {
    if n > 2 { FreeBelowUpdate(fat, c, v, n - 1); }
  }

  lemma CountFreeUpdate(fat: seq<nat>, c: nat, v: nat)
    requires Cluster(fat, c)
    ensures CountFree(fat[c := v]) == CountFree(fat) + (if v == 0 then 1 else 0) - (if fat[c] == 0 then 1 else 0)
  {
    FreeBelowUpdate(fat, c, v, |fat|);
  }

  lemma {:induction false} FreeBelowWitness(fat: seq<nat>, n: nat)
    requires n <= |fat|
    ensures FreeBelow(fat, n) == 0 <==> forall c | 2 <= c < n :: fat[c] != 0
  {
    if n > 2 { FreeBelowWitness(fat, n - 1); }
  }

  /** ch follows the links of fat from its first cluster to an end-of-chain mark. */
  ghost predicate Linked(fat: seq<nat>, ch: seq<nat>) {
    && ch != []
    && (forall i | 0 <= i < |ch| :: Cluster(fat, ch[i]))
    && (forall i {:trigger fat[ch[i]]} | 0 <= i < |ch| - 1 :: fat[ch[i]] == ch[i + 1])
    && fat[ch[|ch| - 1]] >= |fat|
  }

  /** Following the FAT from the first cluster of chain leads through all of it; what comes then is left open. */
  ghost predicate Leads(fat: seq<nat>, chain: seq<nat>) {
    && (forall i | 0 <= i < |chain| :: Cluster(fat, chain[i]))
    && forall i {:trigger fat[chain[i]]} | 0 <= i < |chain| - 1 :: fat[chain[i]] == chain[i + 1]
  }

  /** A terminated chain has no cycle: it never visits a cluster twice. */
  lemma {:induction false} LinkedDistinct(fat: seq<nat>, ch: seq<nat>, i: nat, j: nat)
    requires Linked(fat, ch) && i < j < |ch|
    ensures ch[i] != ch[j]
    decreases |ch| - j
  {
    if ch[i] == ch[j] {
      assert fat[ch[i]] == ch[i + 1];
      if j + 1 < |ch| {
        assert fat[ch[j]] == ch[j + 1];
        LinkedDistinct(fat, ch, i + 1, j + 1);
      }
    }
  }

  ghost predicate Distinct(ch: seq<nat>) {
    forall i, j | 0 <= i < j < |ch| :: ch[i] != ch[j]
  }

  lemma LinkedAllDistinct(fat: seq<nat>, ch: seq<nat>)
    requires Linked(fat, ch)
    ensures Distinct(ch)
  {
    forall i, j | 0 <= i < j < |ch| ensures ch[i] != ch[j] { LinkedDistinct(fat, ch, i, j); }
  }

  /** The FAT and the first cluster determine the chain. */
  lemma {:induction false} LinkedUnique(fat: seq<nat>, a: seq<nat>, b: seq<nat>)
    requires Linked(fat, a) && Linked(fat, b) && a[0] == b[0]
    ensures a == b
    decreases |a|
  {
    HasNext(fat, a);
    HasNext(fat, b);
    if |a| > 1 {
      LinkedTail(fat, a);
      LinkedTail(fat, b);
      LinkedUnique(fat, a[1..], b[1..]);
      assert a == [a[0]] + a[1..] && b == [b[0]] + b[1..];
    }
  }

  lemma HasNext(fat: seq<nat>, ch: seq<nat>)
    requires Linked(fat, ch)
    ensures |ch| > 1 <==> fat[ch[0]] < |fat|
    ensures |ch| > 1 ==> fat[ch[0]] == ch[1]
  {
  }

  lemma LinkedTail(fat: seq<nat>, ch: seq<nat>)
    requires Linked(fat, ch) && |ch| > 1
    ensures Linked(fat, ch[1..])
  {
    var t := ch[1..];
    forall i {:trigger fat[t[i]]} | 0 <= i < |t| - 1 ensures fat[t[i]] == t[i + 1] {
      assert t[i] == ch[i + 1] && fat[ch[i + 1]] == ch[i + 2];
    }
  }

  lemma {:induction false} LinkedSuffix(fat: seq<nat>, ch: seq<nat>, k: nat)
    requires Linked(fat, ch) && k < |ch|
    ensures Linked(fat, ch[k..])
  {
    if k > 0 {
      LinkedTail(fat, ch);
      LinkedSuffix(fat, ch[1..], k - 1);
      assert ch[1..][k - 1..] == ch[k..];
    }
  }

  /** The entry of chain position i. */
  lemma ChainStep(fat: seq<nat>, chain: seq<nat>, i: nat)
    requires i < |chain| && Linked(fat, chain)
    ensures Cluster(fat, chain[i]) && fat[chain[i]] >= 2
    ensures i + 1 < |chain| ==> fat[chain[i]] == chain[i + 1] < |fat|
    ensures i + 1 == |chain| ==> fat[chain[i]] >= |fat|
  {
    if i + 1 < |chain| { assert fat[chain[i]] == chain[i + 1]; }
  }

  // ----- Removal

  /** Number of used clusters below n, the measure of chain removal. */
  function UsedBelow(fat: seq<nat>, n: nat): (k: nat)
    requires n <= |fat|
  {
    if n <= 2 then 0 else UsedBelow(fat, n - 1) + if fat[n - 1] != 0 then 1 else 0
  }

  lemma {:induction false} UsedBelowClear(fat: seq<nat>, c: nat, n: nat)
    requires Cluster(fat, c) && n <= |fat|
    ensures UsedBelow(fat[c := 0], n) == UsedBelow(fat, n) - if c < n && fat[c] != 0 then 1 else 0
  {
    if n > 2 { UsedBelowClear(fat, c, n - 1); }
  }

  /** The FAT after freeing every cluster reached from c; total on any FAT, cyclic ones included. */
  function Erase(fat: seq<nat>, c: nat): (r: seq<nat>)
    ensures |r| == |fat|
    decreases UsedBelow(fat, |fat|)
  {
    if !Cluster(fat, c) || fat[c] == 0 then fat
    else
      UsedBelowClear(fat, c, |fat|);
      Erase(fat[c := 0], fat[c])
  }

  /** Removal changes entries to 0 and in no other way, and the first one it visits is free afterwards. */
  lemma {:induction false} EraseOnlyFrees(fat: seq<nat>, c: nat)
    ensures forall d | 0 <= d < |fat| :: Erase(fat, c)[d] == 0 || Erase(fat, c)[d] == fat[d]
    ensures Cluster(fat, c) ==> Erase(fat, c)[c] == 0
    decreases UsedBelow(fat, |fat|)
  {
    if Cluster(fat, c) && fat[c] != 0 {
      UsedBelowClear(fat, c, |fat|);
      EraseOnlyFrees(fat[c := 0], fat[c]);
    }
  }

  /** fat with the clusters of s free. */
  function Cleared(fat: seq<nat>, s: seq<nat>): (r: seq<nat>)
    ensures |r| == |fat|
  {
    seq(|fat|, c requires 0 <= c < |fat| => if c in s then 0 else fat[c])
  }

  /** On a terminated chain removal frees exactly the clusters of the chain. */
  lemma {:induction false} EraseLinked(fat: seq<nat>, ch: seq<nat>)
    requires Linked(fat, ch)
    ensures Erase(fat, ch[0]) == Cleared(fat, ch)
    decreases |ch|
  {
    var c := ch[0];
    var f := fat[c := 0];
    HasNext(fat, ch);
    if |ch| == 1 {
      assert Cleared(fat, ch) == f;
    } else {
      LinkedTail(fat, ch);
      LinkedAllDistinct(fat, ch);
      LinkedElsewhere(fat, f, ch[1..]);
      EraseLinked(f, ch[1..]);
      assert ch == [c] + ch[1..];
      assert Cleared(f, ch[1..]) == Cleared(fat, ch);
    }
  }

  /** A chain depends only on its own entries. */
  lemma LinkedElsewhere(fat: seq<nat>, f: seq<nat>, ch: seq<nat>)
    requires Linked(fat, ch) && |f| == |fat|
    requires forall i | 0 <= i < |ch| :: f[ch[i]] == fat[ch[i]]
    ensures Linked(f, ch)
  {
  }

  // ----- The whole FAT as disjoint chains

  ghost predicate Owner(m: map<nat, seq<nat>>, h: nat, c: nat) { h in m && c in m[h] }

  ghost predicate AllLinked(fat: seq<nat>, m: map<nat, seq<nat>>) {
    forall h | h in m :: Linked(fat, m[h]) && m[h][0] == h
  }

  ghost predicate Disjoint(m: map<nat, seq<nat>>) {
    forall h, k, c | Owner(m, h, c) && Owner(m, k, c) :: h == k
  }

  ghost predicate Covered(fat: seq<nat>, m: map<nat, seq<nat>>) {
    forall c: nat | Cluster(fat, c) && fat[c] != 0 :: exists h :: Owner(m, h, c)
  }

  /**
    fat consists of exactly the chains of m, keyed by first cluster: each one terminated, no two
    sharing a cluster, and every used cluster in one of them.
  */
  ghost predicate Layout(fat: seq<nat>, m: map<nat, seq<nat>>) {
    AllLinked(fat, m) && Disjoint(m) && Covered(fat, m)
  }

  /** No entry of a chain is free or reserved. */
  lemma LinkedUsed(fat: seq<nat>, ch: seq<nat>, c: nat)
    requires Linked(fat, ch) && c in ch
    ensures Cluster(fat, c) && fat[c] >= 2
  {
    var i :| 0 <= i < |ch| && ch[i] == c;
    if i + 1 < |ch| { assert fat[ch[i]] == ch[i + 1]; }
  }

  lemma LayoutNoOnes(fat: seq<nat>, m: map<nat, seq<nat>>)
    requires Layout(fat, m)
    ensures NoOnes(fat)
  {
    forall c: nat | Cluster(fat, c) && fat[c] != 0 ensures fat[c] != 1 {
      var h :| Owner(m, h, c);
      LinkedUsed(fat, m[h], c);
    }
  }

  lemma FreeUnowned(fat: seq<nat>, m: map<nat, seq<nat>>, n: nat)
    requires AllLinked(fat, m) && Free(fat, n)
    ensures n !in m && forall h | h in m :: n !in m[h]
  {
    forall h | h in m ensures n !in m[h] && n != h {
      if n in m[h] { LinkedUsed(fat, m[h], n); }
      LinkedUsed(fat, m[h], m[h][0]);
    }
  }

  /** Starting a chain on a free cluster adds the one-cluster chain and nothing else. */
  lemma AllocLayout(fat: seq<nat>, m: map<nat, seq<nat>>, n: nat, eoc: nat)
    requires Layout(fat, m) && Free(fat, n) && eoc >= |fat|
    ensures n !in m && Layout(fat[n := eoc], m[n := [n]])
  {
    var f, m' := fat[n := eoc], m[n := [n]];
    FreeUnowned(fat, m, n);
    forall h | h in m ensures Linked(f, m[h]) { LinkedElsewhere(fat, f, m[h]); }
    forall h, c | Owner(m', h, c) ensures if c == n then h == n else Owner(m, h, c) {}
    forall c: nat | Cluster(f, c) && f[c] != 0 ensures exists h :: Owner(m', h, c) {
      if c == n { assert Owner(m', n, c); } else { var h :| Owner(m, h, c); assert Owner(m', h, c); }
    }
  }

  /** Chains other than h survive changes to entries of the chain of h and to unowned entries. */
  lemma OthersLinked(fat: seq<nat>, f: seq<nat>, m: map<nat, seq<nat>>, h: nat, k: nat)
    requires AllLinked(fat, m) && Disjoint(m) && h in m && k in m && k != h && |f| == |fat|
    requires forall c: nat | Cluster(fat, c) && Owner(m, k, c) && !Owner(m, h, c) :: f[c] == fat[c]
    ensures Linked(f, m[k])
  {
    forall i | 0 <= i < |m[k]| ensures f[m[k][i]] == fat[m[k][i]] {
      assert Owner(m, k, m[k][i]);
    }
    LinkedElsewhere(fat, f, m[k]);
  }

  /** Appending a free cluster n to the chain of h. */
  lemma StretchLayout(fat: seq<nat>, m: map<nat, seq<nat>>, h: nat, n: nat, eoc: nat)
    requires Layout(fat, m) && h in m && Free(fat, n) && eoc >= |fat|
    ensures m[h] != [] && Cluster(fat, m[h][|m[h]| - 1])
    ensures Layout(fat[n := eoc][m[h][|m[h]| - 1] := n], m[h := m[h] + [n]])
  {
    hide Covered, Disjoint, AllLinked;
    assert Linked(fat, m[h]) by { LayoutLinked(fat, m, h); }
    FreeUnowned(fat, m, n);
    StretchAll(fat, m, h, n, eoc);
    StretchDisjoint(m, h, n);
    var last := m[h][|m[h]| - 1];
    StretchCovered(fat, m, h, n, fat[n := eoc][last := n]);
  }

  lemma LayoutLinked(fat: seq<nat>, m: map<nat, seq<nat>>, h: nat)
    requires AllLinked(fat, m) && h in m
    ensures Linked(fat, m[h]) && m[h][0] == h
  {
  }

  lemma StretchAll(fat: seq<nat>, m: map<nat, seq<nat>>, h: nat, n: nat, eoc: nat)
    requires AllLinked(fat, m) && Disjoint(m) && h in m && Linked(fat, m[h]) && Free(fat, n) && eoc >= |fat|
    ensures AllLinked(fat[n := eoc][m[h][|m[h]| - 1] := n], m[h := m[h] + [n]])
  {
    var last := m[h][|m[h]| - 1];
    var f, m' := fat[n := eoc][last := n], m[h := m[h] + [n]];
    StretchLinked(fat, m[h], n, eoc);
    FreeUnowned(fat, m, n);
    assert Owner(m, h, last);
    forall k | k in m && k != h ensures Linked(f, m[k]) { OthersLinked(fat, f, m, h, k); }
  }

  lemma StretchDisjoint(m: map<nat, seq<nat>>, h: nat, n: nat)
    requires Disjoint(m) && h in m && forall k | k in m :: n !in m[k]
    ensures Disjoint(m[h := m[h] + [n]])
  {
    var m' := m[h := m[h] + [n]];
    forall k, c | Owner(m', k, c) ensures if c == n then k == h else Owner(m, k, c) {}
  }

  lemma StretchCovered(fat: seq<nat>, m: map<nat, seq<nat>>, h: nat, n: nat, f: seq<nat>)
    requires Covered(fat, m) && h in m && m[h] != [] && |f| == |fat|
    requires forall c: nat | Cluster(fat, c) && c != n && c != m[h][|m[h]| - 1] :: f[c] == fat[c]
    ensures Covered(f, m[h := m[h] + [n]])
  {
    var m' := m[h := m[h] + [n]];
    forall c: nat | Cluster(f, c) && f[c] != 0 ensures exists k :: Owner(m', k, c) {
      if c == n || c == m[h][|m[h]| - 1] {
        assert Owner(m', h, c);
      } else {
        var k :| Owner(m, k, c);
        assert Owner(m', k, c);
      }
    }
  }

  lemma StretchLinked(fat: seq<nat>, ch: seq<nat>, n: nat, eoc: nat)
    requires Linked(fat, ch) && Free(fat, n) && eoc >= |fat|
    ensures Linked(fat[n := eoc][ch[|ch| - 1] := n], ch + [n])
  {
    var last := ch[|ch| - 1];
    var f, ch' := fat[n := eoc][last := n], ch + [n];
    LinkedAllDistinct(fat, ch);
    forall i | 0 <= i < |ch| ensures ch[i] != n {
      if i < |ch| - 1 { assert fat[ch[i]] == ch[i + 1]; }
    }
    forall i {:trigger f[ch'[i]]} | 0 <= i < |ch'| - 1 ensures f[ch'[i]] == ch'[i + 1] {
      if i < |ch| - 1 { assert fat[ch[i]] == ch[i + 1]; }
    }
  }

  /** fat after cutting chain ch before position k: the kept part is terminated, the rest free. */
  function Cut(fat: seq<nat>, ch: seq<nat>, k: nat, eoc: nat): (r: seq<nat>)
    requires k <= |ch| && forall i | 0 <= i < |ch| :: Cluster(fat, ch[i])
    ensures |r| == |fat|
  {
    Cleared(if k == 0 then fat else assert Cluster(fat, ch[k - 1]); fat[ch[k - 1] := eoc], ch[k..])
  }

  lemma CutLinked(fat: seq<nat>, ch: seq<nat>, k: nat, eoc: nat)
    requires Linked(fat, ch) && 0 < k <= |ch| && eoc >= |fat|
    ensures Linked(Cut(fat, ch, k, eoc), ch[..k])
  {
    var f, a := Cut(fat, ch, k, eoc), ch[..k];
    LinkedAllDistinct(fat, ch);
    forall i | 0 <= i < k ensures ch[i] !in ch[k..] {}
    forall i {:trigger f[a[i]]} | 0 <= i < k - 1 ensures f[a[i]] == a[i + 1] {
      assert fat[ch[i]] == ch[i + 1];
    }
  }

  /** Cutting changes entries of the chain only; what stays used is in the kept part or elsewhere. */
  lemma CutEntries(fat: seq<nat>, ch: seq<nat>, k: nat, eoc: nat, c: nat)
    requires Linked(fat, ch) && k <= |ch| && eoc >= |fat| && Cluster(fat, c)
    ensures c !in ch ==> Cut(fat, ch, k, eoc)[c] == fat[c]
    ensures c in ch && Cut(fat, ch, k, eoc)[c] != 0 ==> c in ch[..k]
    ensures c in ch[..k] ==> c in ch
  {
  }

  /** m without the part of chain h from position k on. */
  function Shortened(m: map<nat, seq<nat>>, h: nat, k: nat): map<nat, seq<nat>>
    requires h in m && k <= |m[h]|
  {
    if k == 0 then m - {h} else m[h := m[h][..k]]
  }

  /** Removing the suffix of one chain frees exactly that suffix and leaves every other chain alone. */
  lemma CutLayout(fat: seq<nat>, m: map<nat, seq<nat>>, h: nat, k: nat, eoc: nat)
    requires Layout(fat, m) && h in m && k <= |m[h]| && eoc >= |fat|
    ensures forall i | 0 <= i < |m[h]| :: Cluster(fat, m[h][i])
    ensures Layout(Cut(fat, m[h], k, eoc), Shortened(m, h, k))
  {
    hide Covered, Disjoint, AllLinked, Cut, Shortened;
    assert Linked(fat, m[h]) by { LayoutLinked(fat, m, h); }
    CutAll(fat, m, h, k, eoc);
    CutDisjoint(m, h, k);
    CutCovered(fat, m, h, k, eoc);
  }

  lemma CutAll(fat: seq<nat>, m: map<nat, seq<nat>>, h: nat, k: nat, eoc: nat)
    requires AllLinked(fat, m) && Disjoint(m) && h in m && k <= |m[h]| && Linked(fat, m[h]) && eoc >= |fat|
    ensures AllLinked(Cut(fat, m[h], k, eoc), Shortened(m, h, k))
  {
    hide Cut;
    var f := Cut(fat, m[h], k, eoc);
    if k > 0 { CutLinked(fat, m[h], k, eoc); }
    forall g | g in m && g != h ensures Linked(f, m[g]) {
      forall c: nat | Cluster(fat, c) && Owner(m, g, c) && !Owner(m, h, c) ensures f[c] == fat[c] {
        CutEntries(fat, m[h], k, eoc, c);
      }
      OthersLinked(fat, f, m, h, g);
    }
  }

  lemma CutDisjoint(m: map<nat, seq<nat>>, h: nat, k: nat)
    requires Disjoint(m) && h in m && k <= |m[h]|
    ensures Disjoint(Shortened(m, h, k))
  {
    var m' := Shortened(m, h, k);
    forall g, c | Owner(m', g, c) ensures Owner(m, g, c) {}
  }

  lemma CutCovered(fat: seq<nat>, m: map<nat, seq<nat>>, h: nat, k: nat, eoc: nat)
    requires Covered(fat, m) && h in m && k <= |m[h]| && Linked(fat, m[h]) && eoc >= |fat|
    ensures Covered(Cut(fat, m[h], k, eoc), Shortened(m, h, k))
  {
    hide Cut;
    var f, m' := Cut(fat, m[h], k, eoc), Shortened(m, h, k);
    forall c: nat | Cluster(f, c) && f[c] != 0 ensures exists g :: Owner(m', g, c) {
      CutEntries(fat, m[h], k, eoc, c);
      if c in m[h] {
        assert Owner(m', h, c);
      } else {
        var g :| Owner(m, g, c);
        assert Owner(m', g, c);
      }
    }
  }

  /** Removing a chain adds its length to the number of free clusters. */
  lemma {:induction false} EraseCount(fat: seq<nat>, ch: seq<nat>)
    requires Linked(fat, ch)
    ensures CountFree(Erase(fat, ch[0])) == CountFree(fat) + |ch|
    decreases |ch|
  {
    var c := ch[0];
    var f := fat[c := 0];
    LinkedUsed(fat, ch, c);
    CountFreeUpdate(fat, c, 0);
    HasNext(fat, ch);
    if |ch| == 1 {
      assert Erase(f, fat[c]) == f;
    } else {
      LinkedTail(fat, ch);
      LinkedAllDistinct(fat, ch);
      LinkedElsewhere(fat, f, ch[1..]);
      EraseCount(f, ch[1..]);
    }
  }

  /** remove_chain at position k of a chain is the cut at k, and no cluster is lost. */
  lemma EraseIsCut(fat: seq<nat>, ch: seq<nat>, k: nat, eoc: nat)
    requires Linked(fat, ch) && k < |ch| && eoc >= |fat|
    ensures forall i | 0 <= i < |ch| :: Cluster(fat, ch[i])
    ensures var f := if k == 0 then fat else fat[ch[k - 1] := eoc];
      Erase(f, ch[k]) == Cut(fat, ch, k, eoc) && CountFree(Cut(fat, ch, k, eoc)) == CountFree(fat) + |ch| - k
  {
    LinkedSuffix(fat, ch, k);
    LinkedAllDistinct(fat, ch);
    var f := if k == 0 then fat else fat[ch[k - 1] := eoc];
    if k > 0 {
      LinkedUsed(fat, ch, ch[k - 1]);
      CountFreeUpdate(fat, ch[k - 1], eoc);
      forall i | 0 <= i < |ch[k..]| ensures f[ch[k..][i]] == fat[ch[k..][i]] { assert ch[k..][i] == ch[k + i]; }
      LinkedElsewhere(fat, f, ch[k..]);
    }
    EraseLinked(f, ch[k..]);
    EraseCount(f, ch[k..]);
  }
}
