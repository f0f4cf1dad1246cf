/** A directory table as a map from names to slots, on values. */
module DirectoryMap {
  import opened FatTypes
  import opened DirEntry

  const DDEM: byte := 0xE5
  const AM_VOL: byte := 0x08

  type Slot = s: seq<byte> | |s| == 32 witness seq(32, i => 0)

  predicate Bit(a: byte, bit: byte)
    requires bit > 0
  {
    (a / bit) % 2 == 1
  }

  /** Content of slot k of the table with sectors secs. */
  function SlotAt(vol: seq<Sector>, secs: seq<nat>, k: nat): Slot
    requires k / 16 < |secs| && secs[k / 16] < |vol|
  {
    vol[secs[k / 16]][k % 16 * 32..k % 16 * 32 + 32]
  }

  predicate SecsInside(vol: seq<Sector>, secs: seq<nat>) { forall i | 0 <= i < |secs| :: secs[i] < |vol| }

  function Slots(vol: seq<Sector>, secs: seq<nat>): (r: seq<Slot>)
    requires SecsInside(vol, secs)
    ensures |r| == |secs| * 16
  {
    seq(|secs| * 16, k requires 0 <= k < |secs| * 16 => SlotAt(vol, secs, k))
  }

  /** No terminator up to and including slot k. */
  ghost predicate Before(slots: seq<Slot>, k: nat) {
    k < |slots| && forall j | 0 <= j <= k :: slots[j][0] != 0
  }

  /** Slot k holds an object: not behind the terminator, not deleted, not a volume label. */
  ghost predicate Live(slots: seq<Slot>, k: nat) {
    Before(slots, k) && slots[k][0] != DDEM && !Bit(slots[k][11], AM_VOL)
  }

  /** Everything behind the first terminator is unused. */
  ghost predicate ZeroTail(slots: seq<Slot>) {
    forall j, k | 0 <= j <= k < |slots| && slots[j][0] == 0 :: slots[k][0] == 0
  }

  /** The names in use and where their entries are. */
  ghost predicate Maps(slots: seq<Slot>, name: seq<byte>, k: nat) { Live(slots, k) && slots[k][..11] == name }

  /** Names are unique. */
  ghost predicate Unique(slots: seq<Slot>) {
    forall name: seq<byte>, j: nat, k: nat | Maps(slots, name, j) && Maps(slots, name, k) :: j == k
  }

  /** A name create_name can build: 11 bytes, not starting with a control character or the deletion mark. */
  predicate FileName(fn: seq<byte>) { |fn| == 11 && fn[0] != 0 && fn[0] != DDEM }

  /** Slot k is what dir_find compares a name with. */
  predicate Matches(s: Slot, fn: seq<byte>) { !Bit(s[11], AM_VOL) && s[..11] == fn }

  /** A match before the terminator is a live entry; deleted entries never match. */
  lemma MatchIsLive(slots: seq<Slot>, k: nat, fn: seq<byte>)
    requires FileName(fn) && Before(slots, k)
    ensures Matches(slots[k], fn) <==> Maps(slots, fn, k)
  {
    assert slots[k][..11][0] == slots[k][0];
  }

  /** slots' is slots, possibly with unused slots appended, with the new entry e in slot k. */
  ghost predicate Entered(slots: seq<Slot>, slots': seq<Slot>, k: nat, e: Slot) {
    && |slots| <= |slots'| && k < |slots'| && slots'[k] == e
    && (forall j | 0 <= j < |slots| && j != k :: slots'[j] == slots[j])
    && (forall j | |slots| <= j < |slots'| && j != k :: slots'[j][0] == 0)
  }

  /**
    Putting an entry into the first unused or deleted slot adds exactly its name: every other object
    keeps its slot, none is lost and none appears.
  */
  lemma EnteredMap(slots: seq<Slot>, slots': seq<Slot>, k: nat, e: Slot, fn: seq<byte>)
    requires FileName(fn) && e[..11] == fn && !Bit(e[11], AM_VOL) && Entered(slots, slots', k, e) && ZeroTail(slots)
    requires k <= |slots| && forall j | 0 <= j < k :: slots[j][0] != 0
    requires k < |slots| ==> slots[k][0] == 0 || slots[k][0] == DDEM
    requires forall j: nat :: !Maps(slots, fn, j)
    ensures ZeroTail(slots')
    ensures forall j: nat :: Live(slots', j) <==> j == k || Live(slots, j)
    ensures Unique(slots) ==> Unique(slots')
    ensures forall name: seq<byte>, j: nat :: Maps(slots', name, j) <==> (j == k && name == fn) || Maps(slots, name, j)
  {
    assert e[0] == e[..11][0];
    forall j: nat ensures Live(slots', j) <==> j == k || Live(slots, j) {
      if Before(slots', j) && j != k { if j < |slots| { BeforeSame(slots, slots', k, j); } }
      if Live(slots, j) { BeforeKept(slots, slots', k, j); }
    }
    forall j: nat | Live(slots, j) ensures j != k && slots'[j] == slots[j] {}
    if Unique(slots) { UniqueEntered(slots, slots', k, fn); }
  }

  lemma UniqueEntered(slots: seq<Slot>, slots': seq<Slot>, k: nat, fn: seq<byte>)
    requires forall name: seq<byte>, j: nat :: Maps(slots', name, j) <==> (j == k && name == fn) || Maps(slots, name, j)
    requires Unique(slots) && forall j: nat :: !Maps(slots, fn, j)
    ensures Unique(slots')
  {
    hide Maps;
  }

  lemma UniqueDeleted(slots: seq<Slot>, slots': seq<Slot>, k: nat)
    requires forall name: seq<byte>, j: nat :: Maps(slots', name, j) <==> j != k && Maps(slots, name, j)
    requires Unique(slots)
    ensures Unique(slots')
  {
    hide Maps;
  }

  lemma BeforeSame(slots: seq<Slot>, slots': seq<Slot>, k: nat, j: nat)
    requires k <= |slots| <= |slots'| && ZeroTail(slots) &&
      (forall i | 0 <= i < |slots| && i != k :: slots'[i] == slots[i])
    requires j < |slots| && j != k && Before(slots', j)
    ensures Before(slots, j)
  {
    assert slots'[j] == slots[j];
    forall i | 0 <= i <= j ensures slots[i][0] != 0 { if i != k { assert slots'[i] == slots[i]; } }
  }

  lemma BeforeKept(slots: seq<Slot>, slots': seq<Slot>, k: nat, j: nat)
    requires Live(slots, j) && k < |slots'| && |slots| <= |slots'| && slots'[k][0] != 0
    requires forall i | 0 <= i < |slots| && i != k :: slots'[i] == slots[i]
    ensures Before(slots', j)
  {
  }

  /** Marking a slot deleted removes exactly that object. */
  lemma DeletedMap(slots: seq<Slot>, slots': seq<Slot>, k: nat)
    requires |slots'| == |slots| && Live(slots, k) && ZeroTail(slots)
    requires slots'[k] == Patched(slots[k], 0, [DDEM]) && forall j | 0 <= j < |slots| && j != k :: slots'[j] == slots[j]
    ensures ZeroTail(slots')
    ensures forall j: nat :: Live(slots', j) <==> j != k && Live(slots, j)
    ensures Unique(slots) ==> Unique(slots')
    ensures forall name: seq<byte>, j: nat :: Maps(slots', name, j) <==> j != k && Maps(slots, name, j)
  {
    forall j: nat ensures Before(slots', j) <==> Before(slots, j) {}
    if Unique(slots) { UniqueDeleted(slots, slots', k); }
  }

  // ----- Slots and sectors

  /** data written over s at o. */
  function Patched(s: Slot, o: nat, data: seq<byte>): Slot
    requires o + |data| <= 32
  {
    s[..o] + data + s[o + |data|..]
  }

  /** Storing bytes inside slot k changes that slot only. */
  lemma SlotsPoke(vol: seq<Sector>, vol': seq<Sector>, secs: seq<nat>, k: nat, o: nat, data: seq<byte>)
    requires SecsInside(vol, secs) && k / 16 < |secs| && o + |data| <= 32
    requires forall i, j | 0 <= i < j < |secs| :: secs[i] != secs[j]
    requires vol' == vol[secs[k / 16] := Overwrite(vol[secs[k / 16]], k % 16 * 32 + o, data)]
    ensures SecsInside(vol', secs) && k < |Slots(vol, secs)|
    ensures Slots(vol', secs) == Slots(vol, secs)[k := Patched(Slots(vol, secs)[k], o, data)]
  {
    var a, b := Slots(vol, secs), Slots(vol', secs);
    forall j: nat | j < |a| && j != k ensures b[j] == a[j] { PokeElse(vol, vol', secs, k, o, data, j); }
    PokeHere(vol[secs[k / 16]], k % 16 * 32, o, data);
  }

  lemma PokeHere(s: Sector, p: nat, o: nat, data: seq<byte>)
    requires p + 32 <= 512 && o + |data| <= 32
    ensures Overwrite(s, p + o, data)[p..p + 32] == Patched(s[p..p + 32], o, data)
  {
    var a, b := Overwrite(s, p + o, data)[p..p + 32], Patched(s[p..p + 32], o, data);
    assert |a| == |b|;
    forall j: nat | j < 32 ensures a[j] == b[j] {
      if j < o {
        assert a[j] == s[p + j];
      } else if j < o + |data| {
        assert a[j] == data[j - o];
      } else {
        assert a[j] == s[p + j];
      }
    }
  }

  lemma PokeElse(vol: seq<Sector>, vol': seq<Sector>, secs: seq<nat>, k: nat, o: nat, data: seq<byte>, j: nat)
    requires SecsInside(vol, secs) && k / 16 < |secs| && o + |data| <= 32 && j / 16 < |secs| && j != k
    requires forall i, j | 0 <= i < j < |secs| :: secs[i] != secs[j]
    requires vol' == vol[secs[k / 16] := Overwrite(vol[secs[k / 16]], k % 16 * 32 + o, data)]
    ensures SlotAt(vol', secs, j) == SlotAt(vol, secs, j)
  {
    if j / 16 == k / 16 {
      OverwriteFrame(vol[secs[k / 16]], k % 16 * 32 + o, data, j % 16 * 32, 32);
    } else if j / 16 < k / 16 {
      assert secs[j / 16] != secs[k / 16];
    }
  }

  /** Slots depend on the sectors of the table only. */
  lemma SlotsFrame(vol: seq<Sector>, vol': seq<Sector>, secs: seq<nat>)
    requires SecsInside(vol, secs) && |vol'| == |vol| && forall i | 0 <= i < |secs| :: vol'[secs[i]] == vol[secs[i]]
    ensures SecsInside(vol', secs) && Slots(vol', secs) == Slots(vol, secs)
  {
  }

  /** A table with sectors appended: the old slots stay where they are. */
  lemma SlotsAppend(vol: seq<Sector>, secs: seq<nat>, secs': seq<nat>)
    requires SecsInside(vol, secs') && secs <= secs'
    ensures SecsInside(vol, secs) && Slots(vol, secs) <= Slots(vol, secs')
    ensures (forall i | |secs| <= i < |secs'| :: forall j | 0 <= j < 512 :: vol[secs'[i]][j] == 0) ==>
      forall k | |secs| * 16 <= k < |secs'| * 16 :: Slots(vol, secs')[k][0] == 0
  {
    forall i | 0 <= i < |secs| ensures secs[i] == secs'[i] {}
  }
}
