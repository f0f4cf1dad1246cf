/** Little-endian fields and the allocation fields of a 32-byte directory entry. */
module DirEntry {
  import opened FatTypes
  import opened FatEntries

  /** st_word and st_dword. */
  function StWord(v: nat): (r: seq<byte>)
    requires v < 0x1_0000
    ensures |r| == 2
  {
    [v % 0x100, v / 0x100]
  }

  function StDword(v: dword): (r: seq<byte>)
    ensures |r| == 4
  {
    [Byte0(v), Byte1(v), Byte2(v), Byte3(v)]
  }

  /** ld_clust: start cluster of the entry at offset o. */
  function EntryClust(g: Geometry, s: Sector, o: nat): (r: dword)
    requires o + 32 <= 512
  {
    if g.fsType == FAT32 then LdWord(s, o + 26) + LdWord(s, o + 20) * 0x1_0000 else LdWord(s, o + 26)
  }

  /** DIR_FileSize. */
  function EntrySize(s: Sector, o: nat): dword
    requires o + 32 <= 512
  {
    LdDword(s, o + 28)
  }

  /** The entry at offset o names a file of size bytes starting at sclust. */
  predicate EntryIs(g: Geometry, s: Sector, o: nat, sclust: nat, size: nat)
    requires o + 32 <= 512
  {
    EntryClust(g, s, o) == sclust && EntrySize(s, o) == size
  }

  lemma WordStored(s: Sector, o: nat, v: nat)
    requires v < 0x1_0000 && o + 2 <= 512 && s[o..o + 2] == StWord(v)
    ensures LdWord(s, o) == v
  {
    assert s[o] == s[o..o + 2][0] && s[o + 1] == s[o..o + 2][1];
  }

  lemma DwordStored(s: Sector, o: nat, v: dword)
    requires o + 4 <= 512 && s[o..o + 4] == StDword(v)
    ensures LdDword(s, o) == v
  {
    var t := s[o..o + 4];
    assert s[o] == t[0] && s[o + 1] == t[1] && s[o + 2] == t[2] && s[o + 3] == t[3];
    DwordRoundTrip(v);
  }

  lemma DwordRoundTrip(v: dword)
    ensures Dword(Byte0(v), Byte1(v), Byte2(v), Byte3(v)) == v
  {
    var q1 := v / 0x100;
    var q2 := q1 / 0x100;
    DivMod(v, 0x1_0000, q2, v % 0x100 + (q1 % 0x100) * 0x100);
    DivMod(v, 0x100_0000, q2 / 0x100, v % 0x100 + (q1 % 0x100) * 0x100 + (q2 % 0x100) * 0x1_0000);
  }

  // ----- Updating an entry

  /** dir[DIR_Attr] |= AM_ARC. */
  function SetArchive(a: byte): byte { if (a / 0x20) % 2 == 0 then a + 0x20 else a }

  lemma OverwriteFrame(s: Sector, o: nat, x: seq<byte>, p: nat, n: nat)
    requires o + |x| <= 512 && p + n <= 512 && (p + n <= o || o + |x| <= p)
    ensures Overwrite(s, o, x)[p..p + n] == s[p..p + n]
  {
  }

  lemma OverwriteHit(s: Sector, o: nat, x: seq<byte>)
    requires o + |x| <= 512
    ensures Overwrite(s, o, x)[o..o + |x|] == x
  {
  }

  lemma OverwriteElse(s: Sector, o: nat, x: seq<byte>)
    requires o + |x| <= 512
    ensures forall j | 0 <= j < 512 && !(o <= j < o + |x|) :: Overwrite(s, o, x)[j] == s[j]
  {
  }

  /** Fields keep their value when the bytes that store them are the same. */
  lemma LoadSame(s: Sector, t: Sector, o: nat)
    requires o + 4 <= 512 && s[o..o + 4] == t[o..o + 4]
    ensures LdDword(s, o) == LdDword(t, o)
  {
    var a, b := s[o..o + 4], t[o..o + 4];
    assert a[0] == s[o] && a[1] == s[o + 1] && a[2] == s[o + 2] && a[3] == s[o + 3];
    assert b[0] == t[o] && b[1] == t[o + 1] && b[2] == t[o + 2] && b[3] == t[o + 3];
  }

  /** st_clust: the low word, and on FAT32 the high word. */
  function StoreClust(g: Geometry, s: Sector, o: nat, cl: dword): Sector
    requires o + 32 <= 512
  {
    var s1 := Overwrite(s, o + 26, StWord(cl % 0x1_0000));
    if g.fsType == FAT32 then Overwrite(s1, o + 20, StWord(cl / 0x1_0000)) else s1
  }

  lemma StoreClustLoads(g: Geometry, s: Sector, o: nat, cl: dword)
    requires o + 32 <= 512 && (g.fsType != FAT32 ==> cl < 0x1_0000)
    ensures EntryClust(g, StoreClust(g, s, o, cl), o) == cl
    ensures forall j | 0 <= j < 512 && !(o + 20 <= j < o + 22 || o + 26 <= j < o + 28) ::
      StoreClust(g, s, o, cl)[j] == s[j]
  {
    hide StWord, Word;
    var s1 := Overwrite(s, o + 26, StWord(cl % 0x1_0000));
    OverwriteHit(s, o + 26, StWord(cl % 0x1_0000));
    WordStored(s1, o + 26, cl % 0x1_0000);
    if g.fsType == FAT32 {
      var s2 := Overwrite(s1, o + 20, StWord(cl / 0x1_0000));
      OverwriteHit(s1, o + 20, StWord(cl / 0x1_0000));
      WordStored(s2, o + 20, cl / 0x1_0000);
      assert s2[o + 26] == s1[o + 26] && s2[o + 27] == s1[o + 27];
    }
  }

  /** The entry update of f_sync. */
  function UpdatedEntry(g: Geometry, s: Sector, o: nat, sclust: dword, size: dword, tm: dword): Sector
    requires o + 32 <= 512
  {
    var s1 := Overwrite(s, o + 11, [SetArchive(s[o + 11])]);
    var s2 := StoreClust(g, s1, o, sclust);
    var s3 := Overwrite(s2, o + 28, StDword(size));
    var s4 := Overwrite(s3, o + 22, StDword(tm));
    Overwrite(s4, o + 18, StWord(0))
  }

  /** Two versions of a sector that differ in the entry at o only, and there neither in the name nor in the
      attributes but for the archive bit. */
  predicate EntryKept(s: Sector, t: Sector, o: nat)
    requires o + 32 <= 512
  {
    && (forall j | 0 <= j < 512 && !(o + 11 <= j < o + 32) :: t[j] == s[j])
    && (t[o + 11] == s[o + 11] || t[o + 11] == SetArchive(s[o + 11]))
  }

  /** It records cluster and size, keeps the name and touches no other entry of the sector. */
  lemma UpdatedEntryIs(g: Geometry, s: Sector, o: nat, sclust: dword, size: dword, tm: dword)
    requires o + 32 <= 512 && (g.fsType != FAT32 ==> sclust < 0x1_0000)
    ensures EntryIs(g, UpdatedEntry(g, s, o, sclust, size, tm), o, sclust, size)
    ensures EntryKept(s, UpdatedEntry(g, s, o, sclust, size, tm), o)
  {
    hide StWord, StDword, StoreClust, LdDword, Word, Overwrite, SetArchive;
    var s1 := Overwrite(s, o + 11, [SetArchive(s[o + 11])]);
    var s2 := StoreClust(g, s1, o, sclust);
    var s3 := Overwrite(s2, o + 28, StDword(size));
    var s4 := Overwrite(s3, o + 22, StDword(tm));
    var s5 := Overwrite(s4, o + 18, StWord(0));
    OverwriteElse(s, o + 11, [SetArchive(s[o + 11])]);
    OverwriteHit(s, o + 11, [SetArchive(s[o + 11])]);
    assert s1[o + 11] == s1[o + 11..o + 12][0];
    StoreClustLoads(g, s1, o, sclust);
    OverwriteElse(s2, o + 28, StDword(size));
    OverwriteElse(s3, o + 22, StDword(tm));
    OverwriteElse(s4, o + 18, StWord(0));
    OverwriteHit(s2, o + 28, StDword(size));
    DwordStored(s3, o + 28, size);
    assert s5[o + 28..o + 32] == s3[o + 28..o + 32];
    LoadSame(s5, s3, o + 28);
    assert s5[o + 26] == s2[o + 26] && s5[o + 27] == s2[o + 27];
    assert s5[o + 20] == s2[o + 20] && s5[o + 21] == s2[o + 21];
  }
}
