/** 8.3 names: create_name turns a path segment into an 11-byte entry name, get_fileinfo prints it. */
module ShortNames {
  import opened FatTypes
  import opened DirectoryMap

  const SPACE: byte := 0x20
  const DOT: byte := 0x2E

  /** Character i of a C string. */
  function At(p: seq<byte>, i: nat): byte { if i < |p| then p[i] else 0 }

  predicate IsSeparator(c: byte) { c == 0x2F || c == 0x5C }

  /** Where a segment ends: at the end of the path, a blank or control character, or a separator. */
  predicate Ends(c: byte) { c <= SPACE || IsSeparator(c) }

  /** Characters that no 8.3 name has. */
  const ILLEGAL: set<byte> := {0x22, 0x2A, 0x2B, 0x2C, 0x3A, 0x3B, 0x3C, 0x3D, 0x3E, 0x3F, 0x5B, 0x5D, 0x7C, 0x7F}

  predicate Legal(c: byte) { !Ends(c) && c < 0x80 && c != DOT && c !in ILLEGAL }

  function Upper(c: byte): byte { if 0x61 <= c <= 0x7A then c - 0x20 else c }

  function UpperAll(s: seq<byte>): (r: seq<byte>)
    ensures |r| == |s|
  {
    seq(|s|, i requires 0 <= i < |s| => Upper(s[i]))
  }

  function Spaces(n: nat): (r: seq<byte>)
    ensures |r| == n
  {
    seq(n, i => SPACE)
  }

  function Pad(s: seq<byte>, n: nat): (r: seq<byte>)
    requires |s| <= n
    ensures |r| == n
  {
    s + Spaces(n - |s|)
  }

  predicate AllLegal(s: seq<byte>) { forall i | 0 <= i < |s| :: Legal(s[i]) }

  /** A segment split at its first dot. */
  datatype Name = Name(body: seq<byte>, ext: seq<byte>, dotted: bool)

  /** Legal characters, at most eight and three. */
  predicate Partial(n: Name) {
    |n.body| <= 8 && |n.ext| <= 3 && AllLegal(n.body) && AllLegal(n.ext) && (!n.dotted ==> n.ext == [])
  }

  /** What the 8.3 rules allow: that, and not nothing at all. */
  predicate Fits(n: Name) { Partial(n) && (n.dotted || n.body != []) }

  /** The segment a name is written as. */
  function Written(n: Name): seq<byte> { n.body + if n.dotted then [DOT] + n.ext else [] }

  /** Its directory form. */
  function Encode(n: Name): (fn: seq<byte>)
    requires Partial(n)
    ensures |fn| == 11
  {
    Pad(UpperAll(n.body), 8) + Pad(UpperAll(n.ext), 3)
  }

  /** A path that starts with the segment n and goes on with its end. */
  predicate StartsWith(p: seq<byte>, n: Name) {
    Written(n) <= p && Ends(At(p, |Written(n)|))
  }

  /** How the next character of a segment belongs to it: body, dot or extension. */
  lemma NextOf(p: seq<byte>, cur: Name, n: Name)
    requires Partial(cur) && Written(cur) <= p && !Ends(At(p, |Written(cur)|)) && Fits(n) && StartsWith(p, n)
    ensures |Written(cur)| < |p|
    ensures var c := p[|Written(cur)|];
      if cur.dotted then n.dotted && n.body == cur.body && |n.ext| > |cur.ext| && n.ext[|cur.ext|] == c
      else if c == DOT then n.dotted && n.body == cur.body
      else |n.body| > |cur.body| && n.body[|cur.body|] == c
  {
    var x, y := Written(cur), Written(n);
    CharsOf(cur);
    CharsOf(n);
    forall i | 0 <= i < |x| ensures !Ends(p[i]) { assert p[i] == x[i]; }
    assert |y| > |x| && forall i | 0 <= i < |y| :: p[i] == y[i];
    SameBody(p, cur, n);
  }

  /** The characters of a written name. */
  lemma CharsOf(n: Name)
    requires Partial(n)
    ensures forall i | 0 <= i < |Written(n)| :: !Ends(Written(n)[i])
    ensures forall i | 0 <= i < |n.body| :: Written(n)[i] == n.body[i] && Written(n)[i] != DOT
    ensures n.dotted ==> Written(n)[|n.body|] == DOT
    ensures forall i | 0 <= i < |n.ext| :: Written(n)[|n.body| + 1 + i] == n.ext[i]
  {
  }

  /** The first dot splits a segment. */
  lemma SameBody(p: seq<byte>, cur: Name, n: Name)
    requires Partial(cur) && Partial(n) && Written(cur) <= p && Written(n) <= p && |Written(n)| > |Written(cur)|
    ensures cur.dotted ==>
      n.dotted && n.body == cur.body && |n.ext| > |cur.ext| &&
      n.ext[|cur.ext|] == p[|Written(cur)|]
    ensures !cur.dotted && p[|cur.body|] == DOT ==> n.dotted && n.body == cur.body
    ensures !cur.dotted && p[|cur.body|] != DOT ==> |n.body| > |cur.body| && n.body[|cur.body|] == p[|cur.body|]
  {
    CharsOf(cur);
    CharsOf(n);
    var x, y := Written(cur), Written(n);
    assert forall i | 0 <= i < |x| :: p[i] == x[i];
    assert forall i | 0 <= i < |y| :: p[i] == y[i];
    assert n.body[..|cur.body|] == cur.body;
  }

  // ----- create_name

  /** sfn[i++] = c for the next character of the body or the extension. */
  lemma EncodeStep(cur: Name, c: byte)
    requires Partial(cur) && Legal(c)
    ensures !cur.dotted && |cur.body| < 8 ==>
      var next := Name(cur.body + [c], [], false); Partial(next) && Encode(next) == Encode(cur)[|cur.body| := Upper(c)]
    ensures cur.dotted && |cur.ext| < 3 ==>
      var next := Name(cur.body, cur.ext + [c], true);
      Partial(next) && Encode(next) == Encode(cur)[8 + |cur.ext| := Upper(c)]
  {
    if !cur.dotted && |cur.body| < 8 {
      PadStep(cur.body, c, 8);
    } else if cur.dotted && |cur.ext| < 3 {
      PadStep(cur.ext, c, 3);
    }
  }

  lemma PadStep(s: seq<byte>, c: byte, n: nat)
    requires |s| < n
    ensures Pad(UpperAll(s + [c]), n) == Pad(UpperAll(s), n)[|s| := Upper(c)]
  {
  }

  /** Where the loop of create_name writes next, and where its current part ends. */
  function Cursor(n: Name): nat { if n.dotted then 8 + |n.ext| else |n.body| }
  function Limit(n: Name): nat { if n.dotted then 11 else 8 }

  /** Nothing that goes on with a character the loop rejects is an 8.3 name. */
  lemma Rejected(p: seq<byte>, cur: Name)
    requires Partial(cur) && Written(cur) <= p && !Ends(At(p, |Written(cur)|))
    requires var c := At(p, |Written(cur)|);
      if c == DOT then cur.dotted else Cursor(cur) >= Limit(cur) || !Legal(c)
    ensures forall n: Name | Fits(n) :: !StartsWith(p, n)
  {
    forall n: Name | Fits(n) ensures !StartsWith(p, n) {
      if StartsWith(p, n) { NextOf(p, cur, n); }
    }
  }

  /** An empty segment is no name. */
  lemma NothingThere(p: seq<byte>)
    requires Ends(At(p, 0))
    ensures forall n: Name | Fits(n) :: !StartsWith(p, n)
  {
    forall n: Name | Fits(n) ensures !StartsWith(p, n) {
      CharsOf(n);
      var first := Written(n)[0];
    }
  }

  /** Where the segment after the separators at i starts. */
  function NextSegment(p: seq<byte>, i: nat): (r: nat)
    ensures r >= i && !IsSeparator(At(p, r)) && forall j | i <= j < r :: IsSeparator(At(p, j))
    decreases |p| - i
  {
    if IsSeparator(At(p, i)) then NextSegment(p, i + 1) else i
  }

  /**
    create_name: accepts exactly the paths that start with an 8.3 name, and returns its directory
    form, where the next segment starts and whether there is none.
  */
  method CreateName(p: seq<byte>) returns (res: FResult, fn: seq<byte>, rest: nat, last: bool, ghost n: Name)
    requires 0 !in p
    ensures res == OK || res == InvalidName
    ensures res == OK ==> Fits(n) && StartsWith(p, n) && fn == Encode(n) && last == !IsSeparator(At(p, |Written(n)|))
    ensures res == OK ==> rest == if last then |Written(n)| + 1 else NextSegment(p, |Written(n)|)
    ensures res == InvalidName ==> forall m: Name | Fits(m) :: !StartsWith(p, m)
  {
    fn, rest, last, n := Spaces(11), 0, false, Name([], [], false);
    var si, i, ni := 0, 0, 8;
    var c: byte;
    while true
      invariant Partial(n) && Written(n) <= p && si == |Written(n)| && fn == Encode(n)
      invariant i == Cursor(n) && ni == Limit(n)
      decreases |p| + 1 - si
    {
      c := At(p, si);
      if c <= SPACE {
        si := si + 1;
        break;
      }
      if IsSeparator(c) {
        si := SkipSeparators(p, si + 1);
        break;
      }
      if c == DOT || i >= ni {
        if ni == 11 || c != DOT {
          Rejected(p, n);
          return InvalidName, fn, 0, false, n;
        }
        i, ni := 8, 11;
        n := n.(dotted := true);
      } else {
        if c >= 0x80 || c in ILLEGAL {
          Rejected(p, n);
          return InvalidName, fn, 0, false, n;
        }
        EncodeStep(n, c);
        n := if n.dotted then n.(ext := n.ext + [c]) else n.(body := n.body + [c]);
        fn, i := fn[i := Upper(c)], i + 1;
      }
      si := si + 1;
    }
    if i == 0 {
      NothingThere(p);
      return InvalidName, fn, 0, false, n;
    }
    assert fn[0] != DDEM;   // so the name is never changed to start with 0x05
    res, rest, last := OK, si, c <= SPACE;
  }

  method SkipSeparators(p: seq<byte>, from: nat) returns (si: nat)
    ensures si == NextSegment(p, from)
  {
    si := from;
    while IsSeparator(At(p, si))
      invariant NextSegment(p, si) == NextSegment(p, from)
      decreases |p| - si
    {
      si := si + 1;
    }
  }

  /** A name that was created is one a directory can hold. */
  lemma EncodedIsFileName(n: Name)
    requires Fits(n)
    ensures FileName(Encode(n))
  {
    var fn := Encode(n);
    assert fn[0] == if n.body == [] then SPACE else Upper(n.body[0]);
  }

  // ----- get_fileinfo

  /** What is printed from character i of an entry name on. */
  function PrintFrom(fn: seq<byte>, i: nat): (r: seq<byte>)
    requires |fn| == 11 && i <= 11
    decreases 11 - i
  {
    if i == 11 then []
    else if fn[i] == SPACE then PrintFrom(fn, i + 1)
    else (if i == 8 then [DOT] else []) + [if fn[i] == 0x05 then DDEM else fn[i]] + PrintFrom(fn, i + 1)
  }

  /** One step of printing. */
  lemma PrintStep(fn: seq<byte>, i: nat)
    requires |fn| == 11 && i <= 11
    ensures i == 11 ==> PrintFrom(fn, i) == []
    ensures i < 11 && fn[i] == SPACE ==> PrintFrom(fn, i) == PrintFrom(fn, i + 1)
    ensures i < 11 && fn[i] != SPACE ==>
      PrintFrom(fn, i) == (if i == 8 then [DOT] else []) + [if fn[i] == 0x05 then DDEM else fn[i]] +
        PrintFrom(fn, i + 1)
  {
  }

  /** The name part of get_fileinfo. */
  method GetName(fn: seq<byte>) returns (name: seq<byte>)
    requires |fn| == 11
    ensures name == PrintFrom(fn, 0) && |name| <= 12
  {
    hide PrintFrom;
    name := [];
    var i := 0;
    while i < 11
      invariant i <= 11 && name + PrintFrom(fn, i) == PrintFrom(fn, 0)
      invariant |name| <= if i <= 8 then i else i + 1
    {
      ghost var was, from := name, i;
      PrintStep(fn, i);
      var c := fn[i];
      i := i + 1;
      if c != SPACE {
        if c == 0x05 { c := DDEM; }
        if i == 9 { name := name + [DOT]; }
        name := name + [c];
        assert name + PrintFrom(fn, i) == was + PrintFrom(fn, from);
      }
    }
    PrintStep(fn, 11);
  }

  /** A stretch of characters of a part, then blanks to its end, is printed without the blanks. */
  lemma {:induction false} PrintPart(fn: seq<byte>, i: nat, s: seq<byte>, end: nat)
    requires |fn| == 11 && i + |s| <= end <= 11 && (i == end || (i < 8 && end <= 8) || 8 <= i)
    requires forall k | 0 <= k < |s| :: fn[i + k] == s[k] && s[k] > SPACE
    requires forall k | i + |s| <= k < end :: fn[k] == SPACE
    ensures PrintFrom(fn, i) == (if i == 8 && s != [] then [DOT] else []) + s + PrintFrom(fn, end)
    decreases end - i
  {
    hide PrintFrom;
    if i < end {
      PrintStep(fn, i);
      PrintPart(fn, i + 1, if s == [] then [] else s[1..], end);
      if s != [] {
        assert fn[i + 0] == s[0] && s == [s[0]] + s[1..];
      } else {
        assert fn[i] == SPACE;
      }
    }
  }

  lemma UpperLegal(s: seq<byte>)
    requires AllLegal(s)
    ensures AllLegal(UpperAll(s)) && UpperAll(UpperAll(s)) == UpperAll(s)
    ensures forall k | 0 <= k < |s| :: UpperAll(s)[k] > SPACE
  {
  }

  lemma LettersLegal(s: seq<byte>)
    requires forall k | 0 <= k < |s| :: 0x41 <= s[k] <= 0x5A
    ensures AllLegal(s)
  {
  }

  /** The canonical spelling of a name: upper case, a dot only before an extension. */
  function Canonical(n: Name): Name { Name(UpperAll(n.body), UpperAll(n.ext), n.ext != []) }

  /** A created name is printed in its canonical spelling, which fits the 13-byte field of FILINFO. */
  lemma PrintedName(n: Name)
    requires Fits(n)
    ensures PrintFrom(Encode(n), 0) == Written(Canonical(n)) && |Written(Canonical(n))| <= 12
  {
    hide PrintFrom, Encode, UpperAll, Pad;
    var fn, b, e := Encode(n), UpperAll(n.body), UpperAll(n.ext);
    EncodedChars(n);
    PrintStep(fn, 11);
    PrintPart(fn, 0, b, 8);
    PrintPart(fn, 8, e, 11);
    assert Written(Canonical(n)) == b + if e == [] then [] else [DOT] + e;
  }

  lemma EncodedChars(n: Name)
    requires Fits(n)
    ensures var fn, b := Encode(n), UpperAll(n.body);
      && (forall k | 0 <= k < |b| :: fn[k] == b[k] && b[k] > SPACE) && (forall k | |b| <= k < 8 :: fn[k] == SPACE)
    ensures var fn, e := Encode(n), UpperAll(n.ext);
      && (forall k | 0 <= k < |e| :: fn[8 + k] == e[k] && e[k] > SPACE) &&
        (forall k | 8 + |e| <= k < 11 :: fn[k] == SPACE)
  {
    UpperLegal(n.body);
    UpperLegal(n.ext);
  }

  /** Not every character of the entry name is blank. */
  predicate NonBlank(n: Name) { n.body != [] || n.ext != [] }

  /** The printed name is again a valid path, and stands for the same directory entry. */
  lemma RoundTrip(n: Name)
    requires Fits(n) && NonBlank(n)
    ensures var p := PrintFrom(Encode(n), 0);
      Fits(Canonical(n)) && StartsWith(p, Canonical(n)) && Encode(Canonical(n)) == Encode(n) && 0 !in p
  {
    PrintedName(n);
    UpperLegal(n.body);
    UpperLegal(n.ext);
    CharsOf(Canonical(n));
  }

  /** The one exception: a segment of a single dot gives a blank entry, which prints as nothing and is no path. */
  lemma BlankName(n: Name)
    requires Fits(n) && !NonBlank(n)
    ensures Encode(n) == Spaces(11) && forall m: Name | Fits(m) :: !StartsWith(PrintFrom(Encode(n), 0), m)
  {
    PrintedName(n);
    NothingThere(PrintFrom(Encode(n), 0));
  }

  /** Exactly the spellings that are already canonical are printed back unchanged. */
  lemma CanonicalPrintsBack(n: Name)
    requires Fits(n)
    ensures PrintFrom(Encode(n), 0) == Written(n) <==> n == Canonical(n)
  {
    PrintedName(n);
    var c := Canonical(n);
    if Written(c) == Written(n) {
      UpperLegal(n.body);
      UpperLegal(n.ext);
      SameWriting(c, n);
    }
  }

  lemma SameWriting(a: Name, b: Name)
    requires Partial(a) && Partial(b) && Written(a) == Written(b)
    ensures a == b
  {
    CharsOf(a);
    CharsOf(b);
    var x := Written(a);
    assert |a.body| == |b.body|;
    assert a.body == x[..|a.body|] && b.body == x[..|b.body|];
    if a.dotted { assert a.ext == x[|a.body| + 1..] && b.ext == x[|b.body| + 1..]; }
  }

  /** Printing and parsing again yields the same entry. */
  method PrintAndParse(p: seq<byte>) returns (fn: seq<byte>, again: seq<byte>, ok: bool)
    requires 0 !in p
    ensures ok ==> again == fn
  {
    var res, rest, last;
    ghost var n;
    res, fn, rest, last, n := CreateName(p);
    again, ok := fn, res == OK && !(forall i | 0 <= i < 11 :: fn[i] == SPACE);
    if ok {
      BlankIff(n);
      RoundTrip(n);
      var name := GetName(fn);
      ghost var m;
      res, again, rest, last, m := CreateName(name);
      SameStart(name, m, Canonical(n));
    }
  }

  lemma BlankIff(n: Name)
    requires Fits(n)
    ensures NonBlank(n) <==> !(forall i | 0 <= i < 11 :: Encode(n)[i] == SPACE)
  {
    var fn := Encode(n);
    if n.body != [] { assert fn[0] == Upper(n.body[0]); }
    if n.ext != [] { assert fn[8] == Upper(n.ext[0]); }
  }

  /** A path starts with at most one name. */
  lemma SameStart(p: seq<byte>, a: Name, b: Name)
    requires Fits(a) && Fits(b) && StartsWith(p, a) && StartsWith(p, b)
    ensures a == b
  {
    CharsOf(a);
    CharsOf(b);
    var x, y := Written(a), Written(b);
    assert forall i | 0 <= i < |x| :: p[i] == x[i];
    assert forall i | 0 <= i < |y| :: p[i] == y[i];
    assert |x| == |y|;
    assert x == y;
    SameWriting(a, b);
  }
}
