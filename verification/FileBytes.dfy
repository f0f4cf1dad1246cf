/** A file as bytes, read off the sectors that store it. */
module FileBytes {
  import opened FatTypes

  /** The first n bytes of a list of sectors. */
  function Bytes(body: seq<Sector>, n: nat): (r: seq<byte>)
    requires n <= |body| * 512
    ensures |r| == n
  {
    seq(n, p requires 0 <= p < n => body[p / 512][p % 512])
  }

  /** s with x in place of the bytes from o on. */
  function Patch(s: seq<byte>, o: nat, x: seq<byte>): (r: seq<byte>)
    requires o + |x| <= |s|
    ensures |r| == |s|
  {
    s[..o] + x + s[o + |x|..]
  }

  /** mem_cpy into a byte buffer. */
  method CopyBytes(a: array<byte>, o: nat, x: seq<byte>)
    requires o + |x| <= a.Length
    modifies a
    ensures a[..] == Patch(old(a[..]), o, x)
  {
    forall i | 0 <= i < |x| { a[o + i] := x[i]; }
  }

  lemma PatchHead(s: seq<byte>, x: seq<byte>)
    requires |x| <= |s|
    ensures Patch(s, 0, x)[..|x|] == x
  {
  }

  lemma PatchTwice(s: seq<byte>, o: nat, x: seq<byte>, y: seq<byte>)
    requires o + |x| + |y| <= |s|
    ensures Patch(Patch(s, o, x), o + |x|, y) == Patch(s, o, x + y)
  {
  }

  /** Overwriting part of a patched stretch. */
  lemma PatchInner(s: seq<byte>, o: nat, x: seq<byte>, d: nat, y: seq<byte>)
    requires o + |x| <= |s| && d + |y| <= |x|
    ensures Patch(Patch(s, o, x), o + d, y) == Patch(s, o, Patch(x, d, y))
  {
  }

  /** d with x written at position p, growing when the write ends past the end. */
  function Splice(d: seq<byte>, p: nat, x: seq<byte>): (r: seq<byte>)
    requires p <= |d|
    ensures |r| == if p + |x| > |d| then p + |x| else |d|
  {
    d[..p] + x + if p + |x| > |d| then [] else d[p + |x|..]
  }

  lemma SpliceAt(d: seq<byte>, p: nat, x: seq<byte>, i: nat)
    requires p <= |d| && i < |Splice(d, p, x)|
    ensures p <= i < p + |x| ==> Splice(d, p, x)[i] == x[i - p]
    ensures !(p <= i < p + |x|) ==> i < |d| && Splice(d, p, x)[i] == d[i]
  {
  }

  lemma SpliceNothing(d: seq<byte>, p: nat, x: seq<byte>)
    requires p <= |d|
    ensures Splice(d, p, x[..0]) == d
  {
  }

  /** Two writes in a row are one. */
  lemma SpliceTwice(d: seq<byte>, p: nat, x: seq<byte>, y: seq<byte>)
    requires p <= |d|
    ensures p + |x| <= |Splice(d, p, x)| && Splice(Splice(d, p, x), p + |x|, y) == Splice(d, p, x + y)
  {
  }

  /** Writing within one sector: the rest of the live bytes of that sector is kept. */
  lemma BytesPartial(body: seq<Sector>, body': seq<Sector>, n: nat, p: nat, x: seq<byte>)
    requires p <= n <= |body| * 512 && p / 512 < |body| && p % 512 + |x| <= 512 && |body'| == |body|
    requires forall k | 0 <= k < |body| && k != p / 512 :: body'[k] == body[k]
    requires forall j | 0 <= j < |x| :: body'[p / 512][p % 512 + j] == x[j]
    requires forall j | 0 <= j < 512 && !(p % 512 <= j < p % 512 + |x|) && p / 512 * 512 + j < n ::
      body'[p / 512][j] == body[p / 512][j]
    ensures Bytes(body', if p + |x| > n then p + |x| else n) == Splice(Bytes(body, n), p, x)
  {
    var d, d' := Bytes(body, n), Bytes(body', if p + |x| > n then p + |x| else n);
    forall i: nat | i < |d'| ensures d'[i] == Splice(d, p, x)[i] {
      SpliceAt(d, p, x, i);
      if p <= i < p + |x| {
        assert i / 512 == p / 512 && i % 512 == p % 512 + (i - p);
      }
    }
  }

  /** body' is body with cnt sectors from position k on replaced by x. */
  ghost predicate RunWritten(body: seq<Sector>, body': seq<Sector>, k: nat, cnt: nat, x: seq<byte>) {
    && |body'| == |body| && k + cnt <= |body| && |x| == cnt * 512
    && (forall l | 0 <= l < |body| && !(k <= l < k + cnt) :: body'[l] == body[l])
    && (forall l: nat | k <= l < k + cnt :: body'[l] == Chunk(x, l - k))
  }

  /** Writing whole sectors. */
  lemma BytesWhole(body: seq<Sector>, body': seq<Sector>, n: nat, k: nat, cnt: nat, x: seq<byte>)
    requires k * 512 <= n <= |body| * 512 && RunWritten(body, body', k, cnt, x)
    ensures k * 512 + |x| <= |body'| * 512 && |body'| == |body|
    ensures Bytes(body', if k * 512 + |x| > n then k * 512 + |x| else n) == Splice(Bytes(body, n), k * 512, x)
  {
    var d, d' := Bytes(body, n), Bytes(body', if k * 512 + |x| > n then k * 512 + |x| else n);
    forall i: nat | i < |d'| ensures d'[i] == Splice(d, k * 512, x)[i] {
      SpliceAt(d, k * 512, x, i);
      var l := i / 512;
      if k <= l < k + cnt {
        assert i - k * 512 == (l - k) * 512 + i % 512;
      }
    }
  }

  /** Growing the file keeps what was there. */
  lemma BytesPrefix(body: seq<Sector>, body': seq<Sector>, n: nat, n': nat)
    requires n <= |body| * 512 && n <= n' <= |body'| * 512
    requires forall k: nat | k < |body| && k < |body'| && k * 512 < n :: body'[k] == body[k]
    ensures Bytes(body', n')[..n] == Bytes(body, n)
  {
  }

  /** The cached write: x copied into the content mid of sector p / 512, which is live or beyond the end. */
  lemma BytesPatch(body: seq<Sector>, n: nat, p: nat, mid: Sector, x: seq<byte>)
    requires p <= n <= |body| * 512 && p / 512 < |body| && p % 512 + |x| <= 512
    requires mid == body[p / 512] || (p == n && p % 512 == 0)
    ensures p + |x| <= |body| * 512
    ensures Bytes(body[p / 512 := Overwrite(mid, p % 512, x)], if p + |x| > n then p + |x| else n) ==
      Splice(Bytes(body, n), p, x)
  {
    BytesPartial(body, body[p / 512 := Overwrite(mid, p % 512, x)], n, p, x);
  }

  /** x is the content of cnt sectors of the body from position k on. */
  ghost predicate RunRead(body: seq<Sector>, k: nat, cnt: nat, x: seq<byte>) {
    k + cnt <= |body| && |x| == cnt * 512 && forall l: nat | k <= l < k + cnt :: Chunk(x, l - k) == body[l]
  }

  lemma BytesRun(body: seq<Sector>, n: nat, k: nat, cnt: nat, x: seq<byte>)
    requires RunRead(body, k, cnt, x) && (k + cnt) * 512 <= n <= |body| * 512
    ensures x == Bytes(body, n)[k * 512..k * 512 + |x|]
  {
    forall i: nat | i < |x| ensures x[i] == body[(k * 512 + i) / 512][(k * 512 + i) % 512] {
      var l := k + i / 512;
      assert Chunk(x, l - k)[i % 512] == x[i];
    }
  }

  /** Part of one sector. */
  lemma BytesWithin(body: seq<Sector>, n: nat, p: nat, w: nat)
    requires p % 512 + w <= 512 && p + w <= n <= |body| * 512 && p / 512 < |body|
    ensures body[p / 512][p % 512..p % 512 + w] == Bytes(body, n)[p..p + w]
  {
  }
}
