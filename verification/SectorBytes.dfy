/** Byte strings laid out in sectors. */
module SectorBytes {
  import opened Arithmetic

  type Sector = s: seq<Byte> | |s| == 512 witness seq(512, _ => 0)

  /** s with the elements from i on overwritten by d. */
  function Splice<T>(s: seq<T>, i: nat, d: seq<T>): (r: seq<T>)
    requires i + |d| <= |s|
    ensures |r| == |s|
    ensures forall k :: 0 <= k < |s| ==> r[k] == if i <= k < i + |d| then d[k - i] else s[k]
  {
    s[..i] + d + s[i + |d|..]
  }

  /** Sectors laid end to end. */
  function Flat(s: seq<Sector>): (b: seq<Byte>)
    ensures |b| == 512 * |s|
  {
    seq(512 * |s|, k requires 0 <= k < 512 * |s| => s[k / 512][k % 512])
  }

  /** A buffer of whole sectors, cut up. */
  function Chunks(data: seq<Byte>, n: nat): (s: seq<Sector>)
    requires |data| == 512 * n
    ensures |s| == n
  {
    seq(n, j requires 0 <= j < n => data[512 * j..512 * j + 512])
  }

  /** Sectors i to i + n laid end to end. */
  lemma FlatSlice(s: seq<Sector>, i: nat, n: nat)
    requires i + n <= |s|
    ensures Flat(s[i..i + n]) == Flat(s)[512 * i..512 * (i + n)]
  {
    var f := Flat(s)[512 * i..512 * (i + n)];
    forall k | 0 <= k < 512 * n
      ensures Flat(s[i..i + n])[k] == f[k]
    {
      DivMod(512 * i + k, 512, i + k / 512, k % 512);
    }
  }

  lemma FlatPrefix(s: seq<Sector>, t: seq<Sector>)
    requires |s| <= |t| && t[..|s|] == s
    ensures Flat(t)[..512 * |s|] == Flat(s)
  {
    forall k | 0 <= k < 512 * |s|
      ensures Flat(t)[k] == Flat(s)[k]
    {
      assert t[k / 512] == t[..|s|][k / 512];
    }
  }

  /** Part of one sector. */
  lemma FlatPart(s: seq<Sector>, i: nat, from: nat, to: nat)
    requires i < |s| && from <= to <= 512
    ensures Flat(s)[512 * i + from..512 * i + to] == s[i][from..to]
  {
    var f, w := Flat(s)[512 * i + from..512 * i + to], s[i][from..to];
    forall k | 0 <= k < to - from
      ensures f[k] == w[k]
    {
      DivMod(512 * i + from + k, 512, i, from + k);
    }
  }

  /** Overwriting part of one sector overwrites that part of the byte string. */
  lemma FlatPatch(s: seq<Sector>, i: nat, o: nat, d: seq<Byte>)
    requires i < |s| && o + |d| <= 512
    ensures Flat(s[i := Splice(s[i], o, d)]) == Splice(Flat(s), 512 * i + o, d)
  {
    var t := s[i := Splice(s[i], o, d)];
    forall k | 0 <= k < 512 * |s|
      ensures Flat(t)[k] == Splice(Flat(s), 512 * i + o, d)[k]
    {
      assert k == 512 * (k / 512) + k % 512;
    }
  }

  /** Overwriting one sector leaves the bytes before it alone. */
  lemma FlatBefore(s: seq<Sector>, i: nat, w: Sector, k: nat)
    requires i < |s| && k < 512 * i
    ensures Flat(s[i := w])[k] == Flat(s)[k]
  {}

  /** Overwriting whole sectors with the chunks of a buffer. */
  lemma FlatRun(s: seq<Sector>, i: nat, data: seq<Byte>, n: nat)
    requires i + n <= |s| && |data| == 512 * n
    ensures Flat(Splice(s, i, Chunks(data, n))) == Splice(Flat(s), 512 * i, data)
  {
    var t := Splice(s, i, Chunks(data, n));
    forall k | 0 <= k < 512 * |s|
      ensures Flat(t)[k] == Splice(Flat(s), 512 * i, data)[k]
    {
      FlatRunByte(s, i, data, n, k);
    }
  }

  lemma FlatRunByte(s: seq<Sector>, i: nat, data: seq<Byte>, n: nat, k: nat)
    requires i + n <= |s| && |data| == 512 * n && k < 512 * |s|
    ensures Splice(s, i, Chunks(data, n))[k / 512][k % 512] == Splice(Flat(s), 512 * i, data)[k]
  {
    var q, r := k / 512, k % 512;
    assert k == 512 * q + r;
    if i <= q < i + n {
      assert Chunks(data, n)[q - i] == data[512 * (q - i)..512 * (q - i) + 512];
    }
  }

  lemma SlicePrefix<T>(s: seq<T>, a: nat, b: nat, n: nat)
    requires a <= b <= n <= |s|
    ensures s[..n][a..b] == s[a..b]
  {}

  lemma SliceJoin<T>(s: seq<T>, a: nat, b: nat, c: nat)
    requires a <= b <= c <= |s|
    ensures s[a..b] + s[b..c] == s[a..c]
  {}
}
