/** Machine integers of the C sources, their little-endian byte form, and the
    byte-range copy that `memcpy` performs. */
module Bytes {

  type byte = x: int | 0 <= x < 0x100
  type half = x: int | 0 <= x < 0x1_0000
  type word = x: int | 0 <= x < 0x1_0000_0000

  function Le16(x: half): (b: seq<byte>)
    ensures |b| == 2
  {
    [x % 0x100, x / 0x100]
  }

  function FromLe16(b: seq<byte>): half
    requires |b| == 2
  {
    b[0] as int + 0x100 * b[1] as int
  }

  function Le32(x: word): (b: seq<byte>)
    ensures |b| == 4
  {
    Le16(x % 0x1_0000) + Le16(x / 0x1_0000)
  }

  function FromLe32(b: seq<byte>): word
    requires |b| == 4
  {
    FromLe16(b[..2]) as int + 0x1_0000 * FromLe16(b[2..]) as int
  }

  lemma Le16RoundTrip(x: half, b: seq<byte>)
    requires |b| == 2
    ensures FromLe16(Le16(x)) == x
    ensures Le16(FromLe16(b)) == b
  {
  }

  lemma Le32RoundTrip(x: word, b: seq<byte>)
    requires |b| == 4
    ensures FromLe32(Le32(x)) == x
    ensures Le32(FromLe32(b)) == b
  {
    Le32Decodes(x);
    Le32Encodes(b);
  }

  lemma Le32Decodes(x: word)
    ensures FromLe32(Le32(x)) == x
  {
    var low, high := x % 0x1_0000, x / 0x1_0000;
    assert Le32(x)[..2] == Le16(low) && Le32(x)[2..] == Le16(high);
    Le16RoundTrip(low, Le16(low));
    Le16RoundTrip(high, Le16(high));
  }

  lemma Le32Encodes(b: seq<byte>)
    requires |b| == 4
    ensures Le32(FromLe32(b)) == b
  {
    var low, high := FromLe16(b[..2]), FromLe16(b[2..]);
    Le16RoundTrip(0, b[..2]);
    Le16RoundTrip(0, b[2..]);
    assert FromLe32(b) % 0x1_0000 == low && FromLe32(b) / 0x1_0000 == high;
    assert b == b[..2] + b[2..];
  }

  /** The low byte comes first. */
  lemma Le16Bytes(b: seq<byte>)
    requires |b| == 2
    ensures FromLe16(b) == b[0] as int + 0x100 * b[1] as int
  {
  }

  lemma Le32Bytes(b: seq<byte>)
    requires |b| == 4
    ensures FromLe32(b) == b[0] as int + 0x100 * b[1] as int + 0x1_0000 * b[2] as int + 0x100_0000 * b[3] as int
  {
  }

  /** `s` with `data` copied over the bytes that start at `at`. */
  function Splice(s: seq<byte>, at: nat, data: seq<byte>): (r: seq<byte>)
    requires at + |data| <= |s|
    ensures |r| == |s|
  {
    s[..at] + data + s[at + |data|..]
  }

  lemma SpliceAt(s: seq<byte>, at: nat, data: seq<byte>, r: seq<byte>)
    requires at + |data| <= |s| == |r|
    requires forall k :: 0 <= k < |data| ==> r[at + k] == data[k]
    requires forall k :: 0 <= k < |s| && !(at <= k < at + |data|) ==> r[k] == s[k]
    ensures r == Splice(s, at, data)
  {
    forall k | 0 <= k < |s|
      ensures r[k] == Splice(s, at, data)[k]
    {
      if at <= k < at + |data| {
        assert r[at + (k - at)] == data[k - at];
      }
    }
  }

  lemma SpliceReads(s: seq<byte>, at: nat, data: seq<byte>, from: nat, to: nat)
    requires at + |data| <= |s| && from <= to <= |s|
    ensures Splice(s, at, data)[at..at + |data|] == data
    ensures to <= at || at + |data| <= from ==> Splice(s, at, data)[from..to] == s[from..to]
  {
  }

  lemma SpliceNothing(s: seq<byte>, at: nat)
    requires at <= |s|
    ensures Splice(s, at, []) == s
  {
  }

  lemma SpliceTwice(s: seq<byte>, at: nat, a: seq<byte>, b: seq<byte>)
    requires at + |a| + |b| <= |s|
    ensures Splice(Splice(s, at, a), at + |a|, b) == Splice(s, at, a + b)
  {
  }

  /** The characters of a text as bytes. */
  function Text(s: string): (b: seq<byte>)
    ensures |b| == |s|
  {
    seq<byte>(|s|, i requires 0 <= i < |s| => s[i] as int % 0x100)
  }

  lemma SliceOfSlice(s: seq<byte>, at: nat, n: nat, from: nat, to: nat)
    requires at + n <= |s| && from <= to <= n
    ensures s[at..at + n][from..to] == s[at + from..at + to]
  {
    var a, b := s[at..at + n][from..to], s[at + from..at + to];
    assert |a| == |b| == to - from;
    forall k | 0 <= k < to - from
      ensures a[k] == b[k]
    {
      assert a[k] == s[at..at + n][from + k] == s[at + from + k];
    }
  }

  /** The numbers below `n`. */
  ghost function Range(n: nat): (r: set<nat>)
    ensures |r| == n && forall i: nat :: i in r <==> i < n
  {
    if n == 0 then {} else Range(n - 1) + {n - 1}
  }
}
