/** The machine representation every process of the system shares: bytes, C integers
    and the little-endian images that `memcpy` moves in and out of buffers.
    A `float` is never computed with here, so it is kept as its four bytes. */
module Bytes {

  type byte = x: int | 0 <= x < 256

  /** A C `int` and a C `size_t` (LP64). */
  type int32 = x: int | -0x8000_0000 <= x < 0x8000_0000
  type size = x: int | 0 <= x < 0x1_0000_0000_0000_0000

  type float4 = f: seq<byte> | |f| == 4 witness [0, 0, 0, 0]

  const INT_MAX: int := 0x7fff_ffff

  datatype Option<+T> = None | Some(value: T)

  function LittleEndian(v: nat, n: nat): (b: seq<byte>)
    ensures |b| == n
  {
    if n == 0 then [] else [v % 256] + LittleEndian(v / 256, n - 1)
  }

  function FromLittleEndian(b: seq<byte>): nat {
    if b == [] then 0 else b[0] + 256 * FromLittleEndian(b[1..])
  }

  function Pow256(n: nat): nat {
    if n == 0 then 1 else 256 * Pow256(n - 1)
  }

  lemma {:induction false} LittleEndianRoundTrip(v: nat, n: nat)
    requires v < Pow256(n)
    ensures FromLittleEndian(LittleEndian(v, n)) == v
  {
    if n != 0 {
      LittleEndianRoundTrip(v / 256, n - 1);
      assert LittleEndian(v, n)[1..] == LittleEndian(v / 256, n - 1);
    }
  }

  lemma {:induction false} FromLittleEndianRoundTrip(b: seq<byte>)
    ensures FromLittleEndian(b) < Pow256(|b|)
    ensures LittleEndian(FromLittleEndian(b), |b|) == b
  {
    if b != [] {
      FromLittleEndianRoundTrip(b[1..]);
      assert b == [b[0]] + b[1..];
    }
  }

  lemma WordSizes()
    ensures Pow256(4) == 0x1_0000_0000
    ensures Pow256(8) == 0x1_0000_0000_0000_0000
  {
  }

  /** The four bytes of an `int` in two's complement. */
  function IntBytes(i: int32): (b: seq<byte>)
    ensures |b| == 4
  {
    LittleEndian(if i < 0 then i + 0x1_0000_0000 else i, 4)
  }

  function IntAt(b: seq<byte>): int32
    requires |b| == 4
  {
    FromLittleEndianRoundTrip(b);
    WordSizes();
    var v := FromLittleEndian(b);
    if v < 0x8000_0000 then v else v - 0x1_0000_0000
  }

  /** The eight bytes of a `size_t`. */
  function SizeBytes(n: size): (b: seq<byte>)
    ensures |b| == 8
  {
    LittleEndian(n, 8)
  }

  function SizeAt(b: seq<byte>): size
    requires |b| == 8
  {
    FromLittleEndianRoundTrip(b);
    WordSizes();
    FromLittleEndian(b)
  }

  /** The image of an `int` and the value are in one-to-one correspondence. */
  lemma IntRoundTrip(i: int32)
    ensures IntAt(IntBytes(i)) == i
  {
    WordSizes();
    LittleEndianRoundTrip(if i < 0 then i + 0x1_0000_0000 else i, 4);
  }

  lemma IntImage(b: seq<byte>)
    requires |b| == 4
    ensures IntBytes(IntAt(b)) == b
  {
    WordSizes();
    FromLittleEndianRoundTrip(b);
  }

  lemma SizeRoundTrip(n: size)
    ensures SizeAt(SizeBytes(n)) == n
  {
    WordSizes();
    LittleEndianRoundTrip(n, 8);
  }

  lemma SizeImage(b: seq<byte>)
    requires |b| == 8
    ensures SizeBytes(SizeAt(b)) == b
  {
    WordSizes();
    FromLittleEndianRoundTrip(b);
  }

  // ------------------------------------------------------------------ what lies where

  predicate HoldsBytes(b: seq<byte>, at: nat, s: seq<byte>) {
    at + |s| <= |b| && b[at..at + |s|] == s
  }

  function Word(p: int, q: int, r: int, s: int): int {
    p + 0x100 * q + 0x1_0000 * r + 0x100_0000 * s
  }

  /** Four bytes, the lowest first, of an `int` in two's complement. */
  predicate HoldsInt(b: seq<byte>, at: nat, n: int) {
    at + 4 <= |b| && Word(b[at], b[at + 1], b[at + 2], b[at + 3]) == if n < 0 then n + 0x1_0000_0000 else n
  }

  /** Eight bytes, the lowest first, of a `size_t`. */
  predicate HoldsSize(b: seq<byte>, at: nat, n: int) {
    && at + 8 <= |b|
    && Word(b[at], b[at + 1], b[at + 2], b[at + 3])
       + 0x1_0000_0000 * Word(b[at + 4], b[at + 5], b[at + 6], b[at + 7]) == n
  }

  lemma IntLies(b: seq<byte>, at: nat, i: int32)
    requires HoldsBytes(b, at, IntBytes(i))
    ensures HoldsInt(b, at, i)
  {
    hide IntBytes, Word;
    var w := IntBytes(i);
    IntRoundTrip(i);
    FourBytes(w);
    WordSizes();
    FromLittleEndianRoundTrip(w);
    assert b[at] == w[0] && b[at + 1] == w[1] && b[at + 2] == w[2] && b[at + 3] == w[3];
  }

  lemma FourBytes(w: seq<byte>)
    requires |w| == 4
    ensures FromLittleEndian(w) == Word(w[0], w[1], w[2], w[3])
  {
    assert FromLittleEndian(w[1..][1..][1..][1..]) == 0;
    assert FromLittleEndian(w[1..][1..][1..]) == w[3];
    assert FromLittleEndian(w[1..][1..]) == w[2] as int + 0x100 * w[3] as int;
  }

  lemma SizeLies(b: seq<byte>, at: nat, n: size)
    requires HoldsBytes(b, at, SizeBytes(n))
    ensures HoldsSize(b, at, n)
  {
    hide SizeBytes, FromLittleEndian, Word;
    var w := SizeBytes(n);
    SizeRoundTrip(n);
    EightBytes(w);
    assert b[at] == w[0] && b[at + 1] == w[1] && b[at + 2] == w[2] && b[at + 3] == w[3];
    assert b[at + 4] == w[4] && b[at + 5] == w[5] && b[at + 6] == w[6] && b[at + 7] == w[7];
  }

  lemma EightBytes(w: seq<byte>)
    requires |w| == 8
    ensures FromLittleEndian(w) == Word(w[0], w[1], w[2], w[3]) + 0x1_0000_0000 * Word(w[4], w[5], w[6], w[7])
  {
    var v := w[4..];
    FourBytes(v);
    assert w[1..][1..][1..][1..] == v;
    assert FromLittleEndian(w[1..][1..][1..]) == w[3] + 0x100 * FromLittleEndian(v);
    assert FromLittleEndian(w[1..][1..]) == w[2] as int + 0x100 * w[3] as int + 0x1_0000 * FromLittleEndian(v);
  }

  /** What lies in a part lies in the whole. */
  lemma LiesWithin(b: seq<byte>, at: nat, w: seq<byte>, k: nat, s: seq<byte>)
    requires HoldsBytes(b, at, w) && HoldsBytes(w, k, s)
    ensures HoldsBytes(b, at + k, s)
  {
    forall j | 0 <= j < |s|
      ensures b[at + k..at + k + |s|][j] == s[j]
    {
      assert b[at..at + |w|][k + j] == w[k + j] == w[k..k + |s|][j];
    }
  }

  lemma PartsLie(p: seq<byte>, q: seq<byte>, r: seq<byte>, s: seq<byte>)
    ensures var w := p + q + r + s;
            && HoldsBytes(w, 0, p) && HoldsBytes(w, |p|, q)
            && HoldsBytes(w, |p| + |q|, r) && HoldsBytes(w, |p| + |q| + |r|, s)
  {
  }

  /** `memcpy` into a buffer: overwrites exactly the bytes at `offset`. */
  method Store(dest: array<byte>, offset: nat, src: seq<byte>)
    requires offset + |src| <= dest.Length
    modifies dest
    ensures dest[..offset + |src|] == old(dest[..offset]) + src
    ensures dest[offset + |src|..] == old(dest[offset + |src|..])
  {
    var k := 0;
    while k < |src|
      invariant k <= |src|
      invariant dest[..offset + k] == old(dest[..offset]) + src[..k]
      invariant dest[offset + k..] == old(dest[offset + k..])
    {
      assert dest[offset + k + 1..] == dest[offset + k..][1..];
      dest[offset + k] := src[k];
      k := k + 1;
    }
    assert src[..k] == src;
  }
}
