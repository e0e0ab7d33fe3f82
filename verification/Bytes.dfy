/** Bytes, little-endian integers and in-place buffer updates: the helpers of
    `src/pst/pst_format.h` that every on-disk structure is written with. */
module Bytes {

  type byte = x: int | 0 <= x < 256

  type Buf = seq<byte>

  const U16: nat := 0x1_0000
  const U32: nat := 0x1_0000_0000
  const U64: nat := 0x1_0000_0000_0000_0000

  /** `n` zero bytes. */
  function Zeros(n: nat): (s: Buf)
    ensures |s| == n
    ensures forall i :: 0 <= i < n ==> s[i] == 0
  {
    seq(n, _ => 0)
  }

  function Fill(v: byte, n: nat): (s: Buf)
    ensures |s| == n
    ensures forall i :: 0 <= i < n ==> s[i] == v
  {
    seq(n, _ => v)
  }

  /** 256 to the power `n`. */
  function Pow256(n: nat): (p: nat)
    ensures p >= 1
  {
    if n == 0 then 1 else 256 * Pow256(n - 1)
  }

  /** The `n` low bytes of `v`, least significant first. */
  function Le(v: nat, n: nat): (s: Buf)
    ensures |s| == n
  {
    if n == 0 then [] else [v % 256] + Le(v / 256, n - 1)
  }

  /** The integer a little-endian byte string denotes. */
  function Peek(s: Buf): nat {
    if s == [] then 0 else s[0] + 256 * Peek(s[1..])
  }

  lemma {:induction false} PeekLe(v: nat, n: nat)
    ensures Peek(Le(v, n)) == v % Pow256(n)
  {
    if n > 0 {
      var p := Pow256(n - 1);
      assert Le(v, n)[1..] == Le(v / 256, n - 1);
      PeekLe(v / 256, n - 1);
      ModSplit(v, p);
    }
  }

  /** v mod 256p, taken apart at the lowest byte. */
  lemma ModSplit(v: nat, p: nat)
    requires p >= 1
    ensures v % (256 * p) == v % 256 + 256 * ((v / 256) % p)
  {
    var q, r := v / 256, v % 256;
    var a, b := q / p, q % p;
    assert v == 256 * (a * p + b) + r;
    assert 256 * (a * p + b) == (256 * p) * a + 256 * b;
    assert 0 <= 256 * b + r < 256 * p;
    ModUnique(v, 256 * p, a, 256 * b + r);
  }

  lemma ModUnique(v: nat, m: nat, a: nat, r: nat)
    requires m >= 1 && r < m && v == m * a + r
    ensures v % m == r && v / m == a
  {
    var d := v / m - a;
    assert m * d == r - v % m by { assert m * (v / m) == m * a + m * d; }
    assert d >= 1 ==> m * d >= m;
    assert d <= -1 ==> m * d <= m * -1;
  }

  lemma {:induction false} PeekBound(s: Buf)
    ensures Peek(s) < Pow256(|s|)
  {
    if s != [] { PeekBound(s[1..]); }
  }

  lemma Pow256Values()
    ensures Pow256(1) == 0x100
    ensures Pow256(2) == 0x1_0000
    ensures Pow256(4) == 0x1_0000_0000
    ensures Pow256(8) == 0x1_0000_0000_0000_0000
  {
    assert Pow256(3) == 0x100_0000;
    assert Pow256(4) == 0x1_0000_0000;
    assert Pow256(6) == 0x1_0000_0000_0000;
    assert Pow256(7) == 0x100_0000_0000_0000;
  }

  function Put16(v: nat): (s: Buf) ensures |s| == 2 { Le(v, 2) }
  function Put32(v: nat): (s: Buf) ensures |s| == 4 { Le(v, 4) }
  function Put64(v: nat): (s: Buf) ensures |s| == 8 { Le(v, 8) }

  lemma PeekPut16(v: nat)
    requires v < U16
    ensures Peek(Put16(v)) == v
  {
    PeekLe(v, 2); Pow256Values();
  }

  lemma PeekPut32(v: nat)
    requires v < U32
    ensures Peek(Put32(v)) == v
  {
    PeekLe(v, 4); Pow256Values();
  }

  lemma PeekPut64(v: nat)
    requires v < U64
    ensures Peek(Put64(v)) == v
  {
    PeekLe(v, 8); Pow256Values();
  }

  /** Two little-endian strings of one length that denote one number are equal. */
  lemma {:induction false} PeekInjective(a: Buf, b: Buf)
    requires |a| == |b| && Peek(a) == Peek(b)
    ensures a == b
  {
    if a != [] {
      assert Peek(a) % 256 == a[0] && Peek(b) % 256 == b[0];
      PeekInjective(a[1..], b[1..]);
      assert a == [a[0]] + a[1..] && b == [b[0]] + b[1..];
    }
  }

  /** The bytes of `s` from `off` on, `n` of them; empty when they are not there. */
  function Sub(s: Buf, off: nat, n: nat): (r: Buf)
    ensures off + n <= |s| ==> r == s[off..off + n]
  {
    if off + n <= |s| then s[off..off + n] else []
  }

  lemma SliceOfSlice(s: Buf, a: nat, b: nat, c: nat, d: nat)
    requires a <= b <= |s| && c <= d <= b - a
    ensures s[a..b][c..d] == s[a + c..a + d]
  {
    var x, y := s[a..b][c..d], s[a + c..a + d];
    assert |x| == |y|;
    assert forall i :: 0 <= i < |x| ==> x[i] == s[a + c + i] && y[i] == s[a + c + i];
  }

  lemma SliceRight(a: Buf, b: Buf, x: nat, y: nat)
    requires x <= y <= |b|
    ensures (a + b)[|a| + x..|a| + y] == b[x..y]
  {
  }

  function Peek16At(s: Buf, off: nat): nat { Peek(Sub(s, off, 2)) }
  function Peek32At(s: Buf, off: nat): nat { Peek(Sub(s, off, 4)) }
  function Peek64At(s: Buf, off: nat): nat { Peek(Sub(s, off, 8)) }

  /** `s` with `d` written over it at `off` (memcpy into a buffer). */
  function Poke(s: Buf, off: nat, d: Buf): (r: Buf)
    requires off + |d| <= |s|
    ensures |r| == |s|
    ensures r[off..off + |d|] == d
    ensures forall i :: 0 <= i < |s| && (i < off || off + |d| <= i) ==> r[i] == s[i]
  {
    s[..off] + d + s[off + |d|..]
  }

  function AlignUp(v: nat, a: nat): (r: nat)
    requires a > 0
  {
    (v + a - 1) / a * a
  }

  /** put16, put32 and put64 append one byte at a time, shifting the value down. */
  method AppendLe(b: Buf, v: nat, n: nat) returns (r: Buf)
    ensures r == b + Le(v, n)
  {
    r := b;
    var x := v;
    for i := 0 to n
      invariant r + Le(x, n - i) == b + Le(v, n)
    {
      assert Le(x, n - i) == [x % 256] + Le(x / 256, n - i - 1);
      r := r + [x % 256];
      x := x / 256;
    }
  }
}
