/** UTF-8 to UTF-16LE, the on-disk form of every Unicode property. */
module Utf {
  import opened Bytes

  const REPLACEMENT: nat := 0xFFFD

  predicate IsScalar(cp: nat) { cp <= 0x10FFFF && !(0xD800 <= cp <= 0xDFFF) }

  /** How many continuation bytes a lead byte asks for, and the bits it brings. */
  function Lead(c: byte): (nat, nat) {
    if c < 0x80 then (c, 0)
    else if 0xC0 <= c < 0xE0 then (c - 0xC0, 1)
    else if 0xE0 <= c < 0xF0 then (c - 0xE0, 2)
    else if 0xF0 <= c < 0xF8 then (c - 0xF0, 3)
    else (REPLACEMENT, 0)
  }

  predicate IsContinuation(c: byte) { 0x80 <= c < 0xC0 }

  /** Reads `n` continuation bytes, each adding six bits; stops at a byte that is none. */
  function Continue(cp: nat, s: Buf, n: nat): (r: (nat, bool))
    requires n <= |s|
    decreases n
  {
    if n == 0 then (cp, true)
    else if !IsContinuation(s[0]) then (REPLACEMENT, false)
    else Continue(cp * 64 + (s[0] - 0x80), s[1..], n - 1)
  }

  /** The first character and the bytes it takes. Anything malformed takes one byte. */
  function Step(s: Buf): (r: (nat, nat))
    requires s != []
    ensures 1 <= r.1 <= |s| && IsScalar(r.0)
  {
    var (bits, extra) := Lead(s[0]);
    var (cp, n) :=
      if extra >= |s| then (REPLACEMENT, 0)
      else
        var (v, good) := Continue(bits, s[1..], extra);
        if good then (v, extra) else (REPLACEMENT, 0);
    (if IsScalar(cp) then cp else REPLACEMENT, n + 1)
  }

  function Scalars(s: Buf): (cps: seq<nat>)
    ensures forall i :: 0 <= i < |cps| ==> IsScalar(cps[i])
    decreases |s|
  {
    if s == [] then [] else var (cp, n) := Step(s); [cp] + Scalars(s[n..])
  }

  /** One code unit, or a surrogate pair. */
  function Units(cp: nat): (b: Buf) {
    if cp < 0x10000 then Put16(cp)
    else Put16(0xD800 + (cp - 0x10000) / 1024) + Put16(0xDC00 + (cp - 0x10000) % 1024)
  }

  function EncodeUtf16(cps: seq<nat>): Buf {
    if cps == [] then [] else Units(cps[0]) + EncodeUtf16(cps[1..])
  }

  /** Well-formed UTF-8, as section 3 of RFC 3629 defines it. */
  function EncodeOne(cp: nat): (b: Buf)
    requires IsScalar(cp)
    ensures 1 <= |b| <= 4
  {
    if cp < 0x80 then [cp]
    else if cp < 0x800 then [0xC0 + cp / 64, 0x80 + cp % 64]
    else if cp < 0x10000 then [0xE0 + cp / 4096, 0x80 + cp / 64 % 64, 0x80 + cp % 64]
    else [0xF0 + cp / 262144, 0x80 + cp / 4096 % 64, 0x80 + cp / 64 % 64, 0x80 + cp % 64]
  }

  function EncodeUtf8(cps: seq<nat>): Buf
    requires forall i :: 0 <= i < |cps| ==> IsScalar(cps[i])
  {
    if cps == [] then [] else EncodeOne(cps[0]) + EncodeUtf8(cps[1..])
  }

  lemma StepReads(cp: nat, rest: Buf)
    requires IsScalar(cp)
    ensures Step(EncodeOne(cp) + rest) == (cp, |EncodeOne(cp)|)
  {
    var e := EncodeOne(cp);
    var s := e + rest;
    var (bits, extra) := Lead(s[0]);
    assert extra == |e| - 1;
    if extra == 1 {
      assert Continue(bits * 64 + (s[1] - 0x80), s[1..][1..], 0) == (cp, true);
    } else if extra == 2 {
      assert s[1..][1..] == s[2..];
      Digits(cp, 2);
      assert Continue(bits * 64 + (s[1] - 0x80), s[2..], 1) == Continue(cp, s[2..][1..], 0);
    } else if extra == 3 {
      assert s[1..][1..] == s[2..] && s[2..][1..] == s[3..];
      Digits(cp, 3);
      var a := bits * 64 + (s[1] - 0x80);
      assert Continue(a, s[2..], 2) == Continue(a * 64 + (s[2] - 0x80), s[3..], 1);
      assert Continue(a * 64 + (s[2] - 0x80), s[3..], 1) == Continue(cp, s[3..][1..], 0);
    }
  }

  lemma Digits(cp: nat, n: nat)
    ensures cp / 64 == 64 * (cp / 4096) + cp / 64 % 64
    ensures cp / 4096 == 64 * (cp / 262144) + cp / 4096 % 64
  {
    ModUnique(cp, 4096, cp / 64 / 64, cp / 64 % 64 * 64 + cp % 64);
    ModUnique(cp, 262144, cp / 4096 / 64, cp / 4096 % 64 * 4096 + cp % 4096);
  }

  /** Every character of well-formed UTF-8 survives the conversion. */
  lemma {:induction false} ScalarsRoundTrip(cps: seq<nat>)
    requires forall i :: 0 <= i < |cps| ==> IsScalar(cps[i])
    ensures Scalars(EncodeUtf8(cps)) == cps
  {
    hide Step, EncodeOne;
    if cps != [] {
      var e, rest := EncodeOne(cps[0]), EncodeUtf8(cps[1..]);
      StepReads(cps[0], rest);
      assert (e + rest)[|e|..] == rest;
      ScalarsRoundTrip(cps[1..]);
    }
  }

  /** The decoder of the other side: section 2.1 of RFC 2781. */
  function DecodeUtf16(b: Buf): seq<nat>
    decreases |b|
  {
    if |b| < 2 then []
    else
      var u := Peek(b[..2]);
      if 0xD800 <= u < 0xDC00 && |b| >= 4
      then [0x10000 + (u - 0xD800) * 1024 + (Peek(b[2..4]) - 0xDC00) % 1024] + DecodeUtf16(b[4..])
      else [u] + DecodeUtf16(b[2..])
  }

  lemma {:induction false} Utf16RoundTrip(cps: seq<nat>)
    requires forall i :: 0 <= i < |cps| ==> IsScalar(cps[i])
    ensures DecodeUtf16(EncodeUtf16(cps)) == cps
  {
    hide Peek, Put16;
    if cps != [] {
      var cp, rest := cps[0], EncodeUtf16(cps[1..]);
      var b := EncodeUtf16(cps);
      Utf16RoundTrip(cps[1..]);
      if cp < 0x10000 {
        PeekPut16(cp);
        assert b[..2] == Put16(cp) && b[2..] == rest;
      } else {
        var hi, lo := (cp - 0x10000) / 1024, (cp - 0x10000) % 1024;
        PeekPut16(0xD800 + hi);
        PeekPut16(0xDC00 + lo);
        assert b[..2] == Put16(0xD800 + hi) && b[2..4] == Put16(0xDC00 + lo) && b[4..] == rest;
      }
    }
  }

  /** Well-formed UTF-16: whole units, and every surrogate with its other half. */
  predicate WellFormed16(b: Buf)
    decreases |b|
  {
    if b == [] then true
    else
      |b| >= 2
      && var u := Peek(b[..2]);
         if 0xD800 <= u < 0xDC00 then |b| >= 4 && 0xDC00 <= Peek(b[2..4]) < 0xE000 && WellFormed16(b[4..])
         else !(0xDC00 <= u < 0xE000) && WellFormed16(b[2..])
  }

  lemma {:induction false} EncodeWellFormed(cps: seq<nat>)
    requires forall i :: 0 <= i < |cps| ==> IsScalar(cps[i])
    ensures WellFormed16(EncodeUtf16(cps))
  {
    hide Peek, Put16;
    if cps != [] {
      var cp, rest, b := cps[0], EncodeUtf16(cps[1..]), EncodeUtf16(cps);
      EncodeWellFormed(cps[1..]);
      if cp < 0x10000 {
        PeekPut16(cp);
        assert b[..2] == Put16(cp) && b[2..] == rest;
      } else {
        var hi, lo := (cp - 0x10000) / 1024, (cp - 0x10000) % 1024;
        PeekPut16(0xD800 + hi);
        PeekPut16(0xDC00 + lo);
        assert b[..2] == Put16(0xD800 + hi) && b[2..4] == Put16(0xDC00 + lo) && b[4..] == rest;
      }
    }
  }

  /** For any bytes at all the output is well-formed UTF-16 of the characters read; for
      well-formed UTF-8 these are the characters written. */
  method ToUtf16(s: Buf) returns (out: Buf)
    ensures out == EncodeUtf16(Scalars(s))
    ensures WellFormed16(out) && DecodeUtf16(out) == Scalars(s)
  {
    hide Units, IsScalar, Step;
    out := [];
    var i := 0;
    assert s[0..] == s;
    while i < |s|
      invariant i <= |s| && out + EncodeUtf16(Scalars(s[i..])) == EncodeUtf16(Scalars(s))
    {
      var cp, n := DecodeAt(s, i);
      assert s[i..][n..] == s[i + n..];
      var rest := EncodeUtf16(Scalars(s[i + n..]));
      assert Scalars(s[i..])[1..] == Scalars(s[i + n..]);
      assert out + (Units(cp) + rest) == (out + Units(cp)) + rest;
      out := out + Units(cp);
      i := i + n;
    }
    assert out + [] == out;
    Utf16RoundTrip(Scalars(s));
    EncodeWellFormed(Scalars(s));
  }

  /** The body of the loop: one lead byte and its continuation bytes. */
  method DecodeAt(s: Buf, i: nat) returns (cp: nat, n: nat)
    requires i < |s|
    ensures (cp, n) == Step(s[i..])
  {
    var (bits, extra) := Lead(s[i]);
    cp := bits;
    if i + extra >= |s| {
      cp, extra := REPLACEMENT, 0;
    }
    ghost var want, first := extra, cp;
    ghost var whole := want == Lead(s[i]).1;
    assert |s[i..]| == |s| - i && s[i..][0] == s[i];
    var k := 1;
    assert s[i..][1..] == s[i + 1..];
    while k <= extra
      invariant extra == want && 1 <= k <= want + 1 && i + want < |s| && (want == 0 ==> cp == first)
      invariant want > 0 ==> Continue(cp, s[i + k..], want - (k - 1)) == Continue(bits, s[i + 1..], want)
    {
      assert s[i + k..][1..] == s[i + k + 1..];
      if !IsContinuation(s[i + k]) {
        cp, extra := REPLACEMENT, 0;
        break;
      }
      cp := cp * 64 + (s[i + k] - 0x80);
      k := k + 1;
    }
    if whole && want > 0 {
      assert Continue(bits, s[i..][1..], want) == if extra == want then (cp, true) else (REPLACEMENT, false);
    }
    assert whole && want == 0 ==> Continue(bits, s[i..][1..], 0) == (cp, true);
    ghost var t := s[i..];
    assert !whole ==> Lead(t[0]).1 >= |t| && cp == REPLACEMENT && extra == 0;
    assert whole ==> Lead(t[0]).1 == want < |t| && Lead(t[0]).0 == bits;
    if !IsScalar(cp) {
      cp := REPLACEMENT;
    }
    n := extra + 1;
  }
}
