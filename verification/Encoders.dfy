/** Big-endian integer encoders (core/encoders.cpp).

    `BigEndian` and `Value` are the positional notation the encoders are meant
    to implement; the encoders themselves are written with the source's own
    shifts and masks, where `v >> 8k & 0xFF` is `v / 256^k % 256` and an `or` of
    disjoint bytes is a sum. */
module Encoders {

  type Byte = x: int | 0 <= x < 0x100
  type Bytes = seq<Byte>
  type U16 = x: int | 0 <= x < 0x1_0000
  type U32 = x: int | 0 <= x < 0x1_0000_0000
  type U64 = x: int | 0 <= x < 0x1_0000_0000_0000_0000

  const TWO16: int := 0x1_0000
  const TWO32: int := 0x1_0000_0000

  /** The n lowest base-256 digits of v, most significant first. */
  function BigEndian(n: nat, v: nat): (s: Bytes)
    ensures |s| == n
  {
    if n == 0 then [] else BigEndian(n - 1, v / 256) + [v % 256]
  }

  /** The number a digit string denotes. */
  function Value(s: Bytes): nat {
    if s == [] then 0 else Value(s[..|s| - 1]) * 256 + s[|s| - 1]
  }

  function Pow256(n: nat): (p: nat)
    ensures p > 0
  {
    if n == 0 then 1 else 256 * Pow256(n - 1)
  }

  lemma {:induction false} ValueOfBigEndian(n: nat, v: nat)
    requires v < Pow256(n)
    ensures Value(BigEndian(n, v)) == v
  {
    if n > 0 {
      ValueOfBigEndian(n - 1, v / 256);
      var s := BigEndian(n, v);
      assert s[..|s| - 1] == BigEndian(n - 1, v / 256);
    }
  }

  lemma {:induction false} BigEndianOfValue(s: Bytes)
    ensures Value(s) < Pow256(|s|)
    ensures BigEndian(|s|, Value(s)) == s
  {
    if s != [] {
      var t := s[..|s| - 1];
      BigEndianOfValue(t);
      assert Value(s) / 256 == Value(t) && Value(s) % 256 == s[|s| - 1];
      assert t + [s[|s| - 1]] == s;
    }
  }

  /** Each byte is the number shifted down to it and cut to eight bits. */
  lemma {:induction false} BigEndianDigit(n: nat, v: nat, i: nat)
    requires i < n
    ensures BigEndian(n, v)[i] == v / Pow256(n - 1 - i) % 256
  {
    if i < n - 1 {
      BigEndianDigit(n - 1, v / 256, i);
      DivDiv(v, Pow256(n - 2 - i));
    }
  }

  lemma DivDiv(v: nat, p: nat)
    requires p > 0
    ensures v / 256 / p == v / (256 * p)
  {
    var q := v / 256 / p;
    var r := v / 256 % p;
    assert v / 256 == q * p + r;
    assert v == (256 * p) * q + (256 * r + v % 256);
    assert 0 <= 256 * r + v % 256 < 256 * p;
    DivUnique(v, 256 * p, q, 256 * r + v % 256);
  }

  lemma DivUnique(v: nat, d: nat, q: nat, r: nat)
    requires d > 0 && v == d * q + r && r < d
    ensures v / d == q
  {
    var q' := v / d;
    var x := q - q';
    assert d * x == v % d - r by {
      assert v == d * q' + v % d;
      assert d * x == d * q - d * q';
    }
    SmallMultiple(d, x);
  }

  lemma SmallMultiple(d: int, x: int)
    requires d > 0 && -d < d * x < d
    ensures x == 0
  {
  }

  // -------- u16 / u32: straight-line shifts --------

  function U16ToStr(v: U16): (s: Bytes)
    ensures s == BigEndian(2, v)
  {
    assert BigEndian(2, v) == BigEndian(1, v / 256) + [v % 256];
    assert BigEndian(1, v / 256) == [v / 256 % 256];
    [v / 0x100 % 256, v % 256]
  }

  function U32ToStr(v: U32): (s: Bytes)
    ensures s == BigEndian(4, v)
  {
    assert BigEndian(1, v / 256 / 256 / 256) == [v / 256 / 256 / 256 % 256];
    assert BigEndian(2, v / 256 / 256) == BigEndian(1, v / 256 / 256 / 256) + [v / 256 / 256 % 256];
    assert BigEndian(3, v / 256) == BigEndian(2, v / 256 / 256) + [v / 256 % 256];
    [v / 0x100_0000 % 256, v / 0x1_0000 % 256, v / 0x100 % 256, v % 256]
  }

  /** The one encoder with a loop. `v / shift` is `v >> ((7 - i) * 8)`. */
  method U64ToStr(v: U64) returns (s: Bytes)
    ensures s == BigEndian(8, v)
  {
    s := [0, 0, 0, 0, 0, 0, 0, 0];
    var i := 0;
    while i < 8
      invariant 0 <= i <= 8 && |s| == 8
      invariant forall k :: 0 <= k < i ==> s[k] == BigEndian(8, v)[k]
    {
      BigEndianDigit(8, v, i);
      var digit := v / Pow256(7 - i) % 256;
      s := s[i := digit];
      i := i + 1;
    }
  }

  // -------- pointer readers --------

  function PtrToU16(p: Bytes): U16
    requires |p| >= 2
  {
    ValueBound(p[..2]);
    Value(p[..2])
  }

  function PtrToU32(p: Bytes): U32
    requires |p| >= 4
  {
    ValueBound(p[..4]);
    Value(p[..4])
  }

  function PtrToU64(p: Bytes): U64
    requires |p| >= 8
  {
    ValueBound(p[..8]);
    Value(p[..8])
  }

  lemma ValueBound(s: Bytes)
    ensures |s| == 2 ==> Value(s) < 0x1_0000
    ensures |s| == 4 ==> Value(s) < 0x1_0000_0000
    ensures |s| == 8 ==> Value(s) < 0x1_0000_0000_0000_0000
  {
    BigEndianOfValue(s);
    PowValues();
  }

  /** The readers as the source writes them: bytes shifted into place and or-ed. */
  lemma ReadersShift(p: Bytes)
    ensures |p| >= 2 ==> PtrToU16(p) == p[0] as int * 0x100 + p[1]
    ensures |p| >= 4 ==> PtrToU32(p) == p[0] as int * 0x100_0000 + p[1] as int * 0x1_0000 + p[2] as int * 0x100 + p[3]
    ensures |p| >= 8 ==>
              PtrToU64(p) == p[0] as int * 0x100_0000_0000_0000 + p[1] as int * 0x1_0000_0000_0000
                             + p[2] as int * 0x100_0000_0000 + p[3] as int * 0x1_0000_0000
                             + p[4] as int * 0x100_0000 + p[5] as int * 0x1_0000 + p[6] as int * 0x100 + p[7]
  {
    var n := |p|;
    for i := 0 to if n < 8 then n else 8
      invariant forall k :: 0 <= k < i ==> Value(p[..k + 1]) == Value(p[..k]) * 256 + p[k]
    {
      ValueTake(p, i);
    }
    assert p[..0] == [];
    assert n >= 1 ==> Value(p[..1]) == p[0];
  }

  lemma ValueTake(p: Bytes, n: nat)
    requires n < |p|
    ensures Value(p[..n + 1]) == Value(p[..n]) * 256 + p[n]
  {
    assert p[..n + 1][..n] == p[..n];
  }

  // -------- round trips of the three widths --------

  lemma ReadBack(v16: U16, v32: U32, v64: U64)
    ensures PtrToU16(BigEndian(2, v16)) == v16
    ensures PtrToU32(BigEndian(4, v32)) == v32
    ensures PtrToU64(BigEndian(8, v64)) == v64
  {
    PowValues();
    ValueOfBigEndian(2, v16);
    ValueOfBigEndian(4, v32);
    ValueOfBigEndian(8, v64);
    assert BigEndian(2, v16)[..2] == BigEndian(2, v16);
    assert BigEndian(4, v32)[..4] == BigEndian(4, v32);
    assert BigEndian(8, v64)[..8] == BigEndian(8, v64);
  }

  lemma WriteBack(s: Bytes)
    ensures |s| == 2 ==> BigEndian(2, PtrToU16(s)) == s
    ensures |s| == 4 ==> BigEndian(4, PtrToU32(s)) == s
    ensures |s| == 8 ==> BigEndian(8, PtrToU64(s)) == s
  {
    BigEndianOfValue(s);
    assert s[..|s|] == s;
  }

  lemma PowValues()
    ensures Pow256(2) == 0x1_0000
    ensures Pow256(4) == 0x1_0000_0000
    ensures Pow256(8) == 0x1_0000_0000_0000_0000
  {
    assert Pow256(1) == 256;
    assert Pow256(3) == 256 * Pow256(2);
    assert Pow256(5) == 256 * Pow256(4);
    assert Pow256(6) == 256 * Pow256(5);
    assert Pow256(7) == 256 * Pow256(6);
  }
}
