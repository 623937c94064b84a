/** Bytes, 32-bit signed integers and the big-endian layouts shared by every wire format. */
module Bytes {

  type byte = x: int | 0 <= x < 256

  type int32 = x: int | -0x8000_0000 <= x < 0x8000_0000

  /** The output of HMAC-SHA1. */
  type Tag = s: seq<byte> | |s| == 20 witness seq(20, i => 0)

  datatype Option<+T> = None | Some(value: T)

  /** 256 to the power `n`: how many values fit in `n` bytes. */
  function Pow256(n: nat): (p: nat)
    ensures p >= 1
  {
    if n == 0 then 1 else 256 * Pow256(n - 1)
  }

  /** The low `n` bytes of `v`, most significant first. */
  function ToBe(v: nat, n: nat): (s: seq<byte>)
    ensures |s| == n
  {
    if n == 0 then [] else ToBe(v / 256, n - 1) + [v % 256]
  }

  /** The number a big-endian byte string denotes. */
  function FromBe(s: seq<byte>): (v: nat)
  {
    if s == [] then 0 else 256 * FromBe(s[..|s| - 1]) + s[|s| - 1]
  }

  lemma {:induction false} FromBeBound(s: seq<byte>)
    ensures FromBe(s) < Pow256(|s|)
  {
    if s != [] {
      FromBeBound(s[..|s| - 1]);
    }
  }

  /** Writing `n` bytes and reading them back loses only what does not fit. */
  lemma {:induction false} BeRoundTrip(v: nat, n: nat)
    requires v < Pow256(n)
    ensures FromBe(ToBe(v, n)) == v
  {
    if n > 0 {
      BeRoundTrip(v / 256, n - 1);
      var s := ToBe(v, n);
      assert s[..|s| - 1] == ToBe(v / 256, n - 1);
    }
  }

  /** Reading bytes and writing the number back restores them. */
  lemma {:induction false} BeRoundTripBack(s: seq<byte>)
    ensures ToBe(FromBe(s), |s|) == s
  {
    if s != [] {
      BeRoundTripBack(s[..|s| - 1]);
      assert FromBe(s) / 256 == FromBe(s[..|s| - 1]);
      assert s == s[..|s| - 1] + [s[|s| - 1]];
    }
  }

  lemma Pow256Values()
    ensures Pow256(1) == 0x100 && Pow256(2) == 0x1_0000 && Pow256(3) == 0x100_0000
    ensures Pow256(4) == 0x1_0000_0000 && Pow256(6) == 0x1_0000_0000_0000
  {
    assert Pow256(1) == 256 * Pow256(0);
    assert Pow256(2) == 256 * Pow256(1);
    assert Pow256(3) == 256 * Pow256(2);
    assert Pow256(4) == 256 * Pow256(3);
    assert Pow256(5) == 256 * Pow256(4);
    assert Pow256(6) == 256 * Pow256(5);
  }

  /** The unsigned 32-bit pattern of a two's complement integer. */
  function U32(x: int32): (u: nat)
    ensures u < 0x1_0000_0000
  {
    if x < 0 then x + 0x1_0000_0000 else x
  }

  /** The signed integer whose low 32 bits are those of `u` (two's complement wrap-around). */
  function I32(u: int): (x: int32)
  {
    var low := u % 0x1_0000_0000;
    if low < 0x8000_0000 then low else low - 0x1_0000_0000
  }

  lemma U32RoundTrip(x: int32)
    ensures I32(U32(x)) == x
  {
  }

  /** Numbers of two, three and four bytes, written out. */
  lemma FromBeTwo(a: byte, b: byte)
    ensures FromBe([a, b]) == a * 0x100 + b
  {
    assert [a, b][..1] == [a] && [a][..0] == [];
    assert FromBe([a]) == a;
  }

  lemma FromBeThree(a: byte, b: byte, c: byte)
    ensures FromBe([a, b, c]) == a * 0x1_0000 + b * 0x100 + c
  {
    assert [a, b, c][..2] == [a, b];
    FromBeTwo(a, b);
  }

  lemma FromBeFour(a: byte, b: byte, c: byte, d: byte)
    ensures FromBe([a, b, c, d]) == a * 0x100_0000 + b * 0x1_0000 + c * 0x100 + d
  {
    assert [a, b, c, d][..3] == [a, b, c];
    FromBeThree(a, b, c);
  }

  function Min(a: int, b: int): int {
    if a <= b then a else b
  }

  lemma MulSpan(n: int, x: int, y: int)
    requires n > 0
    ensures x > y ==> n * x >= n * y + n
  {
    if x > y {
      var d := x - y;
      assert n * x == n * y + n * d;
      assert n * (d - 1) >= 0;
      assert n * d == n * (d - 1) + n;
    }
  }

  /** A quotient and a remainder in range are the quotient and the remainder. */
  lemma ModUnique(a: int, n: int, q: int, r: int)
    requires n > 0 && 0 <= r < n && a == n * q + r
    ensures a % n == r
  {
    var q', r' := a / n, a % n;
    assert a == n * q' + r';
    MulSpan(n, q, q');
    MulSpan(n, q', q);
  }

  /** Writing keeps only what fits. */
  lemma {:induction false} BeWraps(v: nat, n: nat)
    ensures ToBe(v, n) == ToBe(v % Pow256(n), n)
    decreases n
  {
    if n > 0 {
      var p := Pow256(n - 1);
      var w := v % (256 * p);
      DivMod(v, p);
      assert w % 256 == v % 256 && w / 256 == (v / 256) % p;
      BeWraps(v / 256, n - 1);
      BeWraps(w / 256, n - 1);
    }
  }

  lemma DivMod(v: nat, p: nat)
    requires p >= 1
    ensures var w := v % (256 * p); w % 256 == v % 256 && w / 256 == (v / 256) % p
  {
    var q, w := v / (256 * p), v % (256 * p);
    assert v == q * (256 * p) + w;
    assert v == 256 * (q * p) + w;
    assert v % 256 == w % 256 && v / 256 == p * q + w / 256;
    assert w / 256 < p;
    ModUnique(v / 256, p, q, w / 256);
  }
}
