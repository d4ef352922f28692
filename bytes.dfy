/** Fixed-width integers as bytes: little-endian (the host order assumed for
    native reads and writes) and big-endian (boost::endian big types,
    boost::multiprecision import_bits/export_bits with 8-bit chunks). */
module Bytes {
  import opened Common

  function Pow256(n: nat): (r: nat)
    ensures r >= 1
  {
    if n == 0 then 1 else 256 * Pow256(n - 1)
  }

  lemma Pow256IsPow2(n: nat)
    ensures Pow256(n) == Pow2(8 * n)
  {
    if n > 0 {
      Pow256IsPow2(n - 1);
      assert Pow2(8 * n) == 256 * Pow2(8 * (n - 1)) by {
        var k := 8 * (n - 1);
        assert 8 * n == k + 8;
        assert Pow2(k + 8) == 2 * Pow2(k + 7) == 4 * Pow2(k + 6) == 8 * Pow2(k + 5) == 16 * Pow2(k + 4);
        assert Pow2(k + 4) == 2 * Pow2(k + 3) == 4 * Pow2(k + 2) == 8 * Pow2(k + 1) == 16 * Pow2(k);
      }
    }
  }

  /** Value of bytes stored least significant first. */
  function LittleEndian(bs: seq<byte>): (v: nat)
    ensures v < Pow256(|bs|)
  {
    if bs == [] then 0 else bs[0] + 256 * LittleEndian(bs[1..])
  }

  /** Value of bytes stored most significant first. */
  function BigEndian(bs: seq<byte>): (v: nat)
    ensures v < Pow256(|bs|)
  {
    if bs == [] then 0 else BigEndian(bs[..|bs| - 1]) * 256 + bs[|bs| - 1]
  }

  /** The n low-order bytes of v, least significant first. */
  function ToLittleEndian(v: nat, n: nat): (bs: seq<byte>)
    ensures |bs| == n
  {
    if n == 0 then [] else [v % 256] + ToLittleEndian(v / 256, n - 1)
  }

  /** The n low-order bytes of v, most significant first. */
  function ToBigEndian(v: nat, n: nat): (bs: seq<byte>)
    ensures |bs| == n
  {
    if n == 0 then [] else ToBigEndian(v / 256, n - 1) + [v % 256]
  }

  /** Division with remainder is unique. */
  /** Division and remainder by a positive number split v. */
  lemma DivMod(v: nat, m: nat)
    requires m > 0
    ensures v == (v / m) * m + v % m && v % m < m && v / m >= 0
  {
  }

  lemma DivModUnique(v: int, m: int, q: int, r: int)
    requires m > 0 && 0 <= r < m && v == m * q + r
    ensures v / m == q && v % m == r
  {
    var q0, r0 := v / m, v % m;
    assert v == m * q0 + r0;
    var d := q - q0;
    assert m * d == r0 - r by {
      assert m * q == m * q0 + m * d;
    }
    if d > 0 {
      MulAtLeast(m, d);
    } else if d < 0 {
      MulAtLeast(m, -d);
    }
  }

  lemma MulAtLeast(m: int, k: int)
    requires m > 0 && k >= 1
    ensures m * k >= m
  {
    assert m * k == m * (k - 1) + m;
    assert m * (k - 1) >= 0;
  }

  /** v modulo a*b splits into the low digit and the rest. */
  lemma ModSplit(v: nat, a: nat, b: nat)
    requires a > 0 && b > 0
    ensures v % (a * b) == v % a + a * ((v / a) % b)
  {
    var q, r := v / a, v % a;
    var q2, r2 := q / b, q % b;
    assert v == a * q + r;
    assert q == b * q2 + r2;
    assert a * q == (a * b) * q2 + a * r2 by {
      assert a * (b * q2 + r2) == a * (b * q2) + a * r2;
      assert a * (b * q2) == (a * b) * q2;
    }
    assert a * r2 <= a * (b - 1) by {
      assert r2 <= b - 1;
    }
    assert a * (b - 1) == a * b - a;
    DivModUnique(v, a * b, q2, a * r2 + r);
  }

  /** Dividing by a and then by b is dividing by a*b. */
  lemma DivDiv(v: nat, a: nat, b: nat)
    requires a > 0 && b > 0
    ensures v / a / b == v / (a * b)
  {
    var q := v / a;
    var q2 := q / b;
    Regroup(a, b, q2, q % b, v % a);
    DivModUnique(v, a * b, q2, a * (q % b) + v % a);
  }

  /** a*(b*q + r2) + r1 == (a*b)*q + (a*r2 + r1), the second part below a*b. */
  lemma Regroup(a: int, b: int, q: int, r2: int, r1: int)
    requires a > 0 && b > 0 && 0 <= r2 < b && 0 <= r1 < a
    ensures a * (b * q + r2) + r1 == (a * b) * q + (a * r2 + r1)
    ensures 0 <= a * r2 + r1 < a * b
  {
    assert a * (b * q + r2) == a * (b * q) + a * r2;
    assert a * (b * q) == (a * b) * q;
    assert a * r2 <= a * (b - 1);
    assert a * (b - 1) == a * b - a;
  }

  lemma {:induction false} Pow2Add(a: nat, b: nat)
    ensures Pow2(a + b) == Pow2(a) * Pow2(b)
  {
    if a > 0 {
      Pow2Add(a - 1, b);
      assert Pow2(a + b) == 2 * Pow2(a - 1 + b);
    }
  }

  lemma {:induction false} Pow2Monotone(a: nat, b: nat)
    requires a <= b
    ensures Pow2(a) <= Pow2(b)
  {
    if a < b {
      Pow2Monotone(a, b - 1);
    }
  }

  lemma {:induction false} LittleEndianRoundTrip(v: nat, n: nat)
    ensures LittleEndian(ToLittleEndian(v, n)) == v % Pow256(n)
  {
    if n > 0 {
      var bs := ToLittleEndian(v, n);
      assert bs[1..] == ToLittleEndian(v / 256, n - 1);
      LittleEndianRoundTrip(v / 256, n - 1);
      ModSplit(v, 256, Pow256(n - 1));
    }
  }

  lemma {:induction false} BigEndianRoundTrip(v: nat, n: nat)
    ensures BigEndian(ToBigEndian(v, n)) == v % Pow256(n)
  {
    if n > 0 {
      var bs := ToBigEndian(v, n);
      assert bs[..n - 1] == ToBigEndian(v / 256, n - 1);
      BigEndianRoundTrip(v / 256, n - 1);
      ModSplit(v, 256, Pow256(n - 1));
    }
  }

  /** Writing a value that fits and reading it back gives the value. */
  lemma LittleEndianExact(v: nat, n: nat)
    requires v < Pow256(n)
    ensures LittleEndian(ToLittleEndian(v, n)) == v
  {
    LittleEndianRoundTrip(v, n);
  }

  lemma BigEndianExact(v: nat, n: nat)
    requires v < Pow256(n)
    ensures BigEndian(ToBigEndian(v, n)) == v
  {
    BigEndianRoundTrip(v, n);
  }

  /** Two's complement reading of an n-byte unsigned value. */
  function Signed(u: nat, n: nat): (v: int)
    requires n > 0 && u < Pow256(n)
    ensures v + Pow256(n) / 2 >= 0 && v < Pow256(n) / 2
  {
    DivModUnique(Pow256(n), 2, 128 * Pow256(n - 1), 0);
    if u < Pow256(n) / 2 then u else u - Pow256(n)
  }

  /** Reading the two's complement pattern back as unsigned gives the pattern. */
  lemma SignedPattern(u: nat, n: nat)
    requires n > 0 && u < Pow256(n)
    ensures Signed(u, n) % Pow256(n) == u
  {
    if u >= Pow256(n) / 2 {
      DivModUnique(u - Pow256(n), Pow256(n), -1, u);
    } else {
      DivModUnique(u, Pow256(n), 0, u);
    }
  }

  /** The n-byte two's complement pattern of v (the C++ memory image). */
  function Unsigned(v: int, n: nat): (u: nat)
    ensures u < Pow256(n)
  {
    v % Pow256(n)
  }
}
