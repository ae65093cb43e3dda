/** Fixed-width integers as bytes, in either byte order. Writing keeps the low bytes of a number, which
    is what a conversion to an unsigned type of that width does. */
module Bytes {

  type byte = b: int | 0 <= b < 256
  type bytes = seq<byte>

  function Pow256(w: nat): (p: nat)
    ensures p > 0
  {
    if w == 0 then 1 else 256 * Pow256(w - 1)
  }

  /** The byte of weight 256 to the k. */
  function Digit(n: int, k: nat): byte {
    n / Pow256(k) % 256
  }

  /** Big endian, most significant byte first. */
  function Be(n: int, w: nat): (b: bytes)
    ensures |b| == w
  {
    seq(w, i requires 0 <= i < w => Digit(n, w - 1 - i))
  }

  function ReadBe(b: bytes): nat {
    if b == [] then 0 else 256 * ReadBe(b[..|b| - 1]) + b[|b| - 1]
  }

  /** Little endian. */
  function Le(n: int, w: nat): (b: bytes)
    ensures |b| == w
  {
    seq(w, i requires 0 <= i < w => Digit(n, i))
  }

  function ReadLe(b: bytes): nat {
    if b == [] then 0 else b[0] + 256 * ReadLe(b[1..])
  }

  /** A multiple of m other than zero is at least m away from zero. */
  lemma MultipleIsFar(m: nat, d: int)
    ensures d >= 1 ==> m * d >= m
    ensures d <= -1 ==> m * d + m <= 0
  {
    assert m * d == m + m * (d - 1);
    assert m * d + m == m * (d + 1);
  }

  lemma ModUnique(n: int, m: nat, k: int, r: nat)
    requires m > 0 && n == m * k + r && r < m
    ensures n % m == r
  {
    var q, s := n / m, n % m;
    assert n == m * q + s && 0 <= s < m;
    assert m * (q - k) == m * q - m * k == r - s;
    MultipleIsFar(m, q - k);
  }

  /** The low byte and the remaining bytes of a number make up its residue. */
  lemma SplitMod(n: int, p: nat)
    requires p > 0
    ensures n % (256 * p) == 256 * (n / 256 % p) + n % 256
  {
    var q := n / 256;
    assert q == p * (q / p) + q % p;
    assert n == 256 * p * (q / p) + (256 * (q % p) + n % 256) by {
      assert 256 * (p * (q / p)) == 256 * p * (q / p);
    }
    ModUnique(n, 256 * p, q / p, 256 * (q % p) + n % 256);
  }

  /** Dividing by 256 moves every digit down one place. */
  lemma DigitShift(n: int, k: nat)
    ensures Digit(n, 0) == n % 256
    ensures Digit(n, k + 1) == Digit(n / 256, k)
  {
    var p := Pow256(k);
    var q := n / 256;
    assert q == p * (q / p) + q % p;
    SplitMod(n, p);
    assert n == 256 * p * (n / (256 * p)) + n % (256 * p);
    assert 256 * p * (n / (256 * p)) == 256 * (p * (n / (256 * p)));
    assert p * (q / p) == p * (n / (256 * p));
    MultipleIsFar(p, q / p - n / (256 * p));
    assert p * (q / p - n / (256 * p)) == 0;
  }

  lemma {:induction false} BeRoundTrip(n: int, w: nat)
    ensures ReadBe(Be(n, w)) == n % Pow256(w)
    decreases w
  {
    if w > 0 {
      BeRoundTrip(n / 256, w - 1);
      SplitMod(n, Pow256(w - 1));
      forall i | 0 <= i < w - 1 ensures Be(n, w)[i] == Be(n / 256, w - 1)[i] { DigitShift(n, w - 2 - i); }
      DigitShift(n, 0);
      assert Be(n, w)[..w - 1] == Be(n / 256, w - 1);
    }
  }

  lemma {:induction false} LeRoundTrip(n: int, w: nat)
    ensures ReadLe(Le(n, w)) == n % Pow256(w)
    decreases w
  {
    if w > 0 {
      LeRoundTrip(n / 256, w - 1);
      SplitMod(n, Pow256(w - 1));
      forall i | 0 <= i < w - 1 ensures Le(n, w)[1..][i] == Le(n / 256, w - 1)[i] { DigitShift(n, i); }
      DigitShift(n, 0);
      assert Le(n, w)[1..] == Le(n / 256, w - 1);
    }
  }

  lemma {:induction false} ReadBeIsUnique(a: bytes, b: bytes)
    requires |a| == |b| && ReadBe(a) == ReadBe(b)
    ensures a == b
    decreases |a|
  {
    if a != [] {
      var n := |a| - 1;
      assert a[n] == ReadBe(a) % 256 && b[n] == ReadBe(b) % 256;
      ReadBeIsUnique(a[..n], b[..n]);
      assert a == a[..n] + [a[n]] && b == b[..n] + [b[n]];
    }
  }

  lemma {:induction false} ReadBeFits(b: bytes)
    ensures ReadBe(b) < Pow256(|b|)
    decreases |b|
  {
    if b != [] { ReadBeFits(b[..|b| - 1]); }
  }

  /** Writing what was read gives the bytes back. */
  lemma BeReads(b: bytes)
    ensures Be(ReadBe(b), |b|) == b
  {
    var n := ReadBe(b);
    ReadBeFits(b);
    BeRoundTrip(n, |b|);
    ModUnique(n, Pow256(|b|), 0, n);
    ReadBeIsUnique(Be(n, |b|), b);
  }

  lemma Reads2(b: bytes)
    requires |b| == 2
    ensures ReadBe(b) < 0x1_0000 && Be(ReadBe(b), 2) == b
  {
    ReadBeFits(b);
    BeReads(b);
    Widths();
  }

  lemma Reads4(b: bytes)
    requires |b| == 4
    ensures ReadBe(b) < 0x1_0000_0000 && Be(ReadBe(b), 4) == b
  {
    ReadBeFits(b);
    BeReads(b);
    Widths();
  }

  /** The round trips at the widths the formats use. */
  lemma Be2(n: int)
    ensures ReadBe(Be(n, 2)) == n % 0x1_0000
  {
    BeRoundTrip(n, 2);
    Widths();
  }

  lemma Be4(n: int)
    ensures ReadBe(Be(n, 4)) == n % 0x1_0000_0000
  {
    BeRoundTrip(n, 4);
    Widths();
  }

  lemma Le4(n: int)
    ensures ReadLe(Le(n, 4)) == n % 0x1_0000_0000
  {
    LeRoundTrip(n, 4);
    Widths();
  }

  lemma Le8(n: int)
    ensures ReadLe(Le(n, 8)) == n % 0x1_0000_0000_0000_0000
  {
    LeRoundTrip(n, 8);
    Widths();
  }

  lemma Widths()
    ensures Pow256(1) == 0x100 && Pow256(2) == 0x1_0000 && Pow256(4) == 0x1_0000_0000
    ensures Pow256(8) == 0x1_0000_0000_0000_0000
  {
    assert Pow256(3) == 0x100_0000;
    assert Pow256(5) == 0x100_0000_0000;
    assert Pow256(6) == 0x1_0000_0000_0000 && Pow256(7) == 0x100_0000_0000_0000;
  }
}
