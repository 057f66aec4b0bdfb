/** The bitwise "and" of unsigned machine words, as arithmetic on naturals. */
module Bits {

  function Pow2(n: nat): (p: nat)
    ensures p >= 1
  {
    if n == 0 then 1 else 2 * Pow2(n - 1)
  }

  lemma {:induction false} Pow2Add(a: nat, b: nat)
    ensures Pow2(a + b) == Pow2(a) * Pow2(b)
  {
    if a == 0 {
    } else {
      Pow2Add(a - 1, b);
    }
  }

  lemma MulMonotone(a: int, b: int, d: int)
    requires a <= b && d > 0
    ensures a * d <= b * d
  {
  }

  /** Quotient and remainder are determined by the division identity. */
  lemma DivModUnique(x: int, q: int, r: int, d: int)
    requires d > 0 && 0 <= r < d && x == q * d + r
    ensures x / d == q && x % d == r
  {
    var e := x / d - q;
    assert e * d == r - x % d by {
      assert x == (x / d) * d + x % d;
      assert (x / d - q) * d == (x / d) * d - q * d;
    }
    if e >= 1 { MulMonotone(1, e, d); }
    if e <= -1 { MulMonotone(e, -1, d); }
  }

  lemma HalveMod(x: nat, p: nat)
    requires p >= 1
    ensures x % (2 * p) == 2 * ((x / 2) % p) + x % 2
    ensures x / (2 * p) == (x / 2) / p
  {
    var q, r := (x / 2) / p, (x / 2) % p;
    assert x / 2 == q * p + r;
    assert q * (2 * p) == 2 * (q * p);
    DivModUnique(x, q, 2 * r + x % 2, 2 * p);
  }

  /** The lowest bit of `x & y`. */
  function LowBit(x: nat, y: nat): nat {
    if x % 2 == 1 && y % 2 == 1 then 1 else 0
  }

  /** `x & y` for unsigned words of any width. */
  function And(x: nat, y: nat): (r: nat)
    ensures r <= x && r <= y
  {
    if x == 0 || y == 0 then 0 else 2 * And(x / 2, y / 2) + LowBit(x, y)
  }

  lemma AndUnfold(x: nat, y: nat)
    ensures And(x, y) == 2 * And(x / 2, y / 2) + LowBit(x, y)
  {
    if x == 0 || y == 0 {
      assert And(x / 2, y / 2) == 0;
    }
  }

  lemma AndOddMask(x: nat, m: nat)
    requires m >= 1
    ensures And(x, 2 * m - 1) == 2 * And(x / 2, m - 1) + x % 2
  {
    AndUnfold(x, 2 * m - 1);
    assert (2 * m - 1) / 2 == m - 1 && (2 * m - 1) % 2 == 1;
  }

  /** Masking with n one bits is reduction modulo two to the n. */
  lemma {:induction false} AndLowMask(x: nat, n: nat)
    ensures And(x, Pow2(n) - 1) == x % Pow2(n)
  {
    if n == 0 {
    } else {
      AndLowMask(x / 2, n - 1);
      HalveMod(x, Pow2(n - 1));
      AndOddMask(x, Pow2(n - 1));
    }
  }

  lemma AndAllOnes(x: nat, w: nat)
    requires x < Pow2(w)
    ensures And(x, Pow2(w) - 1) == x
  {
    AndLowMask(x, w);
    DivModUnique(x, 0, x, Pow2(w));
  }

  function Mod(x: nat, d: nat): (r: nat)
    requires d >= 1
    ensures r < d && r <= x
  {
    x % d
  }

  /** Masking a w-bit word with all but its low `k` bits clears those `k` bits. */
  lemma {:induction false} AndHighMask(x: nat, w: nat, k: nat, m: nat)
    requires k <= w && x < Pow2(w) && m == Pow2(w) - Pow2(k)
    ensures And(x, m) == x - Mod(x, Pow2(k))
  {
    if k == 0 {
      AndAllOnes(x, w);
    } else {
      var h := Pow2(k - 1);
      AndHighMask(x / 2, w - 1, k - 1, m / 2);
      AndUnfold(x, m);
      HalveMod(x, h);
      assert Mod(x, Pow2(k)) == 2 * Mod(x / 2, h) + x % 2;
    }
  }

  lemma Pow2Monotone(a: nat, b: nat)
    requires a <= b
    ensures Pow2(a) <= Pow2(b)
  {
  }

  /** `x` shifted left by `n` bits, without a word limit. */
  function Shl(x: nat, n: nat): nat {
    if n == 0 then x else 2 * Shl(x, n - 1)
  }

  lemma HalveField(u: nat, a: nat, z: nat)
    requires z == 2 * u + a
    ensures z / 2 == u + a / 2 && z % 2 == a % 2
  {
  }

  /** Masking works field by field on words split into a high part and `n` low bits. */
  lemma {:induction false} AndSplit(x: nat, a: nat, z: nat, y: nat, b: nat, w: nat, n: nat)
    requires a < Pow2(n) && z == Shl(x, n) + a
    requires b < Pow2(n) && w == Shl(y, n) + b
    ensures And(z, w) == Shl(And(x, y), n) + And(a, b)
  {
    if n == 0 {
    } else {
      HalveField(Shl(x, n - 1), a, z);
      HalveField(Shl(y, n - 1), b, w);
      AndSplit(x, a / 2, z / 2, y, b / 2, w / 2, n - 1);
      AndUnfold(z, w);
      AndUnfold(a, b);
    }
  }

  lemma ShlByte(x: nat)
    ensures Shl(x, 8) == x * 256 && Pow2(8) == 256
  {
    assert Shl(x, 1) == 2 * x;
    assert Shl(x, 3) == 8 * x;
    assert Shl(x, 5) == 32 * x;
    assert Shl(x, 7) == 128 * x;
    assert Pow2(4) == 16;
    assert Pow2(6) == 64;
  }

  lemma Pow2Byte(n: nat)
    ensures Pow2(n + 8) == 256 * Pow2(n)
  {
    assert Pow2(n + 2) == 4 * Pow2(n);
    assert Pow2(n + 4) == 16 * Pow2(n);
    assert Pow2(n + 6) == 64 * Pow2(n);
  }

  lemma AndByte(x: nat, a: nat, y: nat, b: nat)
    requires a < 256 && b < 256
    ensures And(x * 256 + a, y * 256 + b) == And(x, y) * 256 + And(a, b)
  {
    ShlByte(x);
    ShlByte(y);
    ShlByte(And(x, y));
    AndSplit(x, a, x * 256 + a, y, b, y * 256 + b, 8);
  }

  /** The word of width `w` whose first `n` bits are ones and whose others are zeros. */
  function LeadingOnes(w: nat, n: nat): nat
    requires n <= w
  {
    Pow2Monotone(w - n, w);
    Pow2(w) - Pow2(w - n)
  }

  lemma AndLeadingOnes(x: nat, w: nat, n: nat)
    requires n <= w && x < Pow2(w)
    ensures And(x, LeadingOnes(w, n)) == x - Mod(x, Pow2(w - n))
  {
    AndHighMask(x, w, w - n, LeadingOnes(w, n));
  }

  function Quotient(x: nat, d: nat): nat
    requires d >= 1
  {
    x / d
  }

  lemma Pow2Of64()
    ensures Pow2(64) == 0x1_0000_0000_0000_0000
  {
    assert Pow2(3) == 8;
    assert Pow2(4) == 16;
    Pow2Add(4, 4);
    Pow2Add(8, 8);
    Pow2Add(16, 16);
    Pow2Add(32, 32);
  }

  /** Masking twice with the same mask is masking once. */
  lemma {:induction false} AndIdempotent(x: nat, m: nat)
    ensures And(And(x, m), m) == And(x, m)
  {
    if x == 0 || m == 0 {
    } else {
      AndUnfold(And(x, m), m);
      AndIdempotent(x / 2, m / 2);
    }
  }

  /** A carry out of an n-bit word meets no bit of an n-bit mask. */
  lemma {:induction false} AndCarry(n: nat, m: nat)
    requires m < Pow2(n)
    ensures And(Pow2(n), m) == 0
  {
    if n == 0 || m == 0 {
    } else {
      AndCarry(n - 1, m / 2);
    }
  }

  /** The bit of a word at a position. */
  predicate Bit(x: nat, k: nat) {
    Quotient(x, Pow2(k)) % 2 == 1
  }

  lemma LowestBit(x: nat)
    ensures Bit(x, 0) <==> x % 2 == 1
  {
    assert Pow2(0) == 1;
  }

  lemma BitOfHalf(x: nat, k: nat)
    requires k > 0
    ensures Bit(x, k) <==> Bit(x / 2, k - 1)
  {
    HalveMod(x, Pow2(k - 1));
  }

  lemma AndHalf(x: nat, y: nat)
    ensures And(x, y) / 2 == And(x / 2, y / 2)
    ensures And(x, y) % 2 == 1 <==> x % 2 == 1 && y % 2 == 1
  {
    AndUnfold(x, y);
  }

  /** "And" is bitwise: each bit of the result is set when it is set in both words. */
  lemma {:induction false} AndBit(x: nat, y: nat, k: nat)
    ensures Bit(And(x, y), k) <==> Bit(x, k) && Bit(y, k)
  {
    AndHalf(x, y);
    if k == 0 {
      LowestBit(x);
      LowestBit(y);
      LowestBit(And(x, y));
    } else {
      BitOfHalf(x, k);
      BitOfHalf(y, k);
      BitOfHalf(And(x, y), k);
      AndBit(x / 2, y / 2, k - 1);
    }
  }
}
