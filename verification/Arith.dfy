/** Powers of two, division and 32-bit words. */
module Arith {
  /** 2^k. */
  function Pow2(k: nat): (r: nat)
    ensures r >= 1
  {
    if k == 0 then 1 else 2 * Pow2(k - 1)
  }

  lemma Regroup(x: int, y: int)
    ensures x * (2 * y) == 2 * (x * y)
  {
  }

  lemma {:induction false} Pow2Add(a: nat, b: nat)
    ensures Pow2(a + b) == Pow2(a) * Pow2(b)
    decreases b
  {
    if b > 0 {
      Pow2Add(a, b - 1);
      Regroup(Pow2(a), Pow2(b - 1));
      assert Pow2(a + b) == 2 * Pow2(a + (b - 1));
    }
  }

  lemma {:induction false} Pow2Mono(a: nat, b: nat)
    requires a <= b
    ensures Pow2(a) <= Pow2(b)
    decreases b
  {
    if a < b { Pow2Mono(a, b - 1); }
  }

  lemma Pow2Values()
    ensures Pow2(8) == 256 && Pow2(16) == 0x1_0000 && Pow2(30) == 0x4000_0000 && Pow2(31) == 0x8000_0000
    ensures Pow2(32) == 0x1_0000_0000
  {
    assert Pow2(8) == 256;
    Pow2Add(8, 8);
    Pow2Add(16, 8);
    Pow2Add(24, 6);
    assert Pow2(6) == 64;
    assert Pow2(31) == 2 * Pow2(30);
    assert Pow2(32) == 2 * Pow2(31);
  }

  lemma MulMono(x: int, y: int, c: int)
    requires x <= y && c >= 0
    ensures x * c <= y * c
  {
    assert (y - x) * c >= 0;
  }

  lemma LessFromMul(x: int, y: int, c: int)
    requires x * c < y * c && c > 0
    ensures x < y
  {
    if y <= x { MulMono(y, x, c); }
  }

  /** The quotient is the only number whose multiple lies within the divisor below. */
  lemma QuotientIs(a: int, d: int, q: int)
    requires d > 0 && q * d <= a < (q + 1) * d
    ensures a / d == q
  {
    QuotientBounds(a, d);
    LessFromMul(a / d, q + 1, d);
    LessFromMul(q, a / d + 1, d);
  }

  lemma QuotientBounds(a: int, d: int)
    requires d > 0
    ensures (a / d) * d <= a < (a / d + 1) * d
  {
    assert a == d * (a / d) + a % d;
  }

  /** Dividing by a product is dividing twice, rounding down. */
  lemma DivDiv(a: int, c: int, d: int)
    requires c > 0 && d > 0
    ensures c * d > 0 && a / (c * d) == (a / c) / d
  {
    var q := a / c;
    var r := q / d;
    QuotientBounds(a, c);
    QuotientBounds(q, d);
    calc {
      r * (c * d);
    ==
      (r * d) * c;
    <= { MulMono(r * d, q, c); }
      q * c;
    <=
      a;
    }
    calc {
      a;
    <
      (q + 1) * c;
    <= { MulMono(q + 1, (r + 1) * d, c); }
      ((r + 1) * d) * c;
    ==
      (r + 1) * (c * d);
    }
    MulPositive(c, d);
    QuotientIs(a, c * d, r);
  }

  lemma MulPositive(c: int, d: int)
    requires c > 0 && d > 0
    ensures c * d > 0
  {
  }

  const WORD: int := 0x1_0000_0000
  const HALF: int := 0x8000_0000

  predicate IsWord(x: int) {
    -HALF <= x < HALF
  }

  /** A 32-bit word read as a signed number. */
  function Wrap(x: int): (r: int)
    ensures IsWord(r) && (x - r) % WORD == 0
  {
    (x + HALF) % WORD - HALF
  }

  /** A 32-bit word read as an unsigned number. */
  function Unsigned(x: int): (r: int)
    ensures 0 <= r < WORD
  {
    x % WORD
  }

  lemma WrapWord(x: int)
    requires IsWord(x)
    ensures Wrap(x) == x
  {
  }

  /** Words that differ by a multiple of 2^32 are the same word. */
  lemma WrapSame(x: int, y: int, k: int)
    requires x - y == k * WORD
    ensures Wrap(x) == Wrap(y)
  {
    assert x + HALF == (y + HALF) + k * WORD;
    ModShift(y + HALF, k);
  }

  lemma ModShift(a: int, k: int)
    ensures (a + k * WORD) % WORD == a % WORD
  {
    var q := a / WORD;
    assert a == WORD * q + a % WORD;
    var b := a + k * WORD;
    assert b == WORD * (q + k) + a % WORD;
    QuotientIs(b, WORD, q + k);
  }

  lemma UnsignedWrap(x: int)
    requires 0 <= x < WORD
    ensures Unsigned(Wrap(x)) == x
  {
  }

  lemma WrapUnsigned(x: int)
    requires IsWord(x)
    ensures Wrap(Unsigned(x)) == x
  {
  }

  function Abs(x: int): (r: int)
    ensures r >= 0 && (r == x || r == -x)
  {
    if x < 0 then -x else x
  }

  /** Division that rounds toward zero, as in section 6.5.5 of ISO/IEC 9899:2011. */
  function TruncDiv(n: int, d: int): (q: int)
    requires d != 0
  {
    var q := Abs(n) / Abs(d);
    if (n < 0) == (d < 0) then q else -q
  }

  function TruncRem(n: int, d: int): (r: int)
    requires d != 0
  {
    n - d * TruncDiv(n, d)
  }

  lemma NegMul(x: int, p: int)
    ensures (-x) * p == -(x * p)
  {
  }

  lemma Negations(q: int, b: int)
    ensures (-b) * -q == b * q && (-b) * q == -(b * q) && b * -q == -(b * q)
  {
  }

  lemma QuotientTimes(n: int, d: int)
    requires d != 0
    ensures var m := Abs(d) * (Abs(n) / Abs(d)); d * TruncDiv(n, d) == if n < 0 then -m else m
  {
    var q := Abs(n) / Abs(d);
    Negations(q, Abs(d));
  }

  /** The quotient is the one that leaves a remainder smaller than the divisor with the sign of the dividend. */
  lemma TruncDivIs(n: int, d: int)
    requires d != 0
    ensures Abs(TruncRem(n, d)) < Abs(d) && (TruncRem(n, d) == 0 || (TruncRem(n, d) < 0) == (n < 0))
  {
    hide TruncDiv;
    var a, b := Abs(n), Abs(d);
    QuotientTimes(n, d);
    assert a == b * (a / b) + a % b;
  }

  lemma SmallQuotient(k: int, d: int)
    requires 0 <= k <= HALF && d >= 2
    ensures 0 <= k / d < HALF
  {
    QuotientBounds(k, d);
    var q := k / d;
    if q >= HALF {
      MulMono(2, d, q);
    }
    if q < 0 {
      MulMono(q + 1, 0, d);
    }
  }

  /** A bias of one less than the divisor makes the rounding of a negative dividend go toward zero. */
  lemma BiasDivides(n: int, c: int)
    requires IsWord(n) && 2 <= c <= 0x4000_0000
    ensures var b := if n < 0 then c - 1 else 0; (b + n) / c == TruncDiv(n, c) && IsWord(b + n) && IsWord(b)
    ensures IsWord(TruncDiv(n, c))
  {
    var k := Abs(n);
    var q := k / c;
    QuotientBounds(k, c);
    SmallQuotient(k, c);
    if n < 0 {
      NegMul(q, c);
      assert (-q + 1) * c == (-q) * c + c && (q + 1) * c == q * c + c;
      QuotientIs(n + c - 1, c, -q);
    }
  }

  lemma WrapBy(x: int) returns (k: int)
    ensures x - Wrap(x) == k * WORD
  {
    k := (x - Wrap(x)) / WORD;
  }

  /** Sums and products may be cut to a word at any point. */
  lemma WrapAdd(x: int, y: int)
    ensures Wrap(Wrap(x) + y) == Wrap(x + y)
  {
    var k := WrapBy(x);
    WrapSame(x + y, Wrap(x) + y, k);
  }

  lemma WrapMul(x: int, y: int)
    ensures Wrap(Wrap(x) * y) == Wrap(x * y)
  {
    var k := WrapBy(x);
    assert x * y - Wrap(x) * y == (k * y) * WORD by { assert (x - Wrap(x)) * y == (k * WORD) * y; }
    WrapSame(x * y, Wrap(x) * y, k * y);
  }

  lemma WrapSub(x: int, y: int)
    ensures Wrap(x - Wrap(y)) == Wrap(x - y)
  {
    var k := WrapBy(y);
    WrapSame(x - Wrap(y), x - y, k);
  }
}
