/** Single-precision words of IEEE 754 and their conversions from and to integers. A float is a multiple of 2^-149, so
    its value is given as the integer number of these units. */
module FloatWords {
  import opened Arith

  const MANTISSA: int := 0x80_0000
  const INFINITY: int := 0x7f80_0000

  /** 1, in units of 2^-149. */
  function Unit(): (r: nat)
    ensures r >= 1
  {
    Pow2(149)
  }

  /** The value of a word without its sign: below the first exponent the bits themselves, above it with the leading bit
      added and shifted. */
  function ScaledMag(u: nat): int {
    var e, m := u / MANTISSA, u % MANTISSA;
    if e == 0 then m else (MANTISSA + m) * Pow2(e - 1)
  }

  function Magnitude(w: int): nat {
    Unsigned(w) % HALF
  }

  /** Neither an infinity nor no number at all. */
  predicate Finite(w: int) {
    Magnitude(w) < INFINITY
  }

  /** The value of a word. */
  function Scaled(w: int): int {
    if Unsigned(w) < HALF then ScaledMag(Magnitude(w)) else -ScaledMag(Magnitude(w))
  }

  /** The 64-bit integers. */
  predicate IsLong(n: int) {
    -0x8000_0000_0000_0000 <= n < 0x8000_0000_0000_0000
  }

  type Long = n: int | IsLong(n)
  type Word = w: int | IsWord(w)

  /** The position of the highest bit. */
  function HighBit(m: nat): nat
    requires m > 0
  {
    if m == 1 then 0 else 1 + HighBit(m / 2)
  }

  /** The word for a magnitude: exponent and 24 bits, of a longer number the highest ones, rounded to the nearest and
      halves to an even last bit. A carry out of the 24 bits goes into the exponent. */
  function FloatMag(m: nat): int {
    if m == 0 then 0
    else
      var l := HighBit(m);
      if l <= 23 then (l + 126) * MANTISSA + m * Pow2(23 - l)
      else
        var p := Pow2(l - 23);
        var q, r := m / p, m % p;
        (l + 126) * MANTISSA + q + if 2 * r > p || (2 * r == p && q % 2 == 1) then 1 else 0
  }

  /** The conversion of an integer, as the word read as a signed number. */
  function FloatOf(n: int): int {
    if n < 0 then FloatMag(-n) - HALF else FloatMag(n)
  }

  /** The integer part of a magnitude. */
  function IntMag(u: nat): int {
    var e, m := u / MANTISSA, u % MANTISSA;
    if e < 127 then 0
    else if e <= 150 then (MANTISSA + m) / Pow2(150 - e)
    else (MANTISSA + m) * Pow2(e - 150)
  }

  /** The conversion of a finite float. */
  function IntOf(w: int): int {
    if Unsigned(w) < HALF then IntMag(Magnitude(w)) else -IntMag(Magnitude(w))
  }

  /** How far the value of a word is from an integer. */
  function Dist(w: int, n: int): nat {
    Abs(Scaled(w) - n * Unit())
  }

  /** w is the float nearest to n, of two equally near ones the even one. */
  ghost predicate Nearest(n: int, w: int) {
    Finite(w) && IsWord(w) && (w < 0 <==> n < 0) && forall x :: Finite(x) ==> Nearer(n, w, x)
  }

  ghost predicate Nearer(n: int, w: int, x: int) {
    Dist(w, n) <= Dist(x, n) && (Dist(w, n) == Dist(x, n) && Scaled(w) != Scaled(x) ==> w % 2 == 0)
  }

  lemma {:induction false} HighBitIs(m: nat)
    requires m > 0
    ensures Pow2(HighBit(m)) <= m < 2 * Pow2(HighBit(m))
    decreases m
  {
    if m > 1 { HighBitIs(m / 2); }
  }

  lemma HighBitBound(m: nat, k: nat)
    requires 0 < m < Pow2(k)
    ensures HighBit(m) < k
  {
    HighBitIs(m);
    if HighBit(m) >= k { Pow2Mono(k, HighBit(m)); }
  }

  /** Twenty-four bits and an exponent. */
  lemma MagIs(e: nat, m: nat)
    requires e >= 1 && MANTISSA <= m <= 2 * MANTISSA
    ensures ScaledMag((e - 1) * MANTISSA + m) == m * Pow2(e - 1)
  {
    hide Pow2;
    var u := (e - 1) * MANTISSA + m;
    if m < 2 * MANTISSA {
      QuotientIs(u, MANTISSA, e);
      assert u % MANTISSA == m - MANTISSA;
    } else {
      QuotientIs(u, MANTISSA, e + 1);
      assert u % MANTISSA == 0;
      PowTwice(e);
      Regroup(MANTISSA, Pow2(e - 1));
    }
  }

  lemma PowTwice(e: nat)
    requires e >= 1
    ensures Pow2(e) == 2 * Pow2(e - 1)
  {
  }

  lemma MagStep(u: nat)
    ensures ScaledMag(u) <= ScaledMag(u + 1)
  {
    hide Pow2;
    var e, m := u / MANTISSA, u % MANTISSA;
    assert u == e * MANTISSA + m;
    if e == 0 {
      if m + 1 == MANTISSA { MagIs(1, MANTISSA); PowZero(); }
    } else {
      MagIs(e, MANTISSA + m);
      MagIs(e, MANTISSA + m + 1);
      MulMono(MANTISSA + m, MANTISSA + m + 1, Pow2(e - 1));
    }
  }

  lemma PowZero()
    ensures Pow2(0) == 1
  {
  }

  /** Larger words stand for larger numbers. */
  lemma {:induction false} MagMono(u: nat, v: nat)
    requires u <= v
    ensures ScaledMag(u) <= ScaledMag(v)
    decreases v
  {
    hide ScaledMag;
    if u < v {
      MagMono(u, v - 1);
      MagStep(v - 1);
    }
  }

  lemma MagNonneg(u: nat)
    ensures ScaledMag(u) >= 0
  {
    MagMono(0, u);
  }

  /** What encloses a number: the magnitudes of two adjacent words. */
  ghost predicate Encloses(u: nat, m: nat, below: int, gap: int) {
    && below >= 0 && gap >= 0
    && ScaledMag(u) == m * Unit() - below && ScaledMag(u + 1) == m * Unit() + gap
  }

  /** The highest 24 bits and the rest. */
  lemma FloatSplit(m: nat, l: nat) returns (p: nat, q: nat, r: nat)
    requires m > 0 && l == HighBit(m) && 23 < l < 64
    ensures p == Pow2(l - 23) && q == m / p && r == m % p && r < p && MANTISSA <= q < 2 * MANTISSA
    ensures Encloses((l + 126) * MANTISSA + q, m, r * Unit(), (p - r) * Unit())
  {
    hide Pow2, HighBit, ScaledMag;
    p := Pow2(l - 23);
    q, r := m / p, m % p;
    HighBitIs(m);
    Pow2Add(l - 23, 23);
    PowMantissa();
    QuotientBounds(m, p);
    assert Pow2(l) == p * MANTISSA == MANTISSA * p;
    LessFromMul(q, 2 * MANTISSA, p) by { assert 2 * MANTISSA * p == 2 * Pow2(l); }
    LessFromMul(MANTISSA, q + 1, p);
    Pow2Add(l - 23, 149);
    assert l - 23 + 149 == l + 126;
    MagIs(l + 127, q);
    MagIs(l + 127, q + 1);
    var u := Unit();
    assert m == q * p + r;
    assert m * u == q * (p * u) + r * u by { SplitProduct(q, p, r, u); }
    assert (q + 1) * (p * u) == q * (p * u) + p * u;
    assert (p - r) * u == p * u - r * u;
    MulMono(r, p, u);
    MulMono(0, r, u);
  }

  lemma SplitProduct(q: int, p: int, r: int, u: int)
    ensures (q * p + r) * u == q * (p * u) + r * u
  {
  }

  lemma PowMantissa()
    ensures Pow2(23) == MANTISSA
  {
    assert Pow2(7) == 128;
    Pow2Values();
    Pow2Add(16, 7);
  }

  /** A number of at most 24 bits. */
  lemma FloatExact(m: nat)
    requires 0 < m && HighBit(m) <= 23
    ensures var u := FloatMag(m); 0 <= u < INFINITY && ScaledMag(u) == m * Unit()
  {
    hide Pow2, HighBit, ScaledMag;
    var l := HighBit(m);
    var s := Pow2(23 - l);
    HighBitIs(m);
    Pow2Add(l, 23 - l);
    PowMantissa();
    assert l + (23 - l) == 23;
    MulMono(Pow2(l), m, s);
    MulMono(m + 1, 2 * Pow2(l), s);
    assert 2 * Pow2(l) * s == 2 * (Pow2(l) * s);
    MagIs(l + 127, m * s);
    Pow2Add(23 - l, l + 126);
    assert (23 - l) + (l + 126) == 149;
    assert m * s * Pow2(l + 126) == m * (s * Pow2(l + 126));
  }

  function MagDist(u: nat, m: nat): nat {
    Abs(ScaledMag(u) - m * Unit())
  }

  ghost predicate NearerMag(m: nat, u: nat, v: nat) {
    MagDist(u, m) <= MagDist(v, m) && (MagDist(u, m) == MagDist(v, m) && ScaledMag(u) != ScaledMag(v) ==> u % 2 == 0)
  }

  /** Of the two words around a number the nearer one is the nearest of all. */
  lemma NearestOfTwo(u: nat, m: nat, below: int, gap: int, up: bool, v: nat)
    requires Encloses(u, m, below, gap) && (up ==> gap <= below) && (!up ==> below <= gap)
    requires below == gap ==> (if up then u + 1 else u) % 2 == 0
    ensures NearerMag(m, if up then u + 1 else u, v)
  {
    hide ScaledMag, Unit;
    if v <= u { MagMono(v, u); } else { MagMono(u + 1, v); }
  }

  lemma CompareParts(r: nat, p: nat, u: nat)
    requires r <= p && u >= 1
    ensures r * u < (p - r) * u <==> 2 * r < p
    ensures r * u == (p - r) * u <==> 2 * r == p
  {
    if 2 * r < p { MulMono(r + 1, p - r, u); }
    if 2 * r > p { MulMono(p - r + 1, r, u); }
  }

  lemma RoundedMag(m: nat, v: nat)
    requires m > 0 && 23 < HighBit(m) < 64
    ensures var u := FloatMag(m); 0 <= u < INFINITY && NearerMag(m, u, v)
  {
    hide Pow2, HighBit, ScaledMag, Unit, NearerMag, Encloses;
    var l := HighBit(m);
    var p, q, r := FloatSplit(m, l);
    var u := (l + 126) * MANTISSA + q;
    CompareParts(r, p, Unit());
    var up := 2 * r > p || (2 * r == p && q % 2 == 1);
    assert FloatMag(m) == u + if up then 1 else 0;
    assert u % 2 == q % 2;
    NearestOfTwo(u, m, r * Unit(), (p - r) * Unit(), up, v);
  }

  lemma MagConverts(m: nat, v: nat)
    requires m <= 0x8000_0000_0000_0000
    ensures var u := FloatMag(m); 0 <= u < INFINITY && NearerMag(m, u, v)
  {
    hide HighBit, ScaledMag, Unit;
    if m == 0 {
      ZeroMag();
    } else if HighBit(m) <= 23 {
      FloatExact(m);
    } else {
      Pow2Values();
      Pow2Add(32, 32);
      HighBitBound(m, 64);
      RoundedMag(m, v);
    }
  }

  lemma ZeroMag()
    ensures FloatMag(0) == 0 && ScaledMag(0) == 0
  {
  }

  lemma WordParts(n: int)
    requires IsLong(n) && 0 <= FloatMag(Abs(n)) < INFINITY
    ensures var w := FloatOf(n);
      IsWord(w) && Finite(w) && (w < 0 <==> n < 0) && Magnitude(w) == FloatMag(Abs(n)) &&
      Scaled(w) == (if n < 0 then -1 else 1) * ScaledMag(FloatMag(Abs(n))) && w % 2 == Magnitude(w) % 2
  {
    hide FloatMag, ScaledMag;
    var w, u := FloatOf(n), FloatMag(Abs(n));
    if n < 0 { assert Unsigned(w) == u + HALF; } else { assert Unsigned(w) == u; }
  }

  /** The conversion of an integer gives the nearest float. */
  lemma FloatOfNearest(n: int)
    requires IsLong(n)
    ensures Nearest(n, FloatOf(n))
  {
    hide FloatMag, ScaledMag, Unit, Finite, Nearer, FloatOf;
    var m, w := Abs(n), FloatOf(n);
    MagConverts(m, 0);
    WordParts(n);
    forall x | Finite(x) ensures Nearer(n, w, x) {
      SignedNearer(n, w, x);
    }
  }

  lemma SignedNearer(n: int, w: int, x: int)
    requires IsLong(n) && w == FloatOf(n)
    ensures Nearer(n, w, x)
  {
    hide FloatMag, ScaledMag, Unit, Finite, FloatOf, Magnitude;
    var m, u, v := Abs(n), Magnitude(w), Magnitude(x);
    MagConverts(m, v);
    MagConverts(m, 0);
    WordParts(n);
    ZeroMag();
    MagNonneg(u);
    MagNonneg(v);
    SameMultiple(n, Unit());
    assert 0 <= m * Unit() by { MulMono(0, m, Unit()); }
  }

  lemma SameMultiple(n: int, u: int)
    ensures n * u == (if n < 0 then -1 else 1) * (Abs(n) * u)
  {
    NegMul(Abs(n), u);
  }

  /** Up to 2^24 floats stand for every integer. */
  lemma SmallExact(n: int)
    requires -0x100_0000 <= n <= 0x100_0000
    ensures Scaled(FloatOf(n)) == n * Unit()
  {
    hide FloatMag, ScaledMag, Unit, HighBit, FloatOf;
    var m := Abs(n);
    ZeroMag();
    Pow2Add(23, 1);
    PowMantissa();
    PowTwice(1);
    PowZero();
    if m == 0x100_0000 {
      EvenWord();
      MagConverts(m, 150 * MANTISSA + MANTISSA);
    } else if m > 0 {
      HighBitBound(m, 24);
      FloatExact(m);
    }
    MagConverts(m, 0);
    WordParts(n);
    SameMultiple(n, Unit());
  }

  lemma EvenWord()
    ensures ScaledMag(150 * MANTISSA + MANTISSA) == 0x100_0000 * Unit()
  {
    hide Pow2, ScaledMag;
    MagIs(151, MANTISSA);
    PowTwice(150);
    Regroup(MANTISSA, Pow2(149));
  }

  lemma CommonFactor(s: nat, p: nat, d: nat)
    requires p > 0 && d > 0
    ensures d * p > 0 && (s * p) / (d * p) == s / d
  {
    QuotientBounds(s, d);
    var q := s / d;
    MulMono(q * d, s, p);
    MulPositive(d, p);
    assert (q + 1) * d * p - s * p == ((q + 1) * d - s) * p;
    MulPositive((q + 1) * d - s, p);
    assert q * d * p == q * (d * p) && (q + 1) * d * p == (q + 1) * (d * p);
    QuotientIs(s * p, d * p, q);
  }

  lemma WholeMultiple(s: nat, p: nat, d: nat)
    requires d > 0
    ensures (s * (p * d)) / d == s * p
  {
    assert s * (p * d) == (s * p) * d;
    QuotientIs(s * (p * d), d, s * p);
  }

  lemma IntMagIs(u: nat)
    requires u < INFINITY
    ensures IntMag(u) == ScaledMag(u) / Unit()
  {
    hide Pow2;
    var e, m := u / MANTISSA, u % MANTISSA;
    if e < 127 {
      SmallMag(u);
    } else if e <= 150 {
      Pow2Add(150 - e, e - 1);
      assert (150 - e) + (e - 1) == 149;
      CommonFactor(MANTISSA + m, Pow2(e - 1), Pow2(150 - e));
    } else {
      Pow2Add(e - 150, 149);
      assert (e - 150) + 149 == e - 1;
      WholeMultiple(MANTISSA + m, Pow2(e - 150), Unit());
    }
  }

  lemma SmallMag(u: nat)
    requires u / MANTISSA < 127
    ensures 0 <= ScaledMag(u) < Unit() && ScaledMag(u) / Unit() == 0
  {
    hide Pow2, ScaledMag;
    MagNonneg(u);
    MagMono(u, 126 * MANTISSA + MANTISSA - 1);
    MagIs(126, 2 * MANTISSA - 1);
    PowMantissa();
    Pow2Add(24, 125);
    Pow2Add(23, 1);
    PowTwice(1);
    PowZero();
    MulMono(2 * MANTISSA - 1, 2 * MANTISSA, Pow2(125));
    assert 125 * MANTISSA + (2 * MANTISSA - 1) == 126 * MANTISSA + MANTISSA - 1;
    QuotientIs(ScaledMag(u), Unit(), 0);
  }

  /** The conversion of a finite float cuts off the fraction. */
  lemma IntOfTruncates(w: int)
    requires Finite(w)
    ensures IntOf(w) == TruncDiv(Scaled(w), Unit())
  {
    hide ScaledMag, IntMag, Unit;
    var u := Magnitude(w);
    IntMagIs(u);
    MagNonneg(u);
    QuotientIs(0, Unit(), 0);
  }

  /** The conversion from float to long: what `wild` says for what is not a 64-bit integer, where C++ leaves the result
      undefined (section 7.3.11 of ISO/IEC 14882:2020). */
  function ToLong(wild: Word -> Long, w: Word): Long {
    if Finite(w) && IsLong(IntOf(w)) then IntOf(w) else wild(w)
  }

  lemma HighBitOf(m: nat, k: nat)
    requires Pow2(k) <= m < Pow2(k + 1)
    ensures HighBit(m) == k
  {
    HighBitBound(m, k + 1);
    HighBitIs(m);
    if HighBit(m) < k { Pow2Mono(HighBit(m) + 1, k); }
  }

  /** Some words in the single format of IEEE 754: 1, -2, and above 2^24 one half rounded down and one rounded up. */
  lemma KnownWords()
    ensures FloatOf(1) == 0x3f80_0000 && FloatOf(-2) == 0xc000_0000 - WORD
    ensures FloatOf(0x100_0001) == 0x4b80_0000 && FloatOf(0x100_0003) == 0x4b80_0002
  {
    hide HighBit, Pow2;
    PowMantissa();
    PowZero();
    PowTwice(1);
    PowTwice(2);
    PowTwice(23);
    PowTwice(24);
    PowTwice(25);
    HighBitOf(1, 0);
    HighBitOf(2, 1);
    HighBitOf(0x100_0001, 24);
    HighBitOf(0x100_0003, 24);
  }
}
