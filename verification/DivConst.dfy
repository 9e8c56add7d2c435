/** Division of a register by a constant without a divide instruction. */
module DivConst {
  import opened Arith
  import opened Arm

  const TEMP: Reg := 11

  const IMM_16_MAX: int := 65535
  const IMM_8_MAX: int := 255

  /** Loads a constant: mov, mvn or the two halves. */
  function SetValue(dst: Reg, val: int): seq<Instr> {
    if 0 <= val <= IMM_16_MAX then [MovImm(dst, val)]
    else if -IMM_8_MAX <= val <= 0 then [Mvn(dst, -val - 1)]
    else var imm := Unsigned(val); [Movw(dst, imm % 0x1_0000), Movt(dst, imm / 0x1_0000)]
  }

  /** Every constant arrives unchanged, nothing else changes. */
  lemma SetValueLoads(dst: Reg, val: int, r: Regs)
    requires IsWord(val)
    ensures Run(SetValue(dst, val), r) == r[dst := val]
  {
    if 0 <= val <= IMM_16_MAX {
      RunOne(MovImm(dst, val), r);
    } else if -IMM_8_MAX <= val <= 0 {
      RunOne(Mvn(dst, -val - 1), r);
    } else {
      var imm := Unsigned(val);
      var lo, hi := imm % 0x1_0000, imm / 0x1_0000;
      RunTwo(Movw(dst, lo), Movt(dst, hi), r);
      Halves(val, r, dst);
      assert r[dst := lo][dst := val] == r[dst := val];
    }
  }

  lemma RunTwo(i: Instr, j: Instr, r: Regs)
    ensures Run([i, j], r) == Step(j, Step(i, r))
  {
    hide Value;
    RunOne(j, Step(i, r));
    assert [i, j][1..] == [j];
  }

  lemma Half(x: int)
    requires 0 <= x < 0x1_0000
    ensures x % 0x1_0000 == x && Wrap(x) == x && Unsigned(x) == x
  {
  }

  lemma Halves(val: int, r: Regs, dst: Reg)
    requires IsWord(val)
    ensures var imm := Unsigned(val);
      var r1 := Step(Movw(dst, imm % 0x1_0000), r);
      r1 == r[dst := imm % 0x1_0000] && Value(Movt(dst, imm / 0x1_0000), r1) == val
  {
    hide Wrap, Unsigned;
    var imm := Unsigned(val);
    var lo, hi := imm % 0x1_0000, imm / 0x1_0000;
    Half(lo);
    Half(hi);
    var r1 := Step(Movw(dst, lo), r);
    assert r1[dst] == lo;
    assert Value(Movt(dst, hi), r1) == Wrap(hi * 0x1_0000 + lo);
    assert hi * 0x1_0000 + lo == imm;
    WrapUnsigned(val);
  }

  /** How well m and sh stand for division by d: m/2^(32+sh) exceeds 1/d by a little. */
  ghost predicate Multiplies(m: int, sh: nat, d: int) {
    && 0 <= m < WORD
    && Pow2(32 + sh) < m * d <= Pow2(32 + sh) + Pow2(sh + 1)
  }

  ghost predicate IsCeilLog(l: nat, d: int) {
    Pow2(l) >= d && (l == 0 || Pow2(l - 1) < d)
  }

  /** The least l with 2^l at least d, which rounding up the logarithm of d - 1/2 gives for d of 2 or more. */
  method CeilLog(d: int) returns (l: nat)
    requires d >= 1
    ensures IsCeilLog(l, d)
  {
    l := 0;
    while Pow2(l) < d
      invariant l == 0 || Pow2(l - 1) < d
      decreases d - Pow2(l)
    {
      l := l + 1;
    }
  }

  /** The two candidates are the roundings of 2^(31+s)/d and (2^(31+s)+2^s)/d. */
  ghost predicate Candidates(low: int, high: int, d: int, s: nat) {
    d >= 1 && low == Pow2(31 + s) / d && high == (Pow2(31 + s) + Pow2(s)) / d && low < high
  }

  lemma CandidatesBegin(d: int, l: nat)
    requires d >= 1 && IsCeilLog(l, d)
    ensures Candidates(Pow2(31 + l) / d, (Pow2(31 + l) + Pow2(l)) / d, d, l)
  {
    var a := Pow2(31 + l);
    QuotientBounds(a, d);
    QuotientBounds(a + Pow2(l), d);
    assert (a / d + 1) * d <= a + Pow2(l);
    LessFromMul(a / d + 1, (a + Pow2(l)) / d + 1, d);
  }

  lemma CandidatesHalve(low: int, high: int, d: int, s: nat)
    requires d >= 1 && s >= 1 && Candidates(low, high, d, s) && low / 2 < high / 2
    ensures Candidates(low / 2, high / 2, d, s - 1)
  {
    var a, b := Pow2(31 + s - 1), Pow2(s - 1);
    assert Pow2(31 + s) == 2 * a && Pow2(s) == 2 * b;
    HalveQuotient(a, d);
    HalveQuotient(a + b, d);
  }

  lemma HalveQuotient(x: int, d: int)
    requires d >= 1
    ensures (2 * x) / d / 2 == x / d
  {
    DivDiv(2 * x, d, 2);
    DivDiv(2 * x, 2, d);
    assert d * 2 == 2 * d;
  }

  lemma CandidatesMultiply(low: int, high: int, d: int, s: nat, l: nat)
    requires 2 <= d < HALF && IsCeilLog(l, d) && 1 <= s <= l && Candidates(low, high, d, s)
    ensures Multiplies(high, s - 1, d) && 1 <= high < WORD
  {
    var a := Pow2(31 + s);
    QuotientBounds(a, d);
    QuotientBounds(a + Pow2(s), d);
    MulMono(low + 1, high, d);
    assert a < high * d <= a + Pow2(s);
    HighFits(high, d, s, l);
    assert 32 + (s - 1) == 31 + s;
    assert high >= 1 by {
      if high <= 0 { MulMono(high, 0, d); }
    }
  }

  /** The multiplier fits in an unsigned word. */
  lemma HighFits(high: int, d: int, s: nat, l: nat)
    requires 2 <= d < HALF && IsCeilLog(l, d) && 1 <= s <= l && high * d <= Pow2(31 + s) + Pow2(s)
    ensures high < WORD
  {
    Pow2Values();
    assert l <= 31 by {
      if l > 31 { Pow2Mono(31, l - 1); }
    }
    var p := Pow2(l - 1);
    Pow2Mono(s, l);
    Pow2Add(s, 31);
    Pow2Mono(l - 1, 30);
    assert Pow2(31 + s) == HALF * Pow2(s) by { assert s + 31 == 31 + s; }
    assert Pow2(31 + s) + Pow2(s) == (HALF + 1) * Pow2(s);
    MulMono(Pow2(s), 2 * p, HALF + 1);
    assert high * d <= (HALF + 1) * (2 * p) == (WORD + 2) * p;
    Squeeze(high, p, d);
  }

  lemma Squeeze(high: int, p: int, d: int)
    requires 1 <= p <= 0x4000_0000 && d >= p + 1 && high * d <= (WORD + 2) * p
    ensures high < WORD
  {
    if high >= 0 {
      MulMono(p + 1, d, high);
      assert high * (p + 1) <= high * d;
      assert (WORD + 2) * p < WORD * (p + 1);
      LessFromMul(high, WORD, p + 1);
    }
  }

  /** The products of the search fit in 64 bits. */
  lemma SearchFits(d: int, l: nat)
    requires 2 <= d < HALF && IsCeilLog(l, d)
    ensures 1 <= l <= 31 && Pow2(31 + l) + Pow2(l) < 0x1_0000_0000_0000_0000
  {
    Pow2Values();
    if l > 31 { Pow2Mono(31, l - 1); }
    Pow2Mono(31 + l, 62);
    Pow2Mono(l, 31);
    Pow2Add(31, 31);
  }

  /** Chooses the multiplier m, the shift after the multiplication and the logarithm l of a divisor. */
  method ChooseMultiplier(d: int) returns (m: int, sh: int, l: nat)
    requires 2 <= d < HALF
    ensures sh >= 0 && IsWord(m) && Multiplies(Unsigned(m), sh, d) && IsCeilLog(l, d) && sh < l <= 31
  {
    hide Candidates, Multiplies, IsCeilLog, Wrap, Unsigned, Pow2;
    l := CeilLog(d);
    SearchFits(d, l);
    sh := l;
    var low := Pow2(31 + l) / d;
    var high := (Pow2(31 + l) + Pow2(l)) / d;
    CandidatesBegin(d, l);
    while low / 2 < high / 2 && sh > 1
      invariant 1 <= sh <= l && Candidates(low, high, d, sh)
      decreases sh
    {
      CandidatesHalve(low, high, d, sh);
      low := low / 2;
      high := high / 2;
      sh := sh - 1;
    }
    CandidatesMultiply(low, high, d, sh, l);
    UnsignedWrap(high);
    sh := sh - 1;
    m := Wrap(high);
  }

  /** The product with the multiplier lies between the multiples of 2^(32+sh) that the quotient tells. */
  lemma Sandwich(m: int, d: int, p: int, e: int, k: int, q: int)
    requires p < m * d <= p + e && HALF * e == p && d >= 1 && p >= 1
    requires 0 <= k <= HALF && q * d <= k && k + 1 <= (q + 1) * d
    ensures q * p <= m * k <= (q + 1) * p
    ensures k > 0 ==> q * p < m * k
    ensures k < HALF ==> m * k < (q + 1) * p
  {
    var a := m * d;
    MulMono(p, a, k);
    MulMono(a, p + e, k);
    MulMono(k, HALF, e);
    assert a * k <= p * k + e * k;
    MulMono(q * d, k, p);
    MulMono(k + 1, (q + 1) * d, p);
    assert (q * d) * p == (q * p) * d;
    assert ((q + 1) * d) * p == ((q + 1) * p) * d;
    assert a * k == (m * k) * d;
    assert p * k + p == p * (k + 1);
    AtMostFromMul(q * p, m * k, d);
    AtMostFromMul(m * k, (q + 1) * p, d);
    if k > 0 {
      MulMono(p + 1, a, k);
      assert (p + 1) * k == p * k + k;
      LessFromMul(q * p, m * k, d);
    }
    if k < HALF {
      MulMono(k, HALF - 1, e);
      assert (HALF - 1) * e == p - e;
      LessFromMul(m * k, (q + 1) * p, d);
    }
  }

  lemma AtMostFromMul(x: int, y: int, c: int)
    requires x * c <= y * c && c > 0
    ensures x <= y
  {
    assert (y + 1) * c == y * c + c;
    LessFromMul(x, y + 1, c);
  }

  /** Multiplying by the multiplier and shifting divides, up to one for a negative dividend. */
  lemma MultiplyDivides(n: int, d: int, m: int, sh: nat)
    requires IsWord(n) && 2 <= d && Multiplies(m, sh, d)
    ensures m * n / Pow2(32 + sh) + (if n < 0 then 1 else 0) == TruncDiv(n, d)
  {
    hide Pow2;
    var p, e := Pow2(32 + sh), Pow2(sh + 1);
    Pow2Values();
    Pow2Add(31, sh + 1);
    assert 31 + (sh + 1) == 32 + sh;
    var k := Abs(n);
    var q := k / d;
    QuotientBounds(k, d);
    Sandwich(m, d, p, e, k, q);
    if n >= 0 {
      QuotientIs(m * n, p, q);
    } else {
      NegMul(m, n);
      assert m * n == -(m * k) by { assert m * (-n) == -(m * n); }
      NegMul(q + 1, p);
      NegMul(q, p);
      QuotientIs(m * n, p, -(q + 1));
    }
  }

  /** The high word of the product, the shift and the sign give the quotient. */
  lemma HighWordDivides(n: int, d: int, m: int, sh: nat)
    requires IsWord(n) && 2 <= d && Multiplies(m, sh, d)
    ensures m * n / WORD / Pow2(sh) + (if n < 0 then 1 else 0) == TruncDiv(n, d)
    ensures IsWord(m * n / WORD) && IsWord(TruncDiv(n, d))
  {
    hide Multiplies, TruncDiv, Pow2;
    Pow2Values();
    Pow2Add(32, sh);
    DivDiv(m * n, WORD, Pow2(sh));
    MultiplyDivides(n, d, m, sh);
    MultiplierFits(m, sh, d);
    HighWord(n, m);
    QuotientWord(n, d);
  }

  lemma MultiplierFits(m: int, sh: nat, d: int)
    requires Multiplies(m, sh, d)
    ensures 0 <= m < WORD
  {
  }

  lemma HighWord(n: int, m: int)
    requires IsWord(n) && 0 <= m < WORD
    ensures IsWord(m * n / WORD)
  {
    QuotientBounds(m * n, WORD);
    var q := m * n / WORD;
    MulMono(n, HALF - 1, m);
    MulMono(-HALF, n, m);
    MulMono(m, WORD - 1, HALF);
    assert -HALF * WORD <= m * n < HALF * WORD;
    LessFromMul(q, HALF, WORD);
    LessFromMul(-HALF, q + 1, WORD);
  }

  lemma SignBit(n: int)
    requires IsWord(n)
    ensures Unsigned(n) / Pow2(31) == if n < 0 then 1 else 0
  {
    Pow2Values();
    var u := Unsigned(n);
    assert u == if n < 0 then n + WORD else n;
    QuotientIs(u, HALF, if n < 0 then 1 else 0);
  }

  /** With the multiplier as a signed word, adding the dividend back makes up for the missing 2^32. */
  lemma SignedMultiplier(n: int, m: int)
    requires IsWord(n) && IsWord(m)
    ensures m >= 0 ==> m * n / WORD == Unsigned(m) * n / WORD
    ensures m < 0 ==> n + m * n / WORD == Unsigned(m) * n / WORD
  {
    if m < 0 {
      assert Unsigned(m) == m + WORD;
      var q := m * n / WORD;
      QuotientBounds(m * n, WORD);
      assert (m + WORD) * n == m * n + n * WORD;
      QuotientIs((m + WORD) * n, WORD, q + n);
    }
  }

  /** The bias that rounds the shift of a negative number toward zero. */
  lemma Bias(n: int, l: nat)
    requires IsWord(n) && 1 <= l <= 30
    ensures Unsigned(n / Pow2(l - 1)) / Pow2(32 - l) == if n < 0 then Pow2(l) - 1 else 0
  {
    hide Pow2, Unsigned;
    Pow2Values();
    Pow2Add(l - 1, 32 - l);
    assert l - 1 + (32 - l) == 31 && l + (32 - l) == 32;
    Pow2Add(l, 32 - l);
    Pow2Mono(32 - l, 31);
    BiasOf(n, Pow2(l - 1), Pow2(32 - l), Pow2(l));
  }

  lemma BiasOf(n: int, a: int, c: int, b: int)
    requires IsWord(n) && a >= 1 && 1 <= c <= HALF && a * c == HALF && b * c == WORD
    ensures Unsigned(n / a) / c == if n < 0 then b - 1 else 0
  {
    var y := n / a;
    QuotientBounds(n, a);
    LessFromMul(y, c, a);
    NegMul(c, a);
    LessFromMul(-c, y + 1, a);
    if n < 0 {
      NegativeQuotient(n, a);
      assert Unsigned(y) == WORD + y;
      assert (b - 1) * c == WORD - c;
      QuotientIs(WORD + y, c, b - 1);
    } else {
      LessFromMul(-1, y, a);
      assert Unsigned(y) == y;
      QuotientIs(y, c, 0);
    }
  }

  lemma NegativeQuotient(n: int, a: int)
    requires n < 0 && a > 0
    ensures n / a < 0
  {
    QuotientBounds(n, a);
    LessFromMul(n / a, 0, a);
  }

  /** Signed division by a power of two with a bias. */
  lemma PowerDivides(n: int, l: nat)
    requires IsWord(n) && 1 <= l <= 30
    ensures var b := Wrap(Unsigned(n / Pow2(l - 1)) / Pow2(32 - l)); Wrap(b + n) / Pow2(l) == TruncDiv(n, Pow2(l))
    ensures IsWord(TruncDiv(n, Pow2(l)))
  {
    hide Pow2, Wrap, Unsigned, TruncDiv;
    Bias(n, l);
    Pow2Values();
    Pow2Mono(l, 30);
    Pow2Mono(1, l);
    assert Pow2(1) == 2 by { PowerOne(); }
    var c := Pow2(l);
    BiasDivides(n, c);
    var b := if n < 0 then c - 1 else 0;
    WrapWord(b);
    WrapWord(b + n);
  }

  lemma PowerOne()
    ensures Pow2(1) == 2
  {
  }

  function Move(dst: Reg, src: Reg): seq<Instr> {
    if dst == src then [] else [Mov(dst, src)]
  }

  /** The instructions for division of src by d, given the multiplier, shift and logarithm for the size of d. */
  function DivCode(dst: Reg, src: Reg, d: int, m: int, sh: nat, l: nat): seq<Instr> {
    (if Abs(d) == 1 then Move(dst, src)
     else if l >= 1 && l <= 32 && Abs(d) == Wrap(Pow2(l)) then
       [Asr(TEMP, src, l - 1), Lsr(TEMP, TEMP, 32 - l), Add(TEMP, TEMP, src), Asr(dst, TEMP, l)]
     else if m >= 0 then
       SetValue(TEMP, m) + [Smmul(TEMP, TEMP, src), Asr(TEMP, TEMP, sh), AddLsr(dst, TEMP, src, 31)]
     else
       SetValue(TEMP, m) + [Smmla(TEMP, TEMP, src, src), Asr(TEMP, TEMP, sh), AddLsr(dst, TEMP, src, 31)])
    + if d < 0 then [Rsb(dst, dst, 0)] else []
  }

  lemma RunThree(i: Instr, j: Instr, k: Instr, r: Regs)
    ensures Run([i, j, k], r) == Step(k, Step(j, Step(i, r)))
  {
    hide Value;
    assert [i, j, k][1..] == [j, k];
    RunTwo(j, k, Step(i, r));
  }

  lemma RunFour(i: Instr, j: Instr, k: Instr, l: Instr, r: Regs)
    ensures Run([i, j, k, l], r) == Step(l, Step(k, Step(j, Step(i, r))))
  {
    hide Value;
    assert [i, j, k, l][1..] == [j, k, l];
    RunThree(j, k, l, Step(i, r));
  }

  /** dst holds the value and every other register but the scratch register is unchanged. */
  ghost predicate Leaves(r: Regs, r': Regs, dst: Reg, v: int) {
    dst in r' && r'[dst] == v && forall x :: x != dst && x != TEMP ==> Read(r', x) == Read(r, x)
  }

  lemma MovePath(dst: Reg, src: Reg, r: Regs)
    requires src in r
    ensures Leaves(r, Run(Move(dst, src), r), dst, r[src])
  {
    if dst != src { RunOne(Mov(dst, src), r); }
  }

  lemma PowerPath(dst: Reg, src: Reg, l: nat, r: Regs)
    requires src in r && src != TEMP && IsWord(r[src]) && 1 <= l <= 30
    ensures Leaves(r, Run([Asr(TEMP, src, l - 1), Lsr(TEMP, TEMP, 32 - l), Add(TEMP, TEMP, src), Asr(dst, TEMP, l)], r),
        dst, TruncDiv(r[src], Pow2(l)))
  {
    hide Wrap, Unsigned, TruncDiv, Pow2;
    var i, j, k, q := Asr(TEMP, src, l - 1), Lsr(TEMP, TEMP, 32 - l), Add(TEMP, TEMP, src), Asr(dst, TEMP, l);
    RunFour(i, j, k, q, r);
    PowerDivides(r[src], l);
    var r1 := Step(i, r);
    var r2 := Step(j, r1);
    var r3 := Step(k, r2);
    assert r1[TEMP] == r[src] / Pow2(l - 1);
    assert r2[TEMP] == Wrap(Unsigned(r1[TEMP]) / Pow2(32 - l));
    assert Read(r2, src) == r[src];
    assert r3[TEMP] == Wrap(r2[TEMP] + r[src]);
    assert Step(q, r3)[dst] == TruncDiv(r[src], Pow2(l));
  }

  /** The tail shared by both multiplier forms. */
  lemma ShiftAndSign(dst: Reg, src: Reg, d: int, m: int, sh: nat, r: Regs, h: int)
    requires src in r && src != TEMP && IsWord(r[src]) && 2 <= d && Multiplies(m, sh, d) && h == m * r[src] / WORD
    ensures Leaves(r, Step(AddLsr(dst, TEMP, src, 31), Step(Asr(TEMP, TEMP, sh), r[TEMP := h])), dst,
            TruncDiv(r[src], d))
  {
    hide Wrap, Unsigned, TruncDiv, Multiplies, Pow2;
    HighWordDivides(r[src], d, m, sh);
    SignBit(r[src]);
    WrapWord(TruncDiv(r[src], d));
    var r1 := r[TEMP := h];
    var r2 := Step(Asr(TEMP, TEMP, sh), r1);
    assert r2[TEMP] == h / Pow2(sh);
    assert Read(r2, src) == r[src];
  }

  lemma MultiplyPath(dst: Reg, src: Reg, d: int, m: int, sh: nat, r: Regs)
    requires src in r && src != TEMP && IsWord(r[src]) && IsWord(m) && 2 <= d && Multiplies(Unsigned(m), sh, d)
    ensures var i := if m >= 0 then Smmul(TEMP, TEMP, src) else Smmla(TEMP, TEMP, src, src);
      Leaves(r, Run(SetValue(TEMP, m) + [i, Asr(TEMP, TEMP, sh), AddLsr(dst, TEMP, src, 31)], r), dst,
          TruncDiv(r[src], d))
  {
    hide Wrap, Unsigned, TruncDiv, Multiplies, Pow2, SetValue;
    var n := r[src];
    var i := if m >= 0 then Smmul(TEMP, TEMP, src) else Smmla(TEMP, TEMP, src, src);
    var j, k := Asr(TEMP, TEMP, sh), AddLsr(dst, TEMP, src, 31);
    SetValueLoads(TEMP, m, r);
    RunConcat(SetValue(TEMP, m), [i, j, k], r);
    var r0 := r[TEMP := m];
    RunThree(i, j, k, r0);
    SignedMultiplier(n, m);
    HighWordDivides(n, d, Unsigned(m), sh);
    var h := Unsigned(m) * n / WORD;
    WrapWord(h);
    assert Value(i, r0) == h;
    assert Step(i, r0) == r[TEMP := h];
    ShiftAndSign(dst, src, d, Unsigned(m), sh, r, h);
  }

  lemma DivideByOne(n: int)
    ensures TruncDiv(n, 1) == n
  {
  }

  lemma PowerIs(d: int, l: nat)
    requires 2 <= d < HALF && 1 <= l <= 31 && d == Wrap(Pow2(l))
    ensures d == Pow2(l) && l <= 30
  {
    hide Pow2;
    Pow2Values();
    assert Wrap(HALF) == -HALF;
    if l <= 30 {
      Pow2Mono(l, 30);
      WrapWord(Pow2(l));
    }
  }

  lemma Positive(dst: Reg, src: Reg, d: int, m: int, sh: nat, l: nat, r: Regs)
    requires 1 <= d < HALF && src in r && src != TEMP && IsWord(r[src]) && IsWord(m)
    requires d >= 2 ==> Multiplies(Unsigned(m), sh, d) && IsCeilLog(l, d)
    ensures Leaves(r, Run(DivCode(dst, src, d, m, sh, l), r), dst, TruncDiv(r[src], d))
  {
    hide Multiplies, Unsigned, SetValue, Run, Leaves, TruncDiv, Wrap;
    if d == 1 {
      MovePath(dst, src, r);
      assert DivCode(dst, src, d, m, sh, l) == Move(dst, src);
      DivideByOne(r[src]);
    } else {
      SearchFits(d, l);
      Pow2Values();
      if d == Wrap(Pow2(l)) { PowerIs(d, l); }
      var code := DivCode(dst, src, d, m, sh, l);
      if d == Wrap(Pow2(l)) {
        PowerPath(dst, src, l, r);
        assert code == [Asr(TEMP, src, l - 1), Lsr(TEMP, TEMP, 32 - l), Add(TEMP, TEMP, src), Asr(dst, TEMP, l)];
      } else {
        MultiplyPath(dst, src, d, m, sh, r);
        assert code == SetValue(TEMP, m) + [if m >= 0 then Smmul(TEMP, TEMP, src) else Smmla(TEMP, TEMP, src, src),
            Asr(TEMP, TEMP, sh), AddLsr(dst, TEMP, src, 31)];
      }
    }
  }

  /** For every dividend the instructions leave the quotient rounded toward zero. */
  lemma DivCodeDivides(dst: Reg, src: Reg, d: int, m: int, sh: nat, l: nat, r: Regs)
    requires 1 <= Abs(d) < HALF && src in r && src != TEMP && IsWord(r[src]) && IsWord(m)
    requires Abs(d) >= 2 ==> Multiplies(Unsigned(m), sh, Abs(d)) && IsCeilLog(l, Abs(d))
    ensures Leaves(r, Run(DivCode(dst, src, d, m, sh, l), r), dst, Wrap(TruncDiv(r[src], d)))
  {
    hide Multiplies, Unsigned, SetValue;
    var n := r[src];
    var base := DivCode(dst, src, Abs(d), m, sh, l);
    Positive(dst, src, Abs(d), m, sh, l, r);
    if d > 0 {
      QuotientWord(n, d);
      WrapWord(TruncDiv(n, d));
    } else {
      assert DivCode(dst, src, d, m, sh, l) == base + [Rsb(dst, dst, 0)];
      RunConcat(base, [Rsb(dst, dst, 0)], r);
      RunOne(Rsb(dst, dst, 0), Run(base, r));
      assert TruncDiv(n, d) == -TruncDiv(n, Abs(d));
    }
  }

  lemma QuotientWord(n: int, d: int)
    requires IsWord(n) && d >= 1
    ensures IsWord(TruncDiv(n, d))
  {
    if d >= 2 {
      SmallQuotient(Abs(n), d);
    }
  }

  ghost predicate Divides(code: seq<Instr>, dst: Reg, src: Reg, d: int)
    requires d != 0
  {
    forall r: Regs {:trigger Run(code, r)} :: src in r && IsWord(r[src]) ==>
                                                Leaves(r, Run(code, r), dst, Wrap(TruncDiv(r[src], d)))
  }

  /** Emits division of src by the constant d. */
  method Emit(dst: Reg, src: Reg, d: int) returns (code: seq<Instr>)
    requires 1 <= Abs(d) < HALF && src != TEMP
    ensures Divides(code, dst, src, d)
  {
    hide DivCode, Leaves;
    var m, sh, l := 0, 0, 0;
    if Abs(d) != 1 {
      m, sh, l := ChooseMultiplier(Abs(d));
    }
    code := DivCode(dst, src, d, m, sh, l);
    forall r: Regs | src in r && IsWord(r[src])
      ensures Leaves(r, Run(code, r), dst, Wrap(TruncDiv(r[src], d)))
    {
      DivCodeDivides(dst, src, d, m, sh, l, r);
    }
  }
}
