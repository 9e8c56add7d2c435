/** The local rewritings of the lowering pass, and that each computes the value of what it replaces. */
module LowerRules {
  import opened Arith
  import opened BlockIr
  import opened BlockRewrite
  import opened PowerOfTwo

  /** Put the new instructions before the old one, redirect its uses to `by` and erase it; `stop` ends the scan of the
      block. */
  datatype Rule = Keep | Replace(news: seq<Instr>, with: Value, stop: bool)

  /** A remainder becomes a division, a multiplication and a subtraction. */
  function RemRule(x: Instr, next: nat): Rule {
    if x.op.Rem? && |x.args| == 2 then
      var a, b := x.args[0], x.args[1];
      Replace([Instr(next, Div, [a, b]), Instr(next + 1, Mul, [Var(next), b]),
          Instr(next + 2, Sub, [a, Var(next + 1)])], Var(next + 2), false)
    else Keep
  }

  predicate PowerConst(v: Value) {
    v.Const? && IsPowerOfTwo(v.c)
  }

  /** Multiplications and divisions by powers of two become shifts; a division first adds a bias to a negative
      dividend. */
  function ShiftRule(x: Instr, next: nat): Rule {
    if x.op.Mul? && |x.args| == 2 then
      if PowerConst(x.args[0]) then Replace([Instr(next, Shl, [x.args[1], Const(CeilLog2(x.args[0].c))])], Var(next),
          false)
      else if PowerConst(x.args[1]) then Replace([Instr(next, Shl, [x.args[0], Const(CeilLog2(x.args[1].c))])],
          Var(next), false)
      else Keep
    else if x.op.Div? && |x.args| == 2 && PowerConst(x.args[1]) then
      var a, s := x.args[0], CeilLog2(x.args[1].c);
      Replace([Instr(next, Ashr, [a, Const(31)]), Instr(next + 1, Lshr, [Var(next), Const(32 - s)]),
               Instr(next + 2, Add, [Var(next + 1), a]), Instr(next + 3, Ashr, [Var(next + 2), Const(s)])],
                   Var(next + 3), false)
    else Keep
  }

  /** a+0, a-0, a*0, a*1 and a/1 go; deleting a subtraction or a division also ends the scan. */
  function UnusedRule(x: Instr): Rule {
    if |x.args| != 2 then Keep
    else
      var a, b := x.args[0], x.args[1];
      match x.op
      case Add =>
        if a == Const(0) then if b.Global? then Keep else Replace([], b, false)
        else if b == Const(0) then if a.Global? then Keep else Replace([], a, false)
        else Keep
      case Sub => if b == Const(0) then Replace([], a, true) else Keep
      case Mul =>
        if a == Const(0) then Replace([], Const(0), false)
        else if a == Const(1) then Replace([], b, false)
        else if b == Const(0) then Replace([], Const(0), false)
        else if b == Const(1) then Replace([], a, false)
        else Keep
      case Div => if b == Const(1) then Replace([], a, true) else Keep
      case _ => Keep
  }

  /** The products of the constant indices with their sizes, accumulated in a 32-bit variable. */
  function ConstOffset(idxs: seq<Value>, sizes: seq<int>): int
    requires |idxs| == |sizes|
  {
    if idxs == [] then 0
    else
      var n := |idxs| - 1;
      var off := ConstOffset(idxs[..n], sizes[..n]);
      if idxs[n].Const? && idxs[n].c != 0 then Wrap(off + Scaled(idxs[n].c, sizes[n])) else off
  }

  /** One multiply-add for each index that is not a constant, the first one on top of the constant offset. */
  function IndexChain(idxs: seq<Value>, sizes: seq<int>, off: int, next: nat): seq<Instr>
    requires |idxs| == |sizes|
  {
    if idxs == [] then []
    else
      var n := |idxs| - 1;
      var c := IndexChain(idxs[..n], sizes[..n], off, next);
      if idxs[n].Const? then c
      else c + [Instr(next + |c|, Mla, [idxs[n], Const(sizes[n]), if c == [] then Const(off) else Var(next + |c| - 1)])]
  }

  /** An address computation becomes a chain of multiply-adds, the last of which adds the base. */
  function GepRule(x: Instr, next: nat): Rule {
    if x.op.Gep? && |x.args| == 1 + |x.op.sizes| then
      var idxs := x.args[1..];
      var off := ConstOffset(idxs, x.op.sizes);
      var c := IndexChain(idxs, x.op.sizes, off, next);
      var last := Instr(next + |c|, Mla, [Const(1), x.args[0], if c == [] then Const(off) else Var(next + |c| - 1)]);
      Replace(c + [last], Var(next + |c|), false)
    else Keep
  }

  /** Constants are words other than the smallest one. */
  ghost predicate ConstsOk(x: Instr) {
    forall v :: v in x.args && v.Const? ==> -HALF < v.c < HALF
  }

  lemma EvalConst(s: State, c: int)
    requires IsWord(c)
    ensures Eval(s, Const(c)) == c
  {
  }

  function Put(s: State, id: nat, v: int): State {
    s.(env := s.env[id := v])
  }

  lemma RunOne(o: Oracle, x: Instr, s: State)
    requires !x.op.Effect?
    ensures Run(o, [x], s) == Put(s, x.id, ValueOf(x.op, Evals(s, x.args)))
  {
    assert [x][1..] == [];
  }

  lemma EvalTwo(s: State, a: Value, b: Value)
    ensures Evals(s, [a, b]) == [Eval(s, a), Eval(s, b)]
  {
  }

  /** Writing a new number changes no value that does not use it. */
  lemma EvalPut(s: State, id: nat, v: int, a: Value)
    ensures a != Var(id) ==> Eval(Put(s, id, v), a) == Eval(s, a)
    ensures Eval(Put(s, id, v), Var(id)) == v
  {
  }

  lemma RemSplits(a: int, b: int)
    requires IsWord(a) && IsWord(b)
    ensures Wrap(a - Wrap(DivWord(a, b) * b)) == RemWord(a, b)
  {
    hide Wrap, TruncDiv;
    if b == 0 {
      WrapWord(a);
      WrapWord(0);
    } else {
      var q := TruncDiv(a, b);
      WrapMul(q, b);
      WrapSub(a, q * b);
      TruncDivIs(a, b);
      RemBound(a, b);
      WrapWord(TruncRem(a, b));
      assert a - q * b == TruncRem(a, b);
    }
  }

  lemma RunFront(o: Oracle, x: Instr, rest: seq<Instr>, s: State)
    requires !x.op.Effect?
    ensures Run(o, [x] + rest, s) == Run(o, rest, Put(s, x.id, ValueOf(x.op, Evals(s, x.args))))
  {
    assert ([x] + rest)[1..] == rest;
  }

  /** Every remainder is split, and splitting it gives the remainder of C, also for negative numbers. */
  lemma RemReplaces(o: Oracle, x: Instr, next: nat)
    requires InRange(x, next)
    ensures RemRule(x, next).Replace? <==> x.op.Rem? && |x.args| == 2
    ensures var r := RemRule(x, next); r.Replace? ==> Replaces(o, x, r.news, r.with, next)
  {
    if x.op.Rem? && |x.args| == 2 {
      var r := RemRule(x, next);
      assert x.args == [x.args[0], x.args[1]];
      forall s {:trigger Run(o, r.news, s)} | Words(s)
        ensures var s' := Run(o, r.news, s);
          Agree(s, s', Range(next, next + 3)) && Eval(s', Var(next + 2)) == ValueOf(Rem, Evals(s, x.args))
      {
        RemRuns(o, x.args[0], x.args[1], next, s);
      }
    }
  }

  lemma RemRuns(o: Oracle, a: Value, b: Value, next: nat, s: State)
    requires Words(s) && (a.Var? ==> a.id < next) && (b.Var? ==> b.id < next)
    ensures var s' := Run(o, [Instr(next, Div, [a, b]), Instr(next + 1, Mul, [Var(next), b]),
            Instr(next + 2, Sub, [a, Var(next + 1)])], s);
      Agree(s, s', Range(next, next + 3)) && Eval(s', Var(next + 2)) == RemWord(Eval(s, a), Eval(s, b))
  {
    hide Wrap, TruncDiv, TruncRem, Eval, Evals, Run, DivWord, RemWord;
    var i, j, k := Instr(next, Div, [a, b]), Instr(next + 1, Mul, [Var(next), b]),
        Instr(next + 2, Sub, [a, Var(next + 1)]);
    var x, y := Eval(s, a), Eval(s, b);
    EvalTwo(s, a, b);
    var s1 := Put(s, next, DivWord(x, y));
    EvalPut(s, next, DivWord(x, y), a);
    EvalPut(s, next, DivWord(x, y), b);
    EvalTwo(s1, Var(next), b);
    var s2 := Put(s1, next + 1, Wrap(DivWord(x, y) * y));
    EvalPut(s1, next + 1, Wrap(DivWord(x, y) * y), a);
    EvalPut(s1, next + 1, Wrap(DivWord(x, y) * y), b);
    EvalTwo(s2, a, Var(next + 1));
    var v := Wrap(x - Wrap(DivWord(x, y) * y));
    EvalPut(s2, next + 2, v, a);
    assert [i, j, k] == [i] + ([j] + [k]);
    RunFront(o, i, [j] + [k], s);
    RunFront(o, j, [k], s1);
    RunOne(o, k, s2);
    EvalIsWord(s, a);
    EvalIsWord(s, b);
    RemSplits(x, y);
  }

  lemma EvalIsWord(s: State, a: Value)
    requires Words(s)
    ensures IsWord(Eval(s, a))
  {
  }

  lemma ShlReplaces(o: Oracle, a: Value, c: int, next: nat, s: State)
    requires Words(s) && -HALF < c < HALF && IsPowerOfTwo(c) && (a.Var? ==> a.id < next)
    ensures var s' := Run(o, [Instr(next, Shl, [a, Const(CeilLog2(c))])], s);
      Agree(s, s', Range(next, next + 1)) && Eval(s', Var(next)) == Wrap(Eval(s, a) * c)
  {
    hide Wrap, Pow2, CeilLog2, IsPowerOfTwo;
    PowerOfTwoIs(c);
    var k := CeilLog2(c);
    RunOne(o, Instr(next, Shl, [a, Const(k)]), s);
    EvalTwo(s, a, Const(k));
    WrapWord(k);
    EvalPut(s, next, Wrap(Eval(s, a) * c), a);
  }

  lemma MulReplaces(o: Oracle, x: Instr, next: nat)
    requires InRange(x, next) && ConstsOk(x) && x.op.Mul?
    ensures var r := ShiftRule(x, next); r.Replace? ==> Replaces(o, x, r.news, r.with, next)
  {
    hide CeilLog2, IsPowerOfTwo, Words;
    var r := ShiftRule(x, next);
    if r.Replace? {
      var a, b := x.args[0], x.args[1];
      assert x.args == [a, b];
      var c, v := if PowerConst(a) then a.c else b.c, if PowerConst(a) then b else a;
      forall s {:trigger Run(o, r.news, s)} | Words(s)
        ensures var s' := Run(o, r.news, s);
          Agree(s, s', Range(next, next + 1)) && Eval(s', Var(next)) == ValueOf(Mul, Evals(s, x.args))
      {
        ShlReplaces(o, v, c, next, s);
        EvalTwo(s, a, b);
        EvalConst(s, c);
        assert Eval(s, a) * Eval(s, b) == Eval(s, v) * c;
      }
    }
  }

  /** The bias got by shifting the sign. */
  lemma SignBias(x: int, k: nat)
    requires IsWord(x) && k <= 30
    ensures Unsigned(x / Pow2(31)) / Pow2(32 - k) == if x < 0 then Pow2(k) - 1 else 0
    ensures IsWord(Pow2(k) - 1)
  {
    hide Pow2;
    Pow2Values();
    Pow2Add(k, 32 - k);
    assert k + (32 - k) == 32;
    Pow2Mono(k, 30);
    var c := Pow2(32 - k);
    QuotientIs(x, HALF, if x < 0 then -1 else 0);
    if x < 0 {
      assert Unsigned(-1) == WORD - 1;
      assert (Pow2(k) - 1) * c == WORD - c;
      QuotientIs(WORD - 1, c, Pow2(k) - 1);
    } else {
      QuotientIs(0, c, 0);
    }
  }

  lemma ShiftDivides(x: int, k: nat)
    requires IsWord(x) && k <= 30
    ensures var b := Wrap(Unsigned(x / Pow2(31)) / Pow2(32 - k)); Wrap(b + x) / Pow2(k) == DivWord(x, Pow2(k))
  {
    hide Pow2, Wrap, Unsigned;
    SignBias(x, k);
    Pow2Values();
    Pow2Mono(k, 30);
    var d := Pow2(k);
    var b := if x < 0 then d - 1 else 0;
    WrapWord(b);
    if d == 1 {
      DivideByOne(x);
      WrapWord(x);
    } else {
      BiasDivides(x, d);
      WrapWord(b + x);
      WrapWord(TruncDiv(x, d));
    }
  }

  lemma DivideByOne(x: int)
    ensures TruncDiv(x, 1) == x && x / 1 == x
  {
  }

  lemma DivRuns(o: Oracle, a: Value, c: int, next: nat, s: State)
    requires Words(s) && -HALF < c < HALF && IsPowerOfTwo(c) && (a.Var? ==> a.id < next)
    ensures var k := CeilLog2(c);
      k <= 30 &&
      var s' := Run(o, [Instr(next, Ashr, [a, Const(31)]), Instr(next + 1, Lshr, [Var(next), Const(32 - k)]),
                        Instr(next + 2, Add, [Var(next + 1), a]), Instr(next + 3, Ashr, [Var(next + 2), Const(k)])], s);
      Agree(s, s', Range(next, next + 4)) && Eval(s', Var(next + 3)) == DivWord(Eval(s, a), c)
  {
    hide Wrap, Pow2, CeilLog2, IsPowerOfTwo, Unsigned, DivWord, Eval, Evals, Run;
    PowerOfTwoIs(c);
    var k := CeilLog2(c);
    var x := Eval(s, a);
    EvalIsWord(s, a);
    ShiftDivides(x, k);
    var i1, i2 := Instr(next, Ashr, [a, Const(31)]), Instr(next + 1, Lshr, [Var(next), Const(32 - k)]);
    var i3, i4 := Instr(next + 2, Add, [Var(next + 1), a]), Instr(next + 3, Ashr, [Var(next + 2), Const(k)]);
    var v1 := x / Pow2(31);
    EvalTwo(s, a, Const(31));
    EvalConst(s, 31);
    var s1 := Put(s, next, v1);
    EvalPut(s, next, v1, a);
    EvalTwo(s1, Var(next), Const(32 - k));
    EvalConst(s1, 32 - k);
    var v2 := Wrap(Unsigned(v1) / Pow2(32 - k));
    var s2 := Put(s1, next + 1, v2);
    EvalPut(s1, next + 1, v2, a);
    EvalTwo(s2, Var(next + 1), a);
    var v3 := Wrap(v2 + x);
    var s3 := Put(s2, next + 2, v3);
    EvalPut(s2, next + 2, v3, a);
    EvalTwo(s3, Var(next + 2), Const(k));
    EvalConst(s3, k);
    EvalPut(s3, next + 3, v3 / Pow2(k), a);
    assert [i1, i2, i3, i4] == [i1] + ([i2] + ([i3] + [i4]));
    RunFront(o, i1, [i2] + ([i3] + [i4]), s);
    RunFront(o, i2, [i3] + [i4], s1);
    RunFront(o, i3, [i4], s2);
    RunOne(o, i4, s3);
  }

  lemma DivReplaces(o: Oracle, x: Instr, next: nat)
    requires InRange(x, next) && ConstsOk(x) && x.op.Div?
    ensures var r := ShiftRule(x, next); r.Replace? ==> Replaces(o, x, r.news, r.with, next)
  {
    hide CeilLog2, IsPowerOfTwo, Words, Run, Evals, Eval, DivWord;
    var r := ShiftRule(x, next);
    if r.Replace? {
      DivNewOk(x, next);
      forall s {:trigger Run(o, r.news, s)} | Words(s)
        ensures var s' := Run(o, r.news, s);
          Agree(s, s', Range(next, next + |r.news|)) && Eval(s', r.with) == ValueOf(x.op, Evals(s, x.args))
      {
        DivMeans(o, x, next, s);
      }
    }
  }

  lemma DivNewOk(x: Instr, next: nat)
    requires x.op.Div? && ShiftRule(x, next).Replace?
    ensures var r := ShiftRule(x, next); NewOk(r.news, x, next) && From(r.with, x, next, next + |r.news|)
  {
    hide CeilLog2, IsPowerOfTwo;
    assert x.args[0] in x.args;
  }

  lemma DivMeans(o: Oracle, x: Instr, next: nat, s: State)
    requires InRange(x, next) && ConstsOk(x) && x.op.Div? && ShiftRule(x, next).Replace? && Words(s)
    ensures var r := ShiftRule(x, next);
      var s' := Run(o, r.news, s);
      Agree(s, s', Range(next, next + |r.news|)) && Eval(s', r.with) == ValueOf(x.op, Evals(s, x.args))
  {
    hide CeilLog2, IsPowerOfTwo, Words, Run, Evals, Eval, DivWord, Agree;
    var a, b := x.args[0], x.args[1];
    assert x.args == [a, b];
    DivRuns(o, a, b.c, next, s);
    EvalTwo(s, a, b);
    EvalConst(s, b.c);
  }

  /** A product is replaced if some operand is a power of two, a quotient if the divisor is one. */
  lemma ShiftFires(x: Instr, next: nat)
    requires ConstsOk(x)
    ensures ShiftRule(x, next).Replace? <==>
              && |x.args| == 2
              && ((x.op.Mul? && exists k: nat :: Const(Pow2(k)) in x.args)
                  || (x.op.Div? && exists k: nat :: x.args[1] == Const(Pow2(k))))
  {
    hide Pow2, CeilLog2, IsPowerOfTwo, PowerConst;
    if |x.args| == 2 {
      var a, b := x.args[0], x.args[1];
      assert x.args == [a, b];
      PowerIsConst(a);
      PowerIsConst(b);
      if k: nat :| a == Const(Pow2(k)) { assert Const(Pow2(k)) in x.args; }
      if k: nat :| b == Const(Pow2(k)) { assert Const(Pow2(k)) in x.args; }
    }
  }

  lemma PowerIsConst(v: Value)
    requires v.Const? ==> -HALF < v.c < HALF
    ensures PowerConst(v) <==> exists k: nat :: v == Const(Pow2(k))
  {
    hide Pow2, CeilLog2, IsPowerOfTwo;
    if v.Const? {
      PowersFound(v.c);
      if k: nat :| v.c == Pow2(k) { assert v == Const(Pow2(k)); }
    }
  }

  /** Products and quotients by powers of two become shifts that compute the same. */
  lemma ShiftReplaces(o: Oracle, x: Instr, next: nat)
    requires InRange(x, next) && ConstsOk(x)
    ensures ShiftRule(x, next).Replace? <==>
              && |x.args| == 2
              && ((x.op.Mul? && exists k: nat :: Const(Pow2(k)) in x.args)
                  || (x.op.Div? && exists k: nat :: x.args[1] == Const(Pow2(k))))
    ensures var r := ShiftRule(x, next); r.Replace? ==> Replaces(o, x, r.news, r.with, next)
  {
    hide Replaces, CeilLog2, IsPowerOfTwo, Pow2;
    ShiftFires(x, next);
    if x.op.Mul? { MulReplaces(o, x, next); }
    if x.op.Div? { DivReplaces(o, x, next); }
  }

  lemma NothingRuns(o: Oracle, s: State, next: nat)
    ensures Run(o, [], s) == s && Agree(s, s, Range(next, next))
  {
  }

  /** Which operations are deleted, which deletions end the scan, and that deleting them changes nothing. */
  lemma UnusedReplaces(o: Oracle, x: Instr, next: nat)
    requires InRange(x, next)
    ensures UnusedRule(x).Replace? <==>
              && |x.args| == 2
              && ((x.op.Add? && ((x.args[0] == Const(0) && !x.args[1].Global?)
                                 || (x.args[1] == Const(0) && !x.args[0].Global?)))
                  || (x.op.Sub? && x.args[1] == Const(0))
                  || (x.op.Mul? && (Const(0) in x.args || Const(1) in x.args))
                  || (x.op.Div? && x.args[1] == Const(1)))
    ensures var r := UnusedRule(x);
      r.Replace? ==>
        r.news == [] && (r.stop <==> x.op.Sub? || x.op.Div?) && Replaces(o, x, [], r.with, next)
  {
    var r := UnusedRule(x);
    if r.Replace? {
      var a, b := x.args[0], x.args[1];
      assert x.args == [a, b];
      forall s {:trigger Run(o, [], s)} | Words(s)
        ensures Agree(s, Run(o, [], s), Range(next, next))
        ensures Eval(Run(o, [], s), r.with) == ValueOf(x.op, Evals(s, x.args))
      {
        NothingRuns(o, s, next);
        UnusedValue(s, x, a, b);
      }
    }
  }

  lemma UnusedValue(s: State, x: Instr, a: Value, b: Value)
    requires Words(s) && x.args == [a, b] && UnusedRule(x).Replace?
    ensures Eval(s, UnusedRule(x).with) == ValueOf(x.op, Evals(s, x.args))
  {
    hide Wrap, TruncDiv;
    EvalTwo(s, a, b);
    EvalIsWord(s, a);
    EvalIsWord(s, b);
    EvalConst(s, 0);
    EvalConst(s, 1);
    WrapWord(Eval(s, a));
    WrapWord(Eval(s, b));
    WrapWord(0);
    DivideByOne(Eval(s, a));
  }

  /** The contribution of the indices that are not constants. */
  ghost function VarSum(s: State, idxs: seq<Value>, sizes: seq<int>): int
    requires |idxs| == |sizes|
  {
    if idxs == [] then 0
    else
      var n := |idxs| - 1;
      VarSum(s, idxs[..n], sizes[..n]) + if idxs[n].Const? then 0 else Scaled(Eval(s, idxs[n]), sizes[n])
  }

  ghost predicate SizesOk(sizes: seq<int>) {
    forall i :: 0 <= i < |sizes| ==> IsWord(sizes[i])
  }

  /** Constants and the others together make the whole sum, up to multiples of 2^32. */
  lemma {:induction false} SumSplits(s: State, idxs: seq<Value>, sizes: seq<int>)
    requires |idxs| == |sizes| && forall v :: v in idxs && v.Const? ==> IsWord(v.c)
    ensures Wrap(ConstOffset(idxs, sizes) + VarSum(s, idxs, sizes)) == Wrap(IndexSum(Evals(s, idxs), sizes))
    ensures IsWord(ConstOffset(idxs, sizes))
    decreases idxs
  {
    hide Wrap, Eval, IndexSum, ConstOffset, VarSum, Scaled;
    SumParts(s, idxs, sizes);
    if idxs != [] {
      var n := |idxs| - 1;
      var i0, z0, e := idxs[..n], sizes[..n], Evals(s, idxs);
      SumSplits(s, i0, z0);
      SumStep(ConstOffset(i0, z0), VarSum(s, i0, z0), IndexSum(Evals(s, i0), z0), Scaled(e[n], sizes[n]));
    }
  }

  lemma SumParts(s: State, idxs: seq<Value>, sizes: seq<int>)
    requires |idxs| == |sizes| && forall v :: v in idxs && v.Const? ==> IsWord(v.c)
    ensures idxs == [] ==>
              ConstOffset(idxs, sizes) == 0 && VarSum(s, idxs, sizes) == 0 && IndexSum(Evals(s, idxs), sizes) == 0
    ensures idxs != [] ==>
      var n := |idxs| - 1;
      var off, t := ConstOffset(idxs[..n], sizes[..n]), Scaled(Evals(s, idxs)[n], sizes[n]);
      && IndexSum(Evals(s, idxs), sizes) == IndexSum(Evals(s, idxs[..n]), sizes[..n]) + t
      && (ConstOffset(idxs, sizes) == Wrap(off + t) || ConstOffset(idxs, sizes) == off)
      && (if idxs[n].Const? then VarSum(s, idxs, sizes) == VarSum(s, idxs[..n], sizes[..n]) &&
          (IsWord(off) ==> ConstOffset(idxs, sizes) == Wrap(off + t))
          else VarSum(s, idxs, sizes) == VarSum(s, idxs[..n], sizes[..n]) + t && ConstOffset(idxs, sizes) == off)
  {
    hide Wrap, Eval, ConstOffset, VarSum, IndexSum, Scaled;
    if idxs == [] {
      ConstNothing(s, sizes);
    } else {
      ConstPart(s, idxs, sizes);
      SumPart(s, idxs, sizes);
    }
  }

  lemma SumPart(s: State, idxs: seq<Value>, sizes: seq<int>)
    requires |idxs| == |sizes| && idxs != []
    ensures var n := |idxs| - 1;
      var t := Scaled(Evals(s, idxs)[n], sizes[n]);
      && IndexSum(Evals(s, idxs), sizes) == IndexSum(Evals(s, idxs[..n]), sizes[..n]) + t
      && VarSum(s, idxs, sizes) == VarSum(s, idxs[..n], sizes[..n]) + if idxs[n].Const? then 0 else t
  {
    hide Eval, Scaled;
    var n := |idxs| - 1;
    assert Evals(s, idxs)[..n] == Evals(s, idxs[..n]);
  }

  lemma ConstNothing(s: State, sizes: seq<int>)
    requires sizes == []
    ensures ConstOffset([], sizes) == 0 && VarSum(s, [], sizes) == 0 && IndexSum(Evals(s, []), sizes) == 0
  {
  }

  lemma ConstPart(s: State, idxs: seq<Value>, sizes: seq<int>)
    requires |idxs| == |sizes| && idxs != [] && forall v :: v in idxs && v.Const? ==> IsWord(v.c)
    ensures var n := |idxs| - 1;
      var off, t := ConstOffset(idxs[..n], sizes[..n]), Scaled(Evals(s, idxs)[n], sizes[n]);
      && (ConstOffset(idxs, sizes) == Wrap(off + t) || ConstOffset(idxs, sizes) == off)
      && (if idxs[n].Const? then IsWord(off) ==> ConstOffset(idxs, sizes) == Wrap(off + t)
          else ConstOffset(idxs, sizes) == off)
  {
    hide Wrap, Eval, Evals;
    var n := |idxs| - 1;
    var off := ConstOffset(idxs[..n], sizes[..n]);
    var v := Eval(s, idxs[n]);
    assert Evals(s, idxs)[n] == v;
    assert idxs[n] in idxs;
    if idxs[n].Const? {
      EvalConst(s, idxs[n].c);
      if idxs[n].c == 0 {
        assert Scaled(v, sizes[n]) == 0;
        if IsWord(off) { WrapWord(off); }
      }
    }
  }

  lemma SumStep(off: int, vs: int, sum: int, t: int)
    requires Wrap(off + vs) == Wrap(sum)
    ensures Wrap(Wrap(off + t) + vs) == Wrap(sum + t) && Wrap(off + (vs + t)) == Wrap(sum + t)
  {
    hide Wrap;
    WrapAdd(off + vs, t);
    WrapAdd(sum, t);
    WrapAdd(off + t, vs);
    assert (off + vs) + t == (off + t) + vs == off + (vs + t);
  }

  /** The chain adds up the variable indices on top of the constant offset. */
  lemma {:induction false} ChainRuns(o: Oracle, idxs: seq<Value>, sizes: seq<int>, off: int, next: nat, s: State)
    requires |idxs| == |sizes| && Words(s) && SizesOk(sizes) && IsWord(off)
    requires forall v :: v in idxs && v.Var? ==> v.id < next
    ensures var c := IndexChain(idxs, sizes, off, next);
      var s' := Run(o, c, s);
      && Agree(s, s', Range(next, next + |c|))
      && Eval(s', if c == [] then Const(off) else Var(next + |c| - 1)) == Wrap(off + VarSum(s, idxs, sizes))
    decreases idxs
  {
    hide Wrap, Agree, Run, Eval, VarSum, IndexChain, Words, IsWord;
    if idxs == [] {
      ChainNothing(o, s, sizes, off, next);
    } else {
      var n := |idxs| - 1;
      assert idxs[n] in idxs;
      ChainRuns(o, idxs[..n], sizes[..n], off, next, s);
      if idxs[n].Const? {
        ChainSkips(s, idxs, sizes, off, next);
      } else {
        ChainStep(o, idxs, sizes, off, next, s);
      }
    }
  }

  lemma ChainNothing(o: Oracle, s: State, sizes: seq<int>, off: int, next: nat)
    requires sizes == [] && IsWord(off)
    ensures IndexChain([], sizes, off, next) == [] && VarSum(s, [], sizes) == 0
    ensures Run(o, [], s) == s && Agree(s, s, Range(next, next)) && Eval(s, Const(off)) == Wrap(off)
  {
    NothingRuns(o, s, next);
    WrapWord(off);
  }

  lemma ChainSkips(s: State, idxs: seq<Value>, sizes: seq<int>, off: int, next: nat)
    requires |idxs| == |sizes| && idxs != [] && idxs[|idxs| - 1].Const?
    ensures var n := |idxs| - 1;
      && IndexChain(idxs, sizes, off, next) == IndexChain(idxs[..n], sizes[..n], off, next)
      && VarSum(s, idxs, sizes) == VarSum(s, idxs[..n], sizes[..n])
  {
    hide Eval, Scaled;
  }

  lemma ChainUnfolds(s: State, idxs: seq<Value>, sizes: seq<int>, off: int, next: nat)
    requires |idxs| == |sizes| && idxs != [] && !idxs[|idxs| - 1].Const?
    ensures var n := |idxs| - 1;
      var c := IndexChain(idxs[..n], sizes[..n], off, next);
      && IndexChain(idxs, sizes, off, next) ==
         c + [Instr(next + |c|, Mla, [idxs[n], Const(sizes[n]), if c == [] then Const(off) else Var(next + |c| - 1)])]
      && VarSum(s, idxs, sizes) == VarSum(s, idxs[..n], sizes[..n]) + Scaled(Eval(s, idxs[n]), sizes[n])
  {
    hide Eval, Scaled;
  }

  lemma ChainStep(o: Oracle, idxs: seq<Value>, sizes: seq<int>, off: int, next: nat, s: State)
    requires |idxs| == |sizes| && idxs != [] && Words(s) && SizesOk(sizes)
    requires var n := |idxs| - 1; !idxs[n].Const? && (idxs[n].Var? ==> idxs[n].id < next)
    requires var n := |idxs| - 1;
      var c0 := IndexChain(idxs[..n], sizes[..n], off, next);
      var s0 := Run(o, c0, s);
      && Agree(s, s0, Range(next, next + |c0|))
      && Eval(s0, if c0 == [] then Const(off) else Var(next + |c0| - 1)) == Wrap(off + VarSum(s, idxs[..n], sizes[..n]))
    ensures var c := IndexChain(idxs, sizes, off, next);
      var s' := Run(o, c, s);
      && c != [] && Agree(s, s', Range(next, next + |c|))
      && Eval(s', Var(next + |c| - 1)) == Wrap(off + VarSum(s, idxs, sizes))
  {
    hide Wrap, Run, Eval, VarSum, IndexChain;
    var n := |idxs| - 1;
    ChainUnfolds(s, idxs, sizes, off, next);
    var c0 := IndexChain(idxs[..n], sizes[..n], off, next);
    var s0 := Run(o, c0, s);
    var acc := if c0 == [] then Const(off) else Var(next + |c0| - 1);
    var m := Instr(next + |c0|, Mla, [idxs[n], Const(sizes[n]), acc]);
    RunConcat(o, c0, [m], s);
    RunOne(o, m, s0);
    EvalThree(s0, idxs[n], Const(sizes[n]), acc);
    EvalConst(s0, sizes[n]);
    EvalSame(s, s0, Range(next, next + |c0|), idxs[n]);
    var t := Scaled(Eval(s, idxs[n]), sizes[n]);
    var before := off + VarSum(s, idxs[..n], sizes[..n]);
    WrapAdd(before, t);
    EvalPut(s0, next + |c0|, Wrap(t + Wrap(before)), acc);
  }

  lemma EvalThree(s: State, a: Value, b: Value, c: Value)
    ensures Evals(s, [a, b, c]) == [Eval(s, a), Eval(s, b), Eval(s, c)]
  {
  }

  lemma EvalSame(s: State, s': State, n: set<nat>, v: Value)
    requires Agree(s, s', n) && (v.Var? ==> v.id !in n)
    ensures Eval(s', v) == Eval(s, v)
  {
  }

  /** Every address computation becomes a chain, which computes the base plus the sum of the indices times their
      sizes. */
  lemma GepReplaces(o: Oracle, x: Instr, next: nat)
    requires InRange(x, next) && ConstsOk(x) && (x.op.Gep? ==> SizesOk(x.op.sizes))
    ensures GepRule(x, next).Replace? <==> x.op.Gep? && |x.args| == 1 + |x.op.sizes|
    ensures var r := GepRule(x, next); r.Replace? ==> Replaces(o, x, r.news, r.with, next)
  {
    hide Wrap, Run, Eval, Evals, VarSum, IndexChain, ConstOffset;
    var r := GepRule(x, next);
    if r.Replace? {
      GepNewOk(x, next);
      forall s {:trigger Run(o, r.news, s)} | Words(s)
        ensures var s' := Run(o, r.news, s);
          Agree(s, s', Range(next, next + |r.news|)) && Eval(s', r.with) == ValueOf(x.op, Evals(s, x.args))
      {
        GepRuns(o, x, next, s);
      }
    }
  }

  lemma GepRuns(o: Oracle, x: Instr, next: nat, s: State)
    requires InRange(x, next) && ConstsOk(x) && x.op.Gep? && SizesOk(x.op.sizes) && GepRule(x, next).Replace?
    requires Words(s)
    ensures var r := GepRule(x, next);
      var s' := Run(o, r.news, s);
      Agree(s, s', Range(next, next + |r.news|)) && Eval(s', r.with) == ValueOf(x.op, Evals(s, x.args))
  {
    hide Wrap, Run, Eval, VarSum, IndexChain, ConstOffset, IndexSum;
    var base, idxs, sizes := x.args[0], x.args[1..], x.op.sizes;
    forall v | v in idxs ensures v in x.args { }
    var off := ConstOffset(idxs, sizes);
    SumSplits(s, idxs, sizes);
    ChainRuns(o, idxs, sizes, off, next, s);
    var c := IndexChain(idxs, sizes, off, next);
    var s0 := Run(o, c, s);
    var acc := if c == [] then Const(off) else Var(next + |c| - 1);
    var m := Instr(next + |c|, Mla, [Const(1), base, acc]);
    RunConcat(o, c, [m], s);
    RunOne(o, m, s0);
    EvalThree(s0, Const(1), base, acc);
    EvalConst(s0, 1);
    assert base in x.args;
    EvalSame(s, s0, Range(next, next + |c|), base);
    var b, sum := Eval(s, base), IndexSum(Evals(s, idxs), sizes);
    assert Evals(s, x.args)[1..] == Evals(s, idxs) && Evals(s, x.args)[0] == b;
    assert Eval(s0, acc) == Wrap(sum);
    WrapAdd(sum, b);
    EvalPut(s0, next + |c|, Wrap(b + Wrap(sum)), acc);
  }

  lemma {:induction false} ChainNewOk(x: Instr, idxs: seq<Value>, sizes: seq<int>, off: int, next: nat)
    requires |idxs| == |sizes| && forall v :: v in idxs ==> v in x.args
    ensures NewOk(IndexChain(idxs, sizes, off, next), x, next)
    decreases idxs
  {
    if idxs != [] {
      var n := |idxs| - 1;
      assert idxs[n] in idxs;
      ChainNewOk(x, idxs[..n], sizes[..n], off, next);
    }
  }

  lemma GepNewOk(x: Instr, next: nat)
    requires GepRule(x, next).Replace?
    ensures var r := GepRule(x, next); NewOk(r.news, x, next) && From(r.with, x, next, next + |r.news|)
  {
    hide IndexChain, ConstOffset;
    var idxs := x.args[1..];
    forall v | v in idxs ensures v in x.args { }
    var off := ConstOffset(idxs, x.op.sizes);
    ChainNewOk(x, idxs, x.op.sizes, off, next);
    assert x.args[0] in x.args;
  }
}
