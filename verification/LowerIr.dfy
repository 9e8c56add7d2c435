/** The lowering passes over the instruction list of a block. */
module LowerIr {
  import opened Arith
  import opened BlockIr
  import opened BlockRewrite
  import opened LowerRules
  import opened PowerOfTwo

  /** How often a number is used. */
  function ArgUses(vs: seq<Value>, d: nat): nat {
    if vs == [] then 0 else ArgUses(vs[1..], d) + if vs[0] == Var(d) then 1 else 0
  }

  function UseCount(code: seq<Instr>, d: nat): nat {
    if code == [] then 0 else UseCount(code[1..], d) + ArgUses(code[0].args, d)
  }

  lemma {:induction false} ArgUsesNone(vs: seq<Value>, d: nat)
    ensures ArgUses(vs, d) == 0 <==> Var(d) !in vs
    decreases vs
  {
    if vs != [] {
      ArgUsesNone(vs[1..], d);
      assert vs == [vs[0]] + vs[1..];
    }
  }

  lemma {:induction false} UseCountConcat(a: seq<Instr>, b: seq<Instr>, d: nat)
    ensures UseCount(a + b, d) == UseCount(a, d) + UseCount(b, d)
    decreases a
  {
    if a == [] {
      assert a + b == b;
    } else {
      assert (a + b)[1..] == a[1..] + b;
      UseCountConcat(a[1..], b, d);
    }
  }

  lemma {:induction false} UnusedIgnored(code: seq<Instr>, d: nat)
    requires UseCount(code, d) == 0
    ensures forall x :: x in code ==> Var(d) !in x.args
    decreases code
  {
    if code != [] {
      ArgUsesNone(code[0].args, d);
      UnusedIgnored(code[1..], d);
      assert code == [code[0]] + code[1..];
    }
  }

  /** Constants are words other than the smallest one, sizes of address computations are words. */
  ghost predicate OperandsOk(x: Instr) {
    (x.op.Mla? || ConstsOk(x)) && (x.op.Gep? ==> SizesOk(x.op.sizes))
  }

  ghost predicate AllOperandsOk(code: seq<Instr>) {
    forall x :: x in code ==> OperandsOk(x)
  }

  ghost predicate ValueOk(v: Value) {
    v.Const? ==> -HALF < v.c < HALF
  }

  lemma SubstOk(b: seq<Instr>, d: nat, w: Value)
    requires AllOperandsOk(b) && ValueOk(w)
    ensures AllOperandsOk(Subst(b, d, w))
  {
    SubstMembers(b, d, w);
    forall y' | y' in Subst(b, d, w) ensures OperandsOk(y') {
      var y :| y in b && y' == y.(args := SubstArgs(y.args, d, w));
      SubstArgsMembers(y.args, d, w);
      assert OperandsOk(y);
    }
  }

  /** A use of d cannot stand before its definition. */
  lemma NoUseBefore(a: seq<Instr>, x: Instr, b: seq<Instr>, w: Value, next: nat)
    requires WellFormed(a + [x] + b, next)
    ensures Subst(a, x.id, w) == a
  {
    WellFormedParts(a + [x], b, next);
    WellFormedParts(a, [x], next);
    var r := Subst(a, x.id, w);
    forall i | 0 <= i < |a| ensures r[i] == a[i] {
      assert a[i] in a && x in [x];
      assert Ordered(a[i], x);
      SubstArgsNone(a[i].args, x.id, w);
    }
  }

  lemma {:induction false} SubstArgsNone(vs: seq<Value>, d: nat, w: Value)
    requires Var(d) !in vs
    ensures SubstArgs(vs, d, w) == vs
  {
    forall i | 0 <= i < |vs| ensures SubstArgs(vs, d, w)[i] == vs[i] { assert vs[i] in vs; }
  }

  /** No instruction left uses or defines a number that has been replaced or has died. */
  ghost predicate Clean(code: seq<Instr>, gone: map<nat, Value>, dead: set<nat>) {
    forall x :: x in code ==> CleanInstr(x, gone, dead)
  }

  ghost predicate CleanInstr(x: Instr, gone: map<nat, Value>, dead: set<nat>) {
    x.id !in gone && x.id !in dead && forall v :: v in x.args && v.Var? ==> v.id !in gone && v.id !in dead
  }

  /** The numbers that other blocks use are neither replaced nor dead. */
  ghost predicate CleanOutside(outside: multiset<nat>, gone: map<nat, Value>, dead: set<nat>) {
    forall d :: d in gone || d in dead ==> outside[d] == 0
  }

  /** Moves the uses of d in other blocks to w. */
  function MoveUses(outside: multiset<nat>, d: nat, w: Value): multiset<nat> {
    var rest := outside[d := 0];
    if w.Var? then rest[w.id := rest[w.id] + outside[d]] else rest
  }

  ghost predicate Numbered(code: seq<Instr>, gone: map<nat, Value>, dead: set<nat>, next: nat) {
    && GoneBelow(gone, next) && (forall g :: g in gone ==> g < next) && (forall g :: g in dead ==> g < next)
  }

  lemma ReplaceClean(a: seq<Instr>, x: Instr, b: seq<Instr>, news: seq<Instr>, w: Value, gone: map<nat, Value>,
      dead: set<nat>, next: nat)
    requires Clean(a + [x] + b, gone, dead) && WellFormed(a + [x] + b, next) && Numbered(a + [x] + b, gone, dead, next)
    requires forall y :: y in news ==> y.id >= next && forall v :: v in y.args && v.Var? ==>
        (v.id !in gone && v.id !in dead && v.id != x.id)
    requires (w.Var? ==> w.id !in gone && w.id !in dead && w.id != x.id) && x.id < next
    ensures Clean(a + news + Subst(b, x.id, w), Redirect(gone, x.id, w), dead)
  {
    hide CleanInstr, Ordered, InRange, Redirect, Subst;
    var code, gone' := a + [x] + b, Redirect(gone, x.id, w);
    WellFormedParts(a + [x], b, next);
    WellFormedParts(a, [x], next);
    assert x in [x] && x in a + [x] && x in code;
    SubstMembers(b, x.id, w);
    forall y' | y' in a + news + Subst(b, x.id, w) ensures CleanInstr(y', gone', dead) {
      if y' in a {
        assert y' in code && CleanInstr(y', gone, dead) && Ordered(y', x);
        StaysClean(y', x, w, gone, dead);
      } else if y' in news {
        NewClean(y', x.id, w, gone, dead, next);
      } else {
        var y :| y in b && y' == y.(args := SubstArgs(y.args, x.id, w));
        assert y in code && CleanInstr(y, gone, dead) && Ordered(x, y);
        SubstClean(x, y, w, gone, dead);
      }
    }
  }

  lemma StaysClean(y: Instr, x: Instr, w: Value, gone: map<nat, Value>, dead: set<nat>)
    requires CleanInstr(y, gone, dead) && Ordered(y, x)
    ensures CleanInstr(y, Redirect(gone, x.id, w), dead)
  {
  }

  lemma NewClean(y: Instr, d: nat, w: Value, gone: map<nat, Value>, dead: set<nat>, next: nat)
    requires y.id >= next && d < next && (forall g :: g in gone ==> g < next) && (forall g :: g in dead ==> g < next)
    requires forall v :: v in y.args && v.Var? ==> v.id !in gone && v.id !in dead && v.id != d
    ensures CleanInstr(y, Redirect(gone, d, w), dead)
  {
  }

  lemma SubstClean(x: Instr, y: Instr, w: Value, gone: map<nat, Value>, dead: set<nat>)
    requires CleanInstr(y, gone, dead) && Ordered(x, y) && (w.Var? ==> w.id !in gone && w.id !in dead && w.id != x.id)
    ensures CleanInstr(y.(args := SubstArgs(y.args, x.id, w)), Redirect(gone, x.id, w), dead)
  {
    SubstArgsMembers(y.args, x.id, w);
  }

  lemma MoveClean(outside: multiset<nat>, gone: map<nat, Value>, dead: set<nat>, d: nat, w: Value)
    requires CleanOutside(outside, gone, dead) && (w.Var? ==> w.id !in gone && w.id !in dead && w.id != d)
    ensures CleanOutside(MoveUses(outside, d, w), Redirect(gone, d, w), dead)
  {
  }

  lemma DeleteClean(a: seq<Instr>, x: Instr, b: seq<Instr>, gone: map<nat, Value>, dead: set<nat>,
      outside: multiset<nat>, next: nat)
    requires Clean(a + [x] + b, gone, dead) && WellFormed(a + [x] + b, next) && CleanOutside(outside, gone, dead)
    requires outside[x.id] == 0 && Ignores(a + b, {x.id})
    ensures Clean(a + b, gone, dead + DyingWith(gone, x.id))
    ensures CleanOutside(outside, gone, dead + DyingWith(gone, x.id))
  {
    var code := a + [x] + b;
    forall y | y in a + b ensures CleanInstr(y, gone, dead + DyingWith(gone, x.id)) {
      assert y in code && CleanInstr(y, gone, dead);
    }
  }

  /** Everything but x ignores x if nothing else uses it. */
  lemma IgnoredElsewhere(a: seq<Instr>, x: Instr, b: seq<Instr>, next: nat)
    requires WellFormed(a + [x] + b, next) && UseCount(a + [x] + b, x.id) == 0
    ensures Ignores(b, {x.id}) && Ignores(a + b, {x.id})
  {
    UnusedIgnored(a + [x] + b, x.id);
    WellFormedParts(a + [x], b, next);
    WellFormedParts(a, [x], next);
    assert x in [x] && x in a + [x];
    forall y | y in a + b ensures y.id != x.id && Var(x.id) !in y.args {
      assert y in a + [x] + b;
      if y in a { assert Ordered(y, x); } else { assert Ordered(x, y); }
    }
    forall y | y in b ensures y in a + b { }
  }

  /** What every pass keeps: insts, with the replaced and dead numbers, still does what code0 did. */
  ghost predicate Lowering(o: Oracle, code0: seq<Instr>, first: nat, insts: seq<Instr>, next: nat,
      outside: multiset<nat>, gone: map<nat, Value>, dead: set<nat>) {
    var holds :=
      && WellFormed(insts, next) && first <= next && Preserved(o, code0, insts, gone, dead, first) &&
          AllOperandsOk(insts)
      && Clean(insts, gone, dead) && CleanOutside(outside, gone, dead) && Numbered(insts, gone, dead, next);
    holds
  }

  /** A number that other blocks used lives on, and they still use it or what it lives on in. */
  ghost predicate OutsideKept(used: multiset<nat>, outside: multiset<nat>, gone: map<nat, Value>, dead: set<nat>,
      first: nat) {
    forall d: nat :: d < first && used[d] > 0 ==> d !in dead && UsedStill(outside, gone, d)
  }

  ghost predicate UsedStill(outside: multiset<nat>, gone: map<nat, Value>, d: nat) {
    if d in gone then gone[d].Var? ==> outside[gone[d].id] > 0 else outside[d] > 0
  }

  lemma MoveKeepsOutside(used: multiset<nat>, outside: multiset<nat>, gone: map<nat, Value>, dead: set<nat>, first: nat,
      d: nat, w: Value)
    requires OutsideKept(used, outside, gone, dead, first) && d !in gone
    ensures OutsideKept(used, MoveUses(outside, d, w), Redirect(gone, d, w), dead, first)
  {
    forall q: nat | q < first && used[q] > 0 ensures UsedStill(MoveUses(outside, d, w), Redirect(gone, d, w), q) {
      assert UsedStill(outside, gone, q);
    }
  }

  lemma DeleteKeepsOutside(used: multiset<nat>, outside: multiset<nat>, gone: map<nat, Value>, dead: set<nat>,
      first: nat, d: nat)
    requires OutsideKept(used, outside, gone, dead, first) && d !in gone && outside[d] == 0
    ensures OutsideKept(used, outside, gone, dead + DyingWith(gone, d), first)
  {
    forall q: nat | q < first && used[q] > 0 ensures q !in dead + DyingWith(gone, d) {
      assert UsedStill(outside, gone, q);
    }
  }

  lemma NotGone(o: Oracle, code0: seq<Instr>, first: nat, insts: seq<Instr>, next: nat, outside: multiset<nat>,
      gone: map<nat, Value>, dead: set<nat>)
    requires Lowering(o, code0, first, insts, next, outside, gone, dead)
    ensures WellFormed(insts, next) && forall x :: x in insts ==> x.id !in gone
  {
    hide Preserved, WellFormed, CleanOutside, AllOperandsOk;
    forall x | x in insts ensures x.id !in gone { assert CleanInstr(x, gone, dead); }
  }

  lemma LoweringBegins(o: Oracle, code0: seq<Instr>, first: nat, outside: multiset<nat>)
    requires WellFormed(code0, first) && AllOperandsOk(code0)
    ensures Lowering(o, code0, first, code0, first, outside, map[], {})
    ensures OutsideKept(outside, outside, map[], {}, first)
  {
    hide WellFormed, AllOperandsOk;
  }

  /** The new instructions use nothing that is gone. */
  ghost predicate NewsClean(x: Instr, news: seq<Instr>, w: Value, gone: map<nat, Value>, dead: set<nat>, next: nat) {
    && (forall y :: y in news ==>
                      && y.id >= next
                      && forall v :: v in y.args && v.Var? ==> v.id !in gone && v.id !in dead && v.id != x.id)
    && (w.Var? ==> w.id !in gone && w.id !in dead && w.id != x.id)
  }

  lemma ReplaceKeeps(o: Oracle, code0: seq<Instr>, first: nat, a: seq<Instr>, x: Instr, b: seq<Instr>, news: seq<Instr>,
      w: Value, next: nat, outside: multiset<nat>, gone: map<nat, Value>, dead: set<nat>)
    requires Lowering(o, code0, first, a + [x] + b, next, outside, gone, dead)
    requires Fitting(a, x, b, news, w, next) && MeansAfter(o, a, x, news, w, next) && !x.op.Effect?
    requires NewsClean(x, news, w, gone, dead, next) && AllOperandsOk(news) && ValueOk(w)
    ensures Lowering(o, code0, first, a + news + Subst(b, x.id, w), next + |news|, MoveUses(outside, x.id, w),
        Redirect(gone, x.id, w), dead)
  {
    hide Preserved, WellFormed, MeansAfter, Ordered, OperandsOk;
    var code := a + [x] + b;
    assert x in [x] && x in a + [x] && x in code;
    assert CleanInstr(x, gone, dead);
    InRangeOf(code, x, next);
    PreservedStep(o, code0, a, x, b, news, w, gone, dead, first, next);
    ReplaceWellFormed(a, x, b, news, w, next);
    ReplaceClean(a, x, b, news, w, gone, dead, next);
    MoveClean(outside, gone, dead, x.id, w);
    forall y | y in b || y in a ensures y in code { }
    SubstOk(b, x.id, w);
  }

  lemma InRangeOf(code: seq<Instr>, x: Instr, next: nat)
    requires WellFormed(code, next) && x in code
    ensures InRange(x, next)
  {
  }

  /** A rule's replacement keeps the invariant. */
  lemma RuleKeeps(o: Oracle, code0: seq<Instr>, first: nat, a: seq<Instr>, x: Instr, b: seq<Instr>, news: seq<Instr>,
      w: Value, next: nat, outside: multiset<nat>, gone: map<nat, Value>, dead: set<nat>)
    requires Lowering(o, code0, first, a + [x] + b, next, outside, gone, dead)
    requires Replaces(o, x, news, w, next) && AllOperandsOk(news) && ValueOk(w)
    ensures Lowering(o, code0, first, a + news + Subst(b, x.id, w), next + |news|, MoveUses(outside, x.id, w),
        Redirect(gone, x.id, w), dead)
  {
    hide Preserved, WellFormed, Means, MeansAfter, AllOperandsOk;
    var code := a + [x] + b;
    assert x in [x] && x in a + [x] && x in code;
    assert CleanInstr(x, gone, dead);
    InRangeOf(code, x, next);
    RuleFits(o, a, x, b, news, w, next);
    MeansAnywhere(o, a, x, news, w, next);
    NewsWellFormed(x, news, next);
    ReplaceKeeps(o, code0, first, a, x, b, news, w, next, outside, gone, dead);
  }

  lemma DeleteKeeps(o: Oracle, code0: seq<Instr>, first: nat, a: seq<Instr>, x: Instr, b: seq<Instr>,
                    next: nat, outside: multiset<nat>, gone: map<nat, Value>, dead: set<nat>)
    requires Lowering(o, code0, first, a + [x] + b, next, outside, gone, dead)
    requires !x.op.Effect? && UseCount(a + [x] + b, x.id) == 0 && outside[x.id] == 0
    ensures Lowering(o, code0, first, a + b, next, outside, gone, dead + DyingWith(gone, x.id))
  {
    hide Preserved, WellFormed, Ordered, OperandsOk, CleanInstr, UseCount;
    var code := a + [x] + b;
    assert x in [x] && x in a + [x] && x in code;
    InRangeOf(code, x, next);
    IgnoredElsewhere(a, x, b, next);
    DeletePreserves(o, code0, a, x, b, gone, dead, first);
    DeleteWellFormed(a, x, b, next);
    DeleteClean(a, x, b, gone, dead, outside, next);
    forall y | y in a + b ensures y in code { }
  }

  lemma Split(code: seq<Instr>, i: nat)
    requires i < |code|
    ensures code == code[..i] + [code[i]] + code[i + 1..]
  {
  }

  lemma LoweringAt(o: Oracle, code0: seq<Instr>, first: nat, insts: seq<Instr>, next: nat, outside: multiset<nat>,
      gone: map<nat, Value>, dead: set<nat>, i: nat)
    requires Lowering(o, code0, first, insts, next, outside, gone, dead) && i < |insts|
    ensures InRange(insts[i], next) && OperandsOk(insts[i]) && first <= next && WellFormed(insts, next)
  {
    hide Preserved, Clean, CleanOutside, InRange, OperandsOk;
  }

  predicate IsAddMul(x: Instr) {
    x.op.Add? || x.op.Mul?
  }

  /** Deleting an instruction adds no use and no member. */
  lemma DeletedUses(code: seq<Instr>, i: nat)
    requires i < |code|
    ensures forall d :: UseCount(code[..i] + code[i + 1..], d) <= UseCount(code, d)
    ensures forall x :: x in code[..i] + code[i + 1..] ==> x in code
    ensures forall x :: x in code && x != code[i] ==> x in code[..i] + code[i + 1..]
  {
    hide UseCount;
    Split(code, i);
    forall d ensures UseCount(code[..i] + code[i + 1..], d) <= UseCount(code, d) {
      UseCountConcat(code[..i] + [code[i]], code[i + 1..], d);
      UseCountConcat(code[..i], [code[i]], d);
      UseCountConcat(code[..i], code[i + 1..], d);
    }
  }

  /** Every instruction of code has the number and operation of one of code0. */
  ghost predicate SameOps(code0: seq<Instr>, code: seq<Instr>) {
    forall y :: y in code ==> HasOp(code0, y)
  }

  ghost predicate HasOp(code0: seq<Instr>, y: Instr) {
    exists z :: z in code0 && z.id == y.id && z.op == y.op
  }

  lemma SameOpsRefl(code: seq<Instr>)
    ensures SameOps(code, code)
  {
    forall y | y in code ensures HasOp(code, y) { assert y in code && y.id == y.id; }
  }

  lemma SameOpAt(code0: seq<Instr>, code: seq<Instr>, i: nat)
    requires SameOps(code0, code) && i < |code|
    ensures HasOp(code0, code[i])
  {
    assert HasOp(code0, code[i]);
  }

  /** A subtraction or division of code has been replaced. */
  ghost predicate StopGone(code: seq<Instr>, gone: map<nat, Value>) {
    exists z :: z in code && (z.op.Sub? || z.op.Div?) && z.id in gone
  }

  /** Replacing x replaces the first subtraction or division exactly when it is one. */
  lemma StopStep(code0: seq<Instr>, next: nat, x: Instr, gone: map<nat, Value>, w: Value)
    requires WellFormed(code0, next) && HasOp(code0, x) && !StopGone(code0, gone)
    ensures StopGone(code0, Redirect(gone, x.id, w)) <==> x.op.Sub? || x.op.Div?
  {
    hide WellFormed;
    var x0 :| x0 in code0 && x0.id == x.id && x0.op == x.op;
    var i :| 0 <= i < |code0| && code0[i] == x0;
    forall z | z in code0 && z.id == x.id ensures z.op == x.op {
      var j :| 0 <= j < |code0| && code0[j] == z;
      OneDefinition(code0, next, i, j);
    }
    assert x0.id in Redirect(gone, x.id, w);
  }

  lemma NoStopYet(code: seq<Instr>, next: nat, gone: map<nat, Value>)
    requires WellFormed(code, next) && forall x :: x in code ==> x.id !in gone
    ensures !StopGone(code, gone)
  {
  }

  lemma StopRule(x: Instr)
    ensures var r := UnusedRule(x); r.Replace? ==> (r.stop <==> x.op.Sub? || x.op.Div?)
  {
  }

  lemma SameOpsReplace(code0: seq<Instr>, code: seq<Instr>, i: nat, w: Value)
    requires SameOps(code0, code) && i < |code|
    ensures SameOps(code0, code[..i] + [] + Subst(code[i + 1..], code[i].id, w))
  {
    SubstMembers(code[i + 1..], code[i].id, w);
    forall y | y in code[..i] + [] + Subst(code[i + 1..], code[i].id, w) ensures HasOp(code0, y) {
      if y in code[..i] {
        assert y in code;
      } else {
        var z :| z in code[i + 1..] && y == z.(args := SubstArgs(z.args, code[i].id, w));
        assert z in code && HasOp(code0, z);
      }
    }
  }

  /** What the passes remove: address computations, remainders, products with zero and subtractions of it, products and
      quotients by powers of two. */
  datatype Removed = Geps | Rems | Zeros | Powers

  ghost predicate FreeOf(r: Removed, x: Instr) {
    match r
    case Geps => x.op.Gep? ==> |x.args| != 1 + |x.op.sizes|
    case Rems => x.op.Rem? ==> |x.args| != 2
    case Zeros => |x.args| == 2 ==> (x.op.Mul? ==> Const(0) !in x.args) && (x.op.Sub? ==> x.args[1] != Const(0))
    case Powers =>
      |x.args| == 2 ==> forall k: nat ::
        (x.op.Mul? ==> Const(Pow2(k)) !in x.args) && (x.op.Div? ==> x.args[1] != Const(Pow2(k)))
  }

  ghost predicate NoneLeft(r: Removed, code: seq<Instr>) {
    forall x :: x in code ==> FreeOf(r, x)
  }

  lemma SubstLeaves(r: Removed, y: Instr, d: nat, w: Value)
    requires FreeOf(r, y) && (w.Var? || r.Geps? || r.Rems?)
    ensures FreeOf(r, y.(args := SubstArgs(y.args, d, w)))
  {
    hide Pow2;
    SubstArgsMembers(y.args, d, w);
  }

  /** A replacement brings back nothing that the new instructions do not contain. */
  lemma ReplaceLeaves(r: Removed, code: seq<Instr>, i: nat, news: seq<Instr>, w: Value)
    requires i < |code| && NoneLeft(r, code) && NoneLeft(r, news) && (w.Var? || r.Geps? || r.Rems?)
    ensures NoneLeft(r, code[..i] + news + Subst(code[i + 1..], code[i].id, w))
  {
    hide FreeOf, Subst;
    var b, d := code[i + 1..], code[i].id;
    SubstMembers(b, d, w);
    forall x | x in code[..i] + news + Subst(b, d, w) ensures FreeOf(r, x) {
      if x in code[..i] {
        assert x in code;
      } else if x in Subst(b, d, w) {
        var y :| y in b && x == y.(args := SubstArgs(y.args, d, w));
        assert y in code;
        SubstLeaves(r, y, d, w);
      }
    }
  }

  /** Of these kinds the new list contains nothing that the old one did not. */
  ghost predicate LeavesNone(kinds: set<Removed>, was: seq<Instr>, code: seq<Instr>) {
    forall r :: r in kinds && NoneLeft(r, was) ==> NoneLeft(r, code)
  }

  lemma LeavesSelf(kinds: set<Removed>, code: seq<Instr>)
    ensures LeavesNone(kinds, code, code)
  {
  }

  lemma StepLeaves(kinds: set<Removed>, was: seq<Instr>, code: seq<Instr>, i: nat, news: seq<Instr>, w: Value)
    requires i < |code| && LeavesNone(kinds, was, code) && (forall r :: r in kinds ==> NoneLeft(r, news))
    requires w.Var? || kinds <= {Geps, Rems}
    ensures LeavesNone(kinds, was, code[..i] + news + Subst(code[i + 1..], code[i].id, w))
  {
    hide NoneLeft;
    forall r | r in kinds && NoneLeft(r, was)
      ensures NoneLeft(r, code[..i] + news + Subst(code[i + 1..], code[i].id, w))
    {
      ReplaceLeaves(r, code, i, news, w);
    }
  }

  /** The written-out forms. */
  lemma NoneAre(r: Removed, code: seq<Instr>)
    ensures match r
      case Geps => (forall x :: x in code && x.op.Gep? ==> |x.args| != 1 + |x.op.sizes|) ==> NoneLeft(r, code)
      case Rems => (forall x :: x in code && x.op.Rem? ==> |x.args| != 2) ==> NoneLeft(r, code)
      case Zeros =>
        (forall x :: x in code && |x.args| == 2 ==>
          (x.op.Mul? ==> Const(0) !in x.args) && (x.op.Sub? ==> x.args[1] != Const(0))) ==> NoneLeft(r, code)
      case Powers =>
        (forall x, k: nat :: x in code && |x.args| == 2 ==>
          (x.op.Mul? ==> Const(Pow2(k)) !in x.args) && (x.op.Div? ==> x.args[1] != Const(Pow2(k)))) ==>
                NoneLeft(r, code)
  {
    hide Pow2;
  }

  lemma StillNone(split0: seq<Instr>, split: seq<Instr>, plain: seq<Instr>, shifted: seq<Instr>, fused: seq<Instr>,
      stopped: bool)
    requires NoneLeft(Geps, split0) && LeavesNone({Geps}, split0, split) && NoneLeft(Rems, split)
    requires LeavesNone({Geps, Rems}, split, plain) && (!stopped ==> NoneLeft(Zeros, plain))
    requires LeavesNone({Geps, Rems, Zeros}, plain, shifted) && NoneLeft(Powers, shifted)
    requires LeavesNone({Geps, Rems, Zeros, Powers}, shifted, fused)
    ensures NoneLeft(Geps, fused) && NoneLeft(Rems, fused) && NoneLeft(Powers, fused)
    ensures !stopped ==> NoneLeft(Zeros, fused)
  {
    hide NoneLeft;
  }

  lemma FewerStillNone(fused: seq<Instr>, code: seq<Instr>, stopped: bool)
    requires NoneLeft(Geps, fused) && NoneLeft(Rems, fused) && NoneLeft(Powers, fused)
    requires (!stopped ==> NoneLeft(Zeros, fused)) && forall x :: x in code ==> x in fused
    ensures forall x :: x in code ==> (x.op.Gep? ==> |x.args| != 1 + |x.op.sizes|) && (x.op.Rem? ==> |x.args| != 2)
    ensures forall x, k: nat :: x in code && |x.args| == 2 ==>
      && (x.op.Mul? ==> Const(Pow2(k)) !in x.args) && (x.op.Div? ==> x.args[1] != Const(Pow2(k)))
    ensures !stopped ==> forall x :: x in code && |x.args| == 2 ==>
      && (x.op.Mul? ==> Const(0) !in x.args) && (x.op.Sub? ==> x.args[1] != Const(0))
  {
    hide Pow2, FreeOf;
    forall x | x in code
      ensures FreeOf(Geps, x) && FreeOf(Rems, x) && FreeOf(Powers, x) && (!stopped ==> FreeOf(Zeros, x))
    {
    }
    FreeMeans(code, stopped);
  }

  lemma FreeMeans(code: seq<Instr>, stopped: bool)
    requires forall x :: x in code ==>
      FreeOf(Geps, x) && FreeOf(Rems, x) && FreeOf(Powers, x) && (!stopped ==> FreeOf(Zeros, x))
    ensures forall x :: x in code ==> (x.op.Gep? ==> |x.args| != 1 + |x.op.sizes|) && (x.op.Rem? ==> |x.args| != 2)
    ensures forall x, k: nat :: x in code && |x.args| == 2 ==>
      && (x.op.Mul? ==> Const(Pow2(k)) !in x.args) && (x.op.Div? ==> x.args[1] != Const(Pow2(k)))
    ensures !stopped ==> forall x :: x in code && |x.args| == 2 ==>
      && (x.op.Mul? ==> Const(0) !in x.args) && (x.op.Sub? ==> x.args[1] != Const(0))
  {
    hide Pow2;
  }

  lemma LoweringGives(o: Oracle, code0: seq<Instr>, first: nat, insts: seq<Instr>, next: nat, outside: multiset<nat>,
      gone: map<nat, Value>, dead: set<nat>)
    requires Lowering(o, code0, first, insts, next, outside, gone, dead)
    ensures Preserved(o, code0, insts, gone, dead, first) && WellFormed(insts, next)
    ensures Clean(insts, gone, dead) && CleanOutside(outside, gone, dead)
  {
    hide Preserved, WellFormed, Clean, CleanOutside, AllOperandsOk, Numbered;
  }

  lemma FuseLeaves(was: seq<Instr>, code: seq<Instr>, i: nat, j: nat, other: Value, next: nat)
    requires LeavesNone({Geps, Rems, Zeros, Powers}, was, code)
    ensures LeavesNone({Geps, Rems, Zeros, Powers}, was, Fused(code, i, j, other, next))
  {
    hide NoneLeft, Fused;
    forall r | NoneLeft(r, was) ensures NoneLeft(r, Fused(code, i, j, other, next)) {
      match r { case Geps => case Rems => case Zeros => case Powers => }
      FusedLeaves(r, code, i, j, other, next);
    }
  }

  lemma FusedLeaves(r: Removed, code: seq<Instr>, i: nat, j: nat, other: Value, next: nat)
    requires NoneLeft(r, code)
    ensures NoneLeft(r, Fused(code, i, j, other, next))
  {
    hide Pow2, Subst;
    if j < i < |code| && |code[j].args| == 2 {
      ReplaceLeaves(r, code, i, [Instr(next, Mla, [code[j].args[0], code[j].args[1], other])], Var(next));
    }
  }

  /** The list after addition i and product j of it have become one instruction. */
  function Fused(code: seq<Instr>, i: nat, j: nat, other: Value, next: nat): seq<Instr> {
    if j < i < |code| && |code[j].args| == 2 then
      var y := Instr(next, Mla, [code[j].args[0], code[j].args[1], other]);
      var c := code[..i] + [y] + Subst(code[i + 1..], code[i].id, Var(next));
      c[..j] + c[j + 1..]
    else code
  }

  /** x adds no product that has no other use. */
  ghost predicate NoFuse(code: seq<Instr>, outside: multiset<nat>, x: Instr) {
    forall m, other :: m in code && Fusable(m, x, other) ==> UseCount(code, m.id) + outside[m.id] != 1
  }

  lemma FusableIs(m: Instr, x: Instr, other: Value)
    requires IsProduct(m) && x.op.Add? && |x.args| == 2
    requires (x.args[0] == Var(m.id) && other == x.args[1]) || (x.args[1] == Var(m.id) && other == x.args[0])
    ensures Fusable(m, x, other)
  {
    assert x.args == [x.args[0], x.args[1]];
  }

  lemma NothingFusable(code: seq<Instr>, outside: multiset<nat>)
    requires forall x :: x in code ==> NoFuse(code, outside, x)
    ensures forall x, m :: x in code && m in code && x.op.Add? && |x.args| == 2 && m.op.Mul? && |m.args| == 2 ==>
        Var(m.id) in x.args ==> UseCount(code, m.id) + outside[m.id] != 1
  {
    hide UseCount;
    forall x, m | x in code && m in code && x.op.Add? && |x.args| == 2 && Var(m.id) in x.args && m.op.Mul? &&
                  |m.args| == 2
      ensures UseCount(code, m.id) + outside[m.id] != 1
    {
      var other := if x.args[0] == Var(m.id) then x.args[1] else x.args[0];
      FusableIs(m, x, other);
    }
  }

  lemma OneDefinition(code: seq<Instr>, next: nat, i: nat, j: nat)
    requires WellFormed(code, next) && i < |code| && j < |code| && code[i].id == code[j].id
    ensures i == j
  {
    assert i < j ==> Ordered(code[i], code[j]);
    assert j < i ==> Ordered(code[j], code[i]);
  }

  /** The products found for the operands of x, if any, are the only ones that it adds. */
  lemma NothingToFuse(code: seq<Instr>, next: nat, outside: multiset<nat>, i: nat, j: nat, l: nat)
    requires WellFormed(code, next) && i < |code| && j <= |code| && l <= |code|
    requires var x := code[i]; x.op.Add? && |x.args| == 2 ==> Looked(code, x.args[0], j) && Looked(code, x.args[1], l)
    requires forall k :: k in [j, l] && 0 <= k < |code| && IsProduct(code[k]) && code[i].op.Add? &&
                         |code[i].args| == 2 ==>
                           UseCount(code, code[k].id) + outside[code[k].id] != 1
    ensures NoFuse(code, outside, code[i])
  {
    hide UseCount, WellFormed;
    var x := code[i];
    forall m, other | m in code && Fusable(m, x, other) ensures UseCount(code, m.id) + outside[m.id] != 1 {
      var k :| 0 <= k < |code| && code[k] == m;
      assert j in [j, l] && l in [j, l];
      if x.args[0] == Var(m.id) {
        OneDefinition(code, next, k, j);
      } else {
        OneDefinition(code, next, k, l);
      }
    }
  }

  lemma {:induction false} SubstArgUses(vs: seq<Value>, d0: nat, next: nat, d: nat)
    requires d != d0 && d != next
    ensures ArgUses(SubstArgs(vs, d0, Var(next)), d) == ArgUses(vs, d)
  {
    if vs != [] {
      SubstArgUses(vs[1..], d0, next, d);
      var r := SubstArgs(vs, d0, Var(next));
      assert r[1..] == SubstArgs(vs[1..], d0, Var(next));
    }
  }

  lemma {:induction false} SubstUses(b: seq<Instr>, d0: nat, next: nat, d: nat)
    requires d != d0 && d != next
    ensures UseCount(Subst(b, d0, Var(next)), d) == UseCount(b, d)
  {
    if b != [] {
      SubstUses(b[1..], d0, next, d);
      SubstArgUses(b[0].args, d0, next, d);
      var r := Subst(b, d0, Var(next));
      assert r[1..] == Subst(b[1..], d0, Var(next));
    }
  }

  lemma OneUses(x: Instr, d: nat)
    ensures UseCount([x], d) == ArgUses(x.args, d)
  {
    assert [x][1..] == [];
    assert UseCount([], d) == 0;
  }

  lemma MlaUses(m: Instr, x: Instr, other: Value, next: nat, d: nat)
    requires Fusable(m, x, other) && d != m.id
    ensures UseCount([Instr(next, Mla, [m.args[0], m.args[1], other])], d) == UseCount([m], d) + UseCount([x], d)
  {
    hide ArgUses;
    var y := Instr(next, Mla, [m.args[0], m.args[1], other]);
    OneUses(m, d);
    OneUses(x, d);
    OneUses(y, d);
    assert m.args == [m.args[0], m.args[1]];
    ArgUsesTwo(m.args[0], m.args[1], d);
    ArgUsesTwo(x.args[0], x.args[1], d);
    ArgUsesThree(m.args[0], m.args[1], other, d);
  }

  lemma ArgUsesThree(a: Value, b: Value, c: Value, d: nat)
    ensures ArgUses([a, b, c], d) ==
              (if a == Var(d) then 1 else 0) + (if b == Var(d) then 1 else 0) + (if c == Var(d) then 1 else 0)
  {
    assert [a, b, c][1..] == [b, c];
    ArgUsesTwo(b, c, d);
  }

  /** Fusing moves the uses of the product's and the addition's operands and changes no other count. */
  lemma FusedUses(code: seq<Instr>, i: nat, j: nat, other: Value, next: nat, d: nat)
    requires j < i < |code| && Fusable(code[j], code[i], other) && d != code[j].id && d != code[i].id && d != next
    ensures UseCount(Fused(code, i, j, other, next), d) == UseCount(code, d)
  {
    hide UseCount, Subst, Fusable;
    FusableArgs(code[j], code[i], other);
    var a, x, b := code[..i], code[i], code[i + 1..];
    var m := code[j];
    var y := Instr(next, Mla, [m.args[0], m.args[1], other]);
    var c := a + [y] + Subst(b, x.id, Var(next));
    var a1, a2 := a[..j], a[j + 1..];
    Split(code, i);
    Split(a, j);
    SplitUses(a, x, b, d);
    SplitUses(a1, m, a2, d);
    MlaUses(m, x, other, next, d);
    SubstUses(b, x.id, next, d);
    assert c[..j] == a1 && c[j + 1..] == a2 + [y] + Subst(b, x.id, Var(next));
    UseCountConcat(a1, a2 + [y] + Subst(b, x.id, Var(next)), d);
    SplitUses(a2, y, Subst(b, x.id, Var(next)), d);
  }

  lemma SplitUses(a: seq<Instr>, x: Instr, b: seq<Instr>, d: nat)
    ensures UseCount(a + [x] + b, d) == UseCount(a, d) + UseCount([x], d) + UseCount(b, d)
  {
    UseCountConcat(a + [x], b, d);
    UseCountConcat(a, [x], d);
  }

  lemma FusableArgs(m: Instr, x: Instr, other: Value)
    requires Fusable(m, x, other)
    ensures |m.args| == 2 && m.op.Mul? && x.op.Add?
  {
  }

  lemma FusedFront(code: seq<Instr>, i: nat, j: nat, other: Value, next: nat, k: nat)
    requires j < i < |code| && Fusable(code[j], code[i], other) && k < i
    ensures var c := Fused(code, i, j, other, next);
            && k < |c| && i <= |c|
            && if k < j then c[k] == code[k] else if k < i - 1 then c[k] == code[k + 1] else c[k].op.Mla?
  {
    hide Subst;
  }

  lemma FusedBack(code: seq<Instr>, i: nat, j: nat, other: Value, next: nat, k: nat)
    requires j < i < |code| && Fusable(code[j], code[i], other) && i <= k < |code| - 1
    ensures var c := Fused(code, i, j, other, next);
      k < |c| == |code| - 1 && c[k].id == code[k + 1].id && c[k].op == code[k + 1].op &&
          |c[k].args| == |code[k + 1].args|
  {
    hide Subst, Fused, Fusable;
    var b := code[i + 1..];
    var s := Subst(b, code[i].id, Var(next));
    SubstAt(b, code[i].id, Var(next), k - i);
    var y := FusedIs(code, i, j, other, next);
    WithoutOne(code[..i], y, s, j, k);
  }

  lemma FusedIs(code: seq<Instr>, i: nat, j: nat, other: Value, next: nat) returns (y: Instr)
    requires j < i < |code| && Fusable(code[j], code[i], other)
    ensures var c := code[..i] + [y] + Subst(code[i + 1..], code[i].id, Var(next));
            |c| > j && Fused(code, i, j, other, next) == c[..j] + c[j + 1..]
  {
    hide Subst;
    y := Instr(next, Mla, [code[j].args[0], code[j].args[1], other]);
  }

  lemma WithoutOne<T>(a: seq<T>, y: T, s: seq<T>, j: nat, k: nat)
    requires j < |a| <= k < |a| + |s|
    ensures var c := a + [y] + s; |c[..j] + c[j + 1..]| == |a| + |s| && (c[..j] + c[j + 1..])[k] == s[k - |a|]
  {
    var c := a + [y] + s;
    assert (c[..j] + c[j + 1..])[k] == c[k + 1];
  }

  /** The products of the fused list are other products of the old one, those behind with their uses redirected. */
  lemma FusedMember(code: seq<Instr>, i: nat, j: nat, other: Value, next: nat, z: Instr)
    requires WellFormed(code, next) && j < i < |code| && Fusable(code[j], code[i], other) &&
        z in Fused(code, i, j, other, next) && z.op.Mul?
    ensures exists z0 :: z0 in code && z0.id == z.id && z0.op == z.op && |z0.args| == |z.args|
    ensures z.id != code[j].id && z.id != code[i].id && z.id != next
  {
    hide Fused, WellFormed, Fusable;
    var c := Fused(code, i, j, other, next);
    var k :| 0 <= k < |c| && c[k] == z;
    FusedLength(code, i, j, other, next);
    var l := if k < j then k else k + 1;
    if k < i {
      FusedFront(code, i, j, other, next, k);
    } else {
      FusedBack(code, i, j, other, next, k);
    }
    assert l != i && l != j;
    OtherId(code, next, l, j);
    OtherId(code, next, l, i);
  }

  lemma FusedLength(code: seq<Instr>, i: nat, j: nat, other: Value, next: nat)
    requires j < i < |code| && Fusable(code[j], code[i], other)
    ensures |Fused(code, i, j, other, next)| == |code| - 1
  {
  }

  lemma OtherId(code: seq<Instr>, next: nat, k: nat, l: nat)
    requires WellFormed(code, next) && k < |code| && l < |code| && k != l
    ensures code[k].id != code[l].id && code[k].id != next && code[k] in code
  {
    assert InRange(code[k], next);
    if code[k].id == code[l].id { OneDefinition(code, next, k, l); }
  }

  lemma SubstAt(b: seq<Instr>, d: nat, w: Value, k: nat)
    requires k < |b|
    ensures |Subst(b, d, w)| == |b| && Subst(b, d, w)[k] == b[k].(args := SubstArgs(b[k].args, d, w))
  {
  }

  /** What could not be fused before cannot be fused after another fusion either. */
  lemma FuseKeepsRest(code: seq<Instr>, i: nat, j: nat, other: Value, next: nat, outside: multiset<nat>)
    requires WellFormed(code, next) && j < i < |code| && Fusable(code[j], code[i], other)
    requires forall k :: 0 <= k < i ==> NoFuse(code, outside, code[k])
    ensures var c := Fused(code, i, j, other, next); i <= |c| && forall k :: 0 <= k < i ==>
        NoFuse(c, MoveUses(outside, code[i].id, Var(next)), c[k])
  {
    hide UseCount, WellFormed, Fused, NoFuse;
    var c, out := Fused(code, i, j, other, next), MoveUses(outside, code[i].id, Var(next));
    FusedFront(code, i, j, other, next, 0);
    forall k | 0 <= k < i ensures NoFuse(c, out, c[k]) {
      FusedFront(code, i, j, other, next, k);
      if k < i - 1 {
        KeepsNoFuse(code, i, j, other, next, outside, c[k]);
      } else {
        MlaNoFuse(c, out, c[k]);
      }
    }
  }

  lemma MlaNoFuse(code: seq<Instr>, outside: multiset<nat>, y: Instr)
    requires y.op.Mla?
    ensures NoFuse(code, outside, y)
  {
  }

  lemma KeepsNoFuse(code: seq<Instr>, i: nat, j: nat, other: Value, next: nat, outside: multiset<nat>, z: Instr)
    requires WellFormed(code, next) && j < i < |code| && Fusable(code[j], code[i], other) && NoFuse(code, outside, z)
    ensures NoFuse(Fused(code, i, j, other, next), MoveUses(outside, code[i].id, Var(next)), z)
  {
    hide UseCount, WellFormed, Fused;
    var c, out := Fused(code, i, j, other, next), MoveUses(outside, code[i].id, Var(next));
    forall m, v | m in c && Fusable(m, z, v) ensures UseCount(c, m.id) + out[m.id] != 1 {
      FusedMember(code, i, j, other, next, m);
      var m0 :| m0 in code && m0.id == m.id && m0.op == m.op && |m0.args| == |m.args| && m.id != code[j].id &&
          m.id != code[i].id && m.id != next;
      assert Fusable(m0, z, v);
      FusedUses(code, i, j, other, next, m.id);
    }
  }

  /** j is where v is defined, or there is no such place. */
  ghost predicate Looked(code: seq<Instr>, v: Value, j: nat) {
    if j < |code| then v == Var(code[j].id) else forall k :: 0 <= k < |code| ==> v != Var(code[k].id)
  }

  class LowerIr {
    /** The instructions of the block, the next unused number, the uses of numbers in other blocks, and what replaced
        which number. */
    var insts: seq<Instr>
    var next: nat
    var outside: multiset<nat>
    var gone: map<nat, Value>
    ghost var dead: set<nat>
    /** The uses of numbers in other blocks at the start. */
    ghost const used: multiset<nat>

    ghost predicate Inv(o: Oracle, code0: seq<Instr>, first: nat)
      reads this
    {
      Lowering(o, code0, first, insts, next, outside, gone, dead) && OutsideKept(used, outside, gone, dead, first)
    }

    constructor (code: seq<Instr>, next: nat, outside: multiset<nat>)
      ensures insts == code && this.next == next && this.outside == used == outside && gone == map[] && dead == {}
    {
      insts, this.next, this.outside, used, gone, dead := code, next, outside, outside, map[], {};
    }

    /** Puts the new instructions in the place of instruction i and redirects the uses of its number everywhere. */
    method ReplaceAt(i: nat, news: seq<Instr>, w: Value, ghost o: Oracle, ghost code0: seq<Instr>, ghost first: nat)
      requires Inv(o, code0, first) && i < |insts| && Replaces(o, insts[i], news, w, next) && AllOperandsOk(news)
      requires ValueOk(w)
      modifies this
      ensures Inv(o, code0, first) && next == old(next) + |news|
      ensures insts == old(insts)[..i] + news + Subst(old(insts)[i + 1..], old(insts)[i].id, w)
      ensures outside == MoveUses(old(outside), old(insts)[i].id, w) && gone == Redirect(old(gone), old(insts)[i].id, w)
    {
      hide Replaces, AllOperandsOk, Lowering, OutsideKept, MoveUses, Redirect;
      ghost var a, x, b := insts[..i], insts[i], insts[i + 1..];
      Split(insts, i);
      LoweringAt(o, code0, first, insts, next, outside, gone, dead, i);
      RuleKeeps(o, code0, first, a, x, b, news, w, next, outside, gone, dead);
      NoUseBefore(a, x, b, w, next);
      NotGone(o, code0, first, insts, next, outside, gone, dead);
      MoveKeepsOutside(used, outside, gone, dead, first, x.id, w);
      var d := insts[i].id;
      insts := Subst(insts[..i], d, w) + news + Subst(insts[i + 1..], d, w);
      next := next + |news|;
      outside := MoveUses(outside, d, w);
      gone := Redirect(gone, d, w);
    }

    /** Splits address computations into multiply-adds; none is left. */
    method SplitGep(ghost o: Oracle, ghost code0: seq<Instr>, ghost first: nat)
      requires Inv(o, code0, first)
      modifies this
      ensures Inv(o, code0, first) && forall x :: x in insts && x.op.Gep? ==> |x.args| != 1 + |x.op.sizes|
    {
      hide Replaces, AllOperandsOk, Lowering, OutsideKept, OperandsOk, InRange;
      var i := 0;
      while i < |insts|
        invariant 0 <= i <= |insts| && Inv(o, code0, first) && forall k :: 0 <= k < i ==> GepRule(insts[k], 0).Keep?
        decreases |insts| - i
      {
        LoweringAt(o, code0, first, insts, next, outside, gone, dead, i);
        GepStepOk(o, insts[i], next);
        match GepRule(insts[i], next) {
          case Replace(news, w, _) =>
            ReplaceAt(i, news, w, o, code0, first);
            i := i + |news|;
          case Keep =>
            i := i + 1;
        }
      }
    }

    /** Splits remainders; none is left. */
    method SplitRem(ghost o: Oracle, ghost code0: seq<Instr>, ghost first: nat)
      requires Inv(o, code0, first)
      modifies this
      ensures Inv(o, code0, first) && forall x :: x in insts && x.op.Rem? ==> |x.args| != 2
      ensures LeavesNone({Geps}, old(insts), insts)
    {
      hide LeavesNone, Replaces, AllOperandsOk, Lowering, OutsideKept, OperandsOk, InRange;
      var i := 0;
      LeavesSelf({Geps}, insts);
      while i < |insts|
        invariant 0 <= i <= |insts| && Inv(o, code0, first) && forall k :: 0 <= k < i ==> RemRule(insts[k], 0).Keep?
        invariant LeavesNone({Geps}, old(insts), insts)
        decreases |insts| - i
      {
        LoweringAt(o, code0, first, insts, next, outside, gone, dead, i);
        RemStepOk(o, insts[i], next);
        match RemRule(insts[i], next) {
          case Replace(news, w, _) =>
            StepLeaves({Geps}, old(insts), insts, i, news, w);
            ReplaceAt(i, news, w, o, code0, first);
            i := i + |news|;
          case Keep =>
            i := i + 1;
        }
      }
    }

    /** Deletes operations that change nothing, until a deleted subtraction or division ends the scan. */
    method DeleteUnusedInstr(ghost o: Oracle, ghost code0: seq<Instr>, ghost first: nat) returns (stopped: bool)
      requires Inv(o, code0, first)
      modifies this
      ensures Inv(o, code0, first)
      ensures !stopped ==> forall x :: x in insts && |x.args| == 2 ==>
        && (x.op.Add? ==> (x.args[0] == Const(0) ==> x.args[1].Global?) && (x.args[1] == Const(0) ==>
              x.args[0].Global?))
        && (x.op.Sub? ==> x.args[1] != Const(0)) && (x.op.Div? ==> x.args[1] != Const(1))
        && (x.op.Mul? ==> Const(0) !in x.args && Const(1) !in x.args)
      ensures stopped <==> StopGone(old(insts), gone)
      ensures LeavesNone({Geps, Rems}, old(insts), insts)
    {
      hide LeavesNone, Replaces, AllOperandsOk, Lowering, OutsideKept, OperandsOk, InRange, WellFormed, StopGone,
          SameOps, HasOp,
          Redirect, MoveUses;
      var i := 0;
      LeavesSelf({Geps, Rems}, insts);
      stopped := false;
      SameOpsRefl(insts);
      NotGone(o, code0, first, insts, next, outside, gone, dead);
      NoStopYet(insts, next, gone);
      ghost var next0 := next;
      while i < |insts|
        invariant 0 <= i <= |insts| && Inv(o, code0, first) && !stopped
        invariant (forall k :: 0 <= k < i ==> UnusedRule(insts[k]).Keep?) && SameOps(old(insts), insts)
        invariant WellFormed(old(insts), next0) && !StopGone(old(insts), gone)
        invariant LeavesNone({Geps, Rems}, old(insts), insts)
        decreases |insts| - i
      {
        LoweringAt(o, code0, first, insts, next, outside, gone, dead, i);
        UnusedStepOk(o, insts[i], next);
        match UnusedRule(insts[i]) {
          case Replace(news, w, stop) =>
            ghost var was := insts;
            SameOpAt(old(insts), insts, i);
            StopRule(insts[i]);
            StopStep(old(insts), next0, insts[i], gone, w);
            StepLeaves({Geps, Rems}, old(insts), insts, i, news, w);
            ReplaceAt(i, news, w, o, code0, first);
            SameOpsReplace(old(insts), was, i, w);
            if stop {
              stopped := true;
              break;
            }
          case Keep =>
            i := i + 1;
        }
      }
    }

    /** Turns multiplications and divisions by powers of two into shifts; none is left. */
    method ConvertMulDiv2Shift(ghost o: Oracle, ghost code0: seq<Instr>, ghost first: nat)
      requires Inv(o, code0, first)
      modifies this
      ensures Inv(o, code0, first)
      ensures forall x, k: nat :: x in insts && |x.args| == 2 ==>
        && (x.op.Mul? ==> Const(Pow2(k)) !in x.args) && (x.op.Div? ==> x.args[1] != Const(Pow2(k)))
      ensures LeavesNone({Geps, Rems, Zeros}, old(insts), insts)
    {
      hide LeavesNone, Replaces, AllOperandsOk, Lowering, OutsideKept, OperandsOk, InRange;
      var i := 0;
      LeavesSelf({Geps, Rems, Zeros}, insts);
      while i < |insts|
        invariant 0 <= i <= |insts| && Inv(o, code0, first) && forall k :: 0 <= k < i ==> ShiftRule(insts[k], 0).Keep?
        invariant LeavesNone({Geps, Rems, Zeros}, old(insts), insts)
        decreases |insts| - i
      {
        LoweringAt(o, code0, first, insts, next, outside, gone, dead, i);
        ShiftStepOk(o, insts[i], next);
        match ShiftRule(insts[i], next) {
          case Replace(news, w, _) =>
            StepLeaves({Geps, Rems, Zeros}, old(insts), insts, i, news, w);
            ReplaceAt(i, news, w, o, code0, first);
            i := i + |news|;
          case Keep =>
            i := i + 1;
        }
      }
      NoPowersLeft(o, code0, first, insts, next, outside, gone, dead);
    }

    /** Deletes instruction i, whose number nothing uses. */
    method DeleteAt(i: nat, ghost o: Oracle, ghost code0: seq<Instr>, ghost first: nat)
      requires Inv(o, code0, first) && i < |insts| && !insts[i].op.Effect? && UseCount(insts, insts[i].id) == 0
      requires outside[insts[i].id] == 0
      modifies this
      ensures Inv(o, code0, first) && insts == old(insts)[..i] + old(insts)[i + 1..] && next == old(next)
      ensures gone == old(gone) && outside == old(outside)
    {
      hide Lowering, OutsideKept;
      Split(insts, i);
      NotGone(o, code0, first, insts, next, outside, gone, dead);
      DeleteKeepsOutside(used, outside, gone, dead, first, insts[i].id);
      DeleteKeeps(o, code0, first, insts[..i], insts[i], insts[i + 1..], next, outside, gone, dead);
      dead := dead + DyingWith(gone, insts[i].id);
      insts := insts[..i] + insts[i + 1..];
    }

    /** Fuses addition i with the multiplication j that computes one of its operands, if that has no other use. */
    method FuseAt(i: nat, j: nat, other: Value, ghost o: Oracle, ghost code0: seq<Instr>, ghost first: nat)
      requires Inv(o, code0, first) && j < i < |insts| && Fusable(insts[j], insts[i], other)
      requires UseCount(insts, insts[j].id) + outside[insts[j].id] == 1
      modifies this
      ensures Inv(o, code0, first) && |insts| == |old(insts)| - 1
      ensures insts == Fused(old(insts), i, j, other, old(next))
      ensures outside == MoveUses(old(outside), old(insts)[i].id, Var(old(next)))
    {
      hide Lowering, OutsideKept, UseCount, Fitting, MeansAfter, WellFormed, MoveUses, Redirect, AllOperandsOk, ValueOk,
          NewsClean;
      ghost var a, x, b := insts[..i], insts[i], insts[i + 1..];
      var m := insts[j];
      var y := Instr(next, Mla, [m.args[0], m.args[1], other]);
      Split(insts, i);
      LoweringAt(o, code0, first, insts, next, outside, gone, dead, i);
      FuseFits(o, a, x, b, m, j, other, next);
      FuseClean(o, code0, first, insts, next, outside, gone, dead, i, j, other);
      VarOk(next);
      ReplaceKeeps(o, code0, first, a, x, b, [y], Var(next), next, outside, gone, dead);
      NoUseBefore(a, x, b, Var(next), next);
      FuseUnused(a, x, b, m, other, next, outside);
      NotGone(o, code0, first, insts, next, outside, gone, dead);
      MoveKeepsOutside(used, outside, gone, dead, first, x.id, Var(next));
      var d := insts[i].id;
      insts := Subst(insts[..i], d, Var(next)) + [y] + Subst(insts[i + 1..], d, Var(next));
      outside := MoveUses(outside, d, Var(next));
      gone := Redirect(gone, d, Var(next));
      next := next + 1;
      assert insts[j] == m;
      DeleteAt(j, o, code0, first);
    }

    /** The position of the instruction that defines a number, or the length of the list. */
    method FindDef(v: Value) returns (j: nat)
      ensures j <= |insts| && (j < |insts| ==> v == Var(insts[j].id)) &&
          (j == |insts| ==> forall k :: 0 <= k < |insts| ==> v != Var(insts[k].id))
    {
      j := 0;
      while j < |insts|
        invariant 0 <= j <= |insts| && forall k :: 0 <= k < j ==> v != Var(insts[k].id)
      {
        if v == Var(insts[j].id) {
          return;
        }
        j := j + 1;
      }
    }

    /** Fuses additions of products into multiply-adds, until no product is used by one addition alone. */
    method Convert2Mla(ghost o: Oracle, ghost code0: seq<Instr>, ghost first: nat)
      requires Inv(o, code0, first)
      modifies this
      ensures Inv(o, code0, first) && forall x :: x in insts ==> NoFuse(insts, outside, x)
      ensures forall x, m :: x in insts && m in insts && x.op.Add? && |x.args| == 2 && m.op.Mul? && |m.args| == 2 ==>
        Var(m.id) in x.args ==> UseCount(insts, m.id) + outside[m.id] != 1
      ensures LeavesNone({Geps, Rems, Zeros, Powers}, old(insts), insts)
    {
      hide LeavesNone, Lowering, OutsideKept, UseCount, NoFuse, Fused, MoveUses, Fusable;
      var i := 0;
      LeavesSelf({Geps, Rems, Zeros, Powers}, insts);
      while i < |insts|
        invariant 0 <= i <= |insts| && Inv(o, code0, first)
        invariant forall k :: 0 <= k < i ==> NoFuse(insts, outside, insts[k])
        invariant LeavesNone({Geps, Rems, Zeros, Powers}, old(insts), insts)
        decreases |insts| - i
      {
        var x := insts[i];
        LoweringAt(o, code0, first, insts, next, outside, gone, dead, i);
        var j, l := |insts|, |insts|;
        if x.op.Add? && |x.args| == 2 {
          j := FindDef(x.args[0]);
          if j < |insts| && IsProduct(insts[j]) && UseCount(insts, insts[j].id) + outside[insts[j].id] == 1 {
            DefBefore(o, code0, first, insts, next, outside, gone, dead, i, j);
            FusableIs(insts[j], x, x.args[1]);
            FuseKeepsRest(insts, i, j, x.args[1], next, outside);
            FuseLeaves(old(insts), insts, i, j, x.args[1], next);
            FuseAt(i, j, x.args[1], o, code0, first);
            continue;
          }
          l := FindDef(x.args[1]);
          if l < |insts| && IsProduct(insts[l]) && UseCount(insts, insts[l].id) + outside[insts[l].id] == 1 {
            DefBefore(o, code0, first, insts, next, outside, gone, dead, i, l);
            FusableIs(insts[l], x, x.args[0]);
            FuseKeepsRest(insts, i, l, x.args[0], next, outside);
            FuseLeaves(old(insts), insts, i, l, x.args[0], next);
            FuseAt(i, l, x.args[0], o, code0, first);
            continue;
          }
        }
        NothingToFuse(insts, next, outside, i, j, l);
        i := i + 1;
      }
      NothingFusable(insts, outside);
    }

    /** All passes in their order; afterwards the block has the same effects and the same values, and nothing that the
        passes remove is left. `fused` is the list before the last pass. */
    method Run(ghost o: Oracle, ghost code0: seq<Instr>, ghost first: nat) returns (stopped: bool,
        ghost fused: seq<Instr>)
      requires insts == code0 && next == first && gone == map[] && dead == {} && outside == used &&
          WellFormed(code0, first) && AllOperandsOk(code0)
      modifies this
      ensures Preserved(o, code0, insts, gone, dead, first) && WellFormed(insts, next)
      ensures Clean(insts, gone, dead) && CleanOutside(outside, gone, dead)
      ensures OutsideKept(old(outside), outside, gone, dead, first)
      ensures forall x :: x in insts ==> (x.op.Gep? ==> |x.args| != 1 + |x.op.sizes|) && (x.op.Rem? ==> |x.args| != 2)
      ensures forall x, k: nat :: x in insts && |x.args| == 2 ==>
        && (x.op.Mul? ==> Const(Pow2(k)) !in x.args) && (x.op.Div? ==> x.args[1] != Const(Pow2(k)))
      ensures !stopped ==> forall x :: x in insts && |x.args| == 2 ==>
        && (x.op.Mul? ==> Const(0) !in x.args) && (x.op.Sub? ==> x.args[1] != Const(0))
      ensures forall x, m :: x in fused && m in fused && x.op.Add? && |x.args| == 2 && m.op.Mul? && |m.args| == 2 ==>
        Var(m.id) in x.args ==> UseCount(fused, m.id) + outside[m.id] != 1
      ensures forall x :: x in insts ==> x in fused && ((x.op.Add? || x.op.Mul?) ==>
                            UseCount(fused, x.id) + outside[x.id] > 0)
      ensures forall x :: x in fused && !x.op.Add? && !x.op.Mul? ==> x in insts
    {
      hide LeavesNone, Lowering, OutsideKept, NoFuse, UseCount, Pow2, StopGone, Preserved, WellFormed, Clean,
          CleanOutside,
          NoneLeft, AllOperandsOk;
      LoweringBegins(o, code0, first, outside);
      SplitGep(o, code0, first);
      NoneAre(Geps, insts);
      ghost var split0 := insts;
      SplitRem(o, code0, first);
      NoneAre(Rems, insts);
      ghost var split := insts;
      stopped := DeleteUnusedInstr(o, code0, first);
      NoneAre(Zeros, insts);
      ghost var plain := insts;
      ConvertMulDiv2Shift(o, code0, first);
      NoneAre(Powers, insts);
      ghost var shifted := insts;
      Convert2Mla(o, code0, first);
      fused := insts;
      StillNone(split0, split, plain, shifted, fused, stopped);
      DeleteAddMul(o, code0, first);
      FewerStillNone(fused, insts, stopped);
      LoweringGives(o, code0, first, insts, next, outside, gone, dead);
    }

    /** Deletes additions and multiplications that nothing uses, in one pass from front to back. */
    method DeleteAddMul(ghost o: Oracle, ghost code0: seq<Instr>, ghost first: nat)
      requires Inv(o, code0, first)
      modifies this
      ensures Inv(o, code0, first) && outside == old(outside)
      ensures forall x :: x in insts ==> x in old(insts) && (IsAddMul(x) ==>
                            UseCount(old(insts), x.id) + outside[x.id] > 0)
      ensures forall x :: x in old(insts) && !IsAddMul(x) ==> x in insts
    {
      hide Lowering, OutsideKept, UseCount;
      var i := 0;
      while i < |insts|
        invariant 0 <= i <= |insts| && Inv(o, code0, first) && outside == old(outside)
        invariant (forall d :: UseCount(insts, d) <= UseCount(old(insts), d))
        invariant forall x :: x in insts ==> x in old(insts)
        invariant forall k :: 0 <= k < i && IsAddMul(insts[k]) ==>
                                UseCount(old(insts), insts[k].id) + outside[insts[k].id] > 0
        invariant forall x :: x in old(insts) && !IsAddMul(x) ==> x in insts
        decreases |insts| - i
      {
        if IsAddMul(insts[i]) && UseCount(insts, insts[i].id) + outside[insts[i].id] == 0 {
          ghost var was := insts;
          DeleteAt(i, o, code0, first);
          DeletedUses(was, i);
        } else {
          i := i + 1;
        }
      }
    }
  }

  lemma GepStepOk(o: Oracle, x: Instr, next: nat)
    requires InRange(x, next) && OperandsOk(x)
    ensures var r := GepRule(x, next);
            r.Replace? ==>
              && |r.news| >= 1 && (forall y :: y in r.news ==> GepRule(y, 0).Keep?)
              && Replaces(o, x, r.news, r.with, next) && AllOperandsOk(r.news) && ValueOk(r.with)
  {
    hide Replaces;
    if x.op.Gep? {
      GepReplaces(o, x, next);
    }
    if GepRule(x, next).Replace? { ChainIsMla(x.args[1..], x.op.sizes, ConstOffset(x.args[1..], x.op.sizes), next); }
  }

  lemma {:induction false} ChainIsMla(idxs: seq<Value>, sizes: seq<int>, off: int, next: nat)
    requires |idxs| == |sizes|
    ensures forall y :: y in IndexChain(idxs, sizes, off, next) ==> y.op.Mla?
    decreases idxs
  {
    if idxs != [] { ChainIsMla(idxs[..|idxs| - 1], sizes[..|idxs| - 1], off, next); }
  }

  lemma RemStepOk(o: Oracle, x: Instr, next: nat)
    requires InRange(x, next) && OperandsOk(x)
    ensures var r := RemRule(x, next);
            r.Replace? ==>
              && |r.news| >= 1 && (forall y :: y in r.news ==> RemRule(y, 0).Keep?)
              && (forall k :: k in {Geps} ==> NoneLeft(k, r.news))
              && Replaces(o, x, r.news, r.with, next) && AllOperandsOk(r.news) && ValueOk(r.with)
  {
    hide Replaces;
    RemReplaces(o, x, next);
  }

  lemma UnusedStepOk(o: Oracle, x: Instr, next: nat)
    requires InRange(x, next) && OperandsOk(x)
    ensures var r := UnusedRule(x);
            r.Replace? ==>
              && r.news == [] && (forall k :: k in {Geps, Rems} ==> NoneLeft(k, r.news))
              && Replaces(o, x, r.news, r.with, next) && AllOperandsOk(r.news) && ValueOk(r.with)
  {
    hide Replaces;
    UnusedReplaces(o, x, next);
  }

  lemma ShiftSmall(x: Instr)
    requires ConstsOk(x)
    ensures forall v :: v in x.args && PowerConst(v) ==> CeilLog2(v.c) <= 30
  {
    hide CeilLog2, IsPowerOfTwo;
    forall v | v in x.args && PowerConst(v) ensures CeilLog2(v.c) <= 30 { PowerOfTwoIs(v.c); }
  }

  lemma ShiftNewsOk(x: Instr, next: nat)
    requires ConstsOk(x)
    ensures var r := ShiftRule(x, next); r.Replace? ==> AllOperandsOk(r.news) && ValueOk(r.with)
  {
    hide IsPowerOfTwo, CeilLog2;
    ShiftSmall(x);
  }

  lemma ShiftNewsDone(x: Instr, next: nat)
    ensures var r := ShiftRule(x, next);
            r.Replace? ==>
              && |r.news| >= 1 && (forall y :: y in r.news ==> ShiftRule(y, 0).Keep?)
              && r.with.Var? && (forall k :: k in {Geps, Rems, Zeros} ==> NoneLeft(k, r.news))
  {
    hide IsPowerOfTwo, CeilLog2;
  }

  lemma ShiftStepOk(o: Oracle, x: Instr, next: nat)
    requires InRange(x, next) && OperandsOk(x)
    ensures var r := ShiftRule(x, next);
            r.Replace? ==>
              && |r.news| >= 1 && (forall y :: y in r.news ==> ShiftRule(y, 0).Keep?)
              && r.with.Var? && (forall k :: k in {Geps, Rems, Zeros} ==> NoneLeft(k, r.news))
              && Replaces(o, x, r.news, r.with, next) && AllOperandsOk(r.news) && ValueOk(r.with)
  {
    hide Replaces, Pow2, AllOperandsOk, ValueOk, NoneLeft, InRange, IsPowerOfTwo, CeilLog2;
    ShiftNewsDone(x, next);
    if x.op.Mul? || x.op.Div? {
      ShiftReplaces(o, x, next);
      ShiftNewsOk(x, next);
    }
  }

  lemma NoPowersLeft(o: Oracle, code0: seq<Instr>, first: nat, insts: seq<Instr>, next: nat, outside: multiset<nat>,
      gone: map<nat, Value>, dead: set<nat>)
    requires Lowering(o, code0, first, insts, next, outside, gone, dead)
    requires forall k :: 0 <= k < |insts| ==> ShiftRule(insts[k], 0).Keep?
    ensures forall x, k: nat :: x in insts && |x.args| == 2 ==>
      && (x.op.Mul? ==> Const(Pow2(k)) !in x.args) && (x.op.Div? ==> x.args[1] != Const(Pow2(k)))
  {
    hide Preserved, WellFormed, Clean, CleanOutside, ShiftRule, Pow2;
    forall x | x in insts && |x.args| == 2
      ensures forall k: nat ::
        (x.op.Mul? ==> Const(Pow2(k)) !in x.args) && (x.op.Div? ==> x.args[1] != Const(Pow2(k)))
    {
      assert OperandsOk(x);
      if x.op.Mul? || x.op.Div? { ShiftFires(x, 0); }
    }
  }

  lemma VarOk(d: nat)
    ensures ValueOk(Var(d))
  {
  }

  predicate IsProduct(m: Instr) {
    m.op.Mul? && |m.args| == 2
  }

  /** x adds other to the product m. */
  predicate Fusable(m: Instr, x: Instr, other: Value) {
    IsProduct(m) && x.op.Add? && (x.args == [Var(m.id), other] || x.args == [other, Var(m.id)])
  }

  lemma DefBefore(o: Oracle, code0: seq<Instr>, first: nat, insts: seq<Instr>, next: nat, outside: multiset<nat>,
      gone: map<nat, Value>, dead: set<nat>, i: nat, j: nat)
    requires Lowering(o, code0, first, insts, next, outside, gone, dead) && i < |insts| && j < |insts|
    requires Var(insts[j].id) in insts[i].args
    ensures j < i
  {
    hide Preserved, Clean, CleanOutside, AllOperandsOk;
    assert InRange(insts[i], next);
    assert forall k :: i < k < |insts| ==> Ordered(insts[i], insts[k]);
  }

  /** A product keeps its value until it is added. */
  lemma {:induction false} ProductStays(o: Oracle, c: seq<Instr>, m: Instr, s: State)
    requires IsProduct(m) && Get(s, m.id) == Wrap(Eval(s, m.args[0]) * Eval(s, m.args[1]))
    requires forall z :: z in c ==> Ordered(m, z)
    ensures var t := Run(o, c, s); Get(t, m.id) == Wrap(Eval(t, m.args[0]) * Eval(t, m.args[1]))
    decreases c
  {
    hide Wrap, ValueOf, Evals;
    if c != [] {
      assert Ordered(m, c[0]);
      ProductStays(o, c[1..], m, Step(o, c[0], s));
    }
  }

  lemma ProductHolds(o: Oracle, a: seq<Instr>, j: nat, next: nat, s: State)
    requires j < |a| && IsProduct(a[j]) && WellFormed(a, next)
    ensures var t := Run(o, a, s); Get(t, a[j].id) == Wrap(Eval(t, a[j].args[0]) * Eval(t, a[j].args[1]))
  {
    hide Wrap, Run, Eval, Evals;
    var m, before, c := a[j], a[..j], a[j + 1..];
    Split(a, j);
    assert a == before + ([m] + c);
    RunConcat(o, before, [m] + c, s);
    RunConcat(o, [m], c, Run(o, before, s));
    var s0 := Run(o, before, s);
    RunOne(o, m, s0);
    assert m.args == [m.args[0], m.args[1]];
    EvalTwo(s0, m.args[0], m.args[1]);
    assert InRange(m, next);
    EvalPut(s0, m.id, Wrap(Eval(s0, m.args[0]) * Eval(s0, m.args[1])), m.args[0]);
    EvalPut(s0, m.id, Wrap(Eval(s0, m.args[0]) * Eval(s0, m.args[1])), m.args[1]);
    forall z | z in c ensures Ordered(m, z) {
      var k :| 0 <= k < |c| && c[k] == z;
      assert a[j + 1 + k] == z;
    }
    ProductStays(o, c, m, Run(o, [m], s0));
  }

  /** The fused instruction computes the sum where the addition stood. */
  lemma FuseMeans(o: Oracle, a: seq<Instr>, x: Instr, m: Instr, j: nat, other: Value, next: nat)
    requires WellFormed(a + [x], next) && j < |a| && a[j] == m && Fusable(m, x, other)
    ensures MeansAfter(o, a, x, [Instr(next, Mla, [m.args[0], m.args[1], other])], Var(next), next)
  {
    hide Wrap, Run, Evals, Eval, Words;
    var y := Instr(next, Mla, [m.args[0], m.args[1], other]);
    WellFormedParts(a, [x], next);
    forall s {:trigger Run(o, a, s)} | Words(s)
      ensures var s0 := Run(o, a, s);
        var s' := Run(o, [y], s0);
        Agree(s0, s', Range(next, next + 1)) && Eval(s', Var(next)) == ValueOf(x.op, Evals(s0, x.args))
    {
      var s0 := Run(o, a, s);
      ProductHolds(o, a, j, next, s);
      FuseValue(o, s0, x, m, other, next);
    }
  }

  lemma FuseValue(o: Oracle, s0: State, x: Instr, m: Instr, other: Value, next: nat)
    requires Fusable(m, x, other) && Get(s0, m.id) == Wrap(Eval(s0, m.args[0]) * Eval(s0, m.args[1]))
    ensures var s' := Run(o, [Instr(next, Mla, [m.args[0], m.args[1], other])], s0);
      Agree(s0, s', Range(next, next + 1)) && Eval(s', Var(next)) == ValueOf(x.op, Evals(s0, x.args))
  {
    hide Wrap, Run, ValueOf, Agree;
    var y := Instr(next, Mla, [m.args[0], m.args[1], other]);
    var p, c := Eval(s0, m.args[0]) * Eval(s0, m.args[1]), Eval(s0, other);
    RunOne(o, y, s0);
    EvalThree(s0, m.args[0], m.args[1], other);
    MlaValue(Eval(s0, m.args[0]), Eval(s0, m.args[1]), c);
    EvalPut(s0, next, Wrap(p + c), other);
    PutAgrees(s0, next, Wrap(p + c));
    EvalTwo(s0, Var(m.id), other);
    EvalTwo(s0, other, Var(m.id));
    SumValue(x, p, c);
  }

  lemma MlaValue(a: int, b: int, c: int)
    ensures ValueOf(Mla, [a, b, c]) == Wrap(a * b + c)
  {
    hide Wrap;
  }

  /** The sum of a product's word and another number, either way round. */
  lemma SumValue(x: Instr, p: int, c: int)
    requires x.op.Add?
    ensures ValueOf(x.op, [Wrap(p), c]) == Wrap(p + c) && ValueOf(x.op, [c, Wrap(p)]) == Wrap(p + c)
  {
    WrapAdd(p, c);
  }

  lemma PutAgrees(s: State, next: nat, v: int)
    ensures Agree(s, Put(s, next, v), Range(next, next + 1))
  {
  }

  lemma FuseFits(o: Oracle, a: seq<Instr>, x: Instr, b: seq<Instr>, m: Instr, j: nat, other: Value, next: nat)
    requires WellFormed(a + [x] + b, next) && j < |a| && a[j] == m && Fusable(m, x, other)
    ensures var y := Instr(next, Mla, [m.args[0], m.args[1], other]);
      Fitting(a, x, b, [y], Var(next), next) && MeansAfter(o, a, x, [y], Var(next), next)
  {
    hide MeansAfter;
    var y := Instr(next, Mla, [m.args[0], m.args[1], other]);
    WellFormedParts(a + [x], b, next);
    WellFormedParts(a, [x], next);
    FuseMeans(o, a, x, m, j, other, next);
    WellFormedMore(a, next, next + 1);
    assert m in a && x in [x] && x in a + [x] && m in a + [x];
    assert InRange(m, next) && InRange(x, next);
    assert other in x.args;
    NewsAfter(a, [y], next);
    WellFormedJoin(a, [y], next + 1);
    forall u, z | u in a + [y] && z in b ensures Ordered(u, z) {
      assert InRange(z, next) && Ordered(x, z) && Ordered(m, z);
      if u in a { assert u in a + [x]; }
    }
  }

  lemma FuseClean(o: Oracle, code0: seq<Instr>, first: nat, insts: seq<Instr>, next: nat, outside: multiset<nat>,
      gone: map<nat, Value>, dead: set<nat>, i: nat, j: nat, other: Value)
    requires Lowering(o, code0, first, insts, next, outside, gone, dead) && j < i < |insts|
    requires Fusable(insts[j], insts[i], other)
    ensures var m := insts[j];
      var y := Instr(next, Mla, [m.args[0], m.args[1], other]);
      NewsClean(insts[i], [y], Var(next), gone, dead, next) && AllOperandsOk([y])
  {
    hide Preserved, CleanOutside, AllOperandsOk;
    var m, x := insts[j], insts[i];
    assert m in insts && x in insts;
    assert CleanInstr(m, gone, dead) && CleanInstr(x, gone, dead);
    assert InRange(m, next) && InRange(x, next) && Ordered(m, x);
    assert other in x.args;
    MlaOk(Instr(next, Mla, [m.args[0], m.args[1], other]));
  }

  lemma MlaOk(y: Instr)
    requires y.op.Mla?
    ensures AllOperandsOk([y])
  {
  }

  lemma {:induction false} UnusedCounts(code: seq<Instr>, d: nat)
    requires forall x :: x in code ==> Var(d) !in x.args
    ensures UseCount(code, d) == 0
    decreases code
  {
    if code != [] {
      ArgUsesNone(code[0].args, d);
      UnusedCounts(code[1..], d);
      assert code[0] in code;
    }
  }

  /** After fusing the product has no use left. */
  lemma FuseUnused(a: seq<Instr>, x: Instr, b: seq<Instr>, m: Instr, other: Value, next: nat, outside: multiset<nat>)
    requires WellFormed(a + [x] + b, next) && m in a && Fusable(m, x, other)
    requires UseCount(a + [x] + b, m.id) + outside[m.id] == 1
    ensures var y := Instr(next, Mla, [m.args[0], m.args[1], other]);
      UseCount(a + [y] + Subst(b, x.id, Var(next)), m.id) == 0 && MoveUses(outside, x.id, Var(next))[m.id] == 0
  {
    var y := Instr(next, Mla, [m.args[0], m.args[1], other]);
    var d := m.id;
    UseCountConcat(a + [x], b, d);
    UseCountConcat(a, [x], d);
    XUses(x, m, other);
    WellFormedParts(a + [x], b, next);
    WellFormedParts(a, [x], next);
    assert x in [x];
    assert InRange(m, next) && Ordered(m, x);
    UnusedIgnored(a, d);
    UnusedIgnored(b, d);
    SubstMembers(b, x.id, Var(next));
    forall z' | z' in a + [y] + Subst(b, x.id, Var(next)) ensures Var(d) !in z'.args {
      if z' in Subst(b, x.id, Var(next)) {
        var z :| z in b && z' == z.(args := SubstArgs(z.args, x.id, Var(next)));
        SubstArgsMembers(z.args, x.id, Var(next));
      }
    }
    UnusedCounts(a + [y] + Subst(b, x.id, Var(next)), d);
  }

  lemma XUses(x: Instr, m: Instr, other: Value)
    requires Fusable(m, x, other)
    ensures UseCount([x], m.id) == 1 + if other == Var(m.id) then 1 else 0
  {
    hide ArgUses;
    assert [x][1..] == [];
    ArgUsesTwo(x.args[0], x.args[1], m.id);
  }

  lemma ArgUsesTwo(a: Value, b: Value, d: nat)
    ensures ArgUses([a, b], d) == (if a == Var(d) then 1 else 0) + (if b == Var(d) then 1 else 0)
  {
    assert [a, b][1..] == [b] && [b][1..] == [];
    assert ArgUses([b], d) == ArgUses([], d) + if b == Var(d) then 1 else 0;
  }
}
