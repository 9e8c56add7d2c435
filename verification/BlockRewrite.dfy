/** Replacing instructions of a block: what a replacement must satisfy and what it then preserves. */
module BlockRewrite {
  import opened Arith
  import opened BlockIr

  /** x may stand before y: another value is defined and y's is not used yet. */
  ghost predicate Ordered(x: Instr, y: Instr) {
    x.id != y.id && Var(y.id) !in x.args
  }

  ghost predicate InRange(x: Instr, next: nat) {
    x.id < next && Var(x.id) !in x.args && forall v :: v in x.args && v.Var? ==> v.id < next
  }

  /** Single assignment, no use before its definition, all numbers below next. */
  ghost predicate WellFormed(code: seq<Instr>, next: nat) {
    && (forall x :: x in code ==> InRange(x, next))
    && (forall i, j :: 0 <= i < j < |code| ==> Ordered(code[i], code[j]))
  }

  lemma WellFormedParts(a: seq<Instr>, b: seq<Instr>, next: nat)
    requires WellFormed(a + b, next)
    ensures WellFormed(a, next) && WellFormed(b, next) && forall x, y :: x in a && y in b ==> Ordered(x, y)
  {
    hide Ordered, InRange;
    var c := a + b;
    forall x | x in a || x in b ensures x in c { }
    forall i, j | 0 <= i < j < |a| ensures Ordered(a[i], a[j]) { assert c[i] == a[i] && c[j] == a[j]; }
    forall i, j | 0 <= i < j < |b| ensures Ordered(b[i], b[j]) { assert c[|a| + i] == b[i] && c[|a| + j] == b[j]; }
    forall x, y | x in a && y in b ensures Ordered(x, y) {
      var i :| 0 <= i < |a| && a[i] == x;
      var j :| 0 <= j < |b| && b[j] == y;
      assert c[i] == x && c[|a| + j] == y;
    }
  }

  lemma WellFormedJoin(a: seq<Instr>, b: seq<Instr>, next: nat)
    requires WellFormed(a, next) && WellFormed(b, next) && forall x, y :: x in a && y in b ==> Ordered(x, y)
    ensures WellFormed(a + b, next)
  {
    hide Ordered, InRange;
    var c := a + b;
    forall i, j | 0 <= i < j < |c| ensures Ordered(c[i], c[j]) {
      if j < |a| {
        assert c[i] == a[i] && c[j] == a[j];
      } else if i >= |a| {
        assert c[i] == b[i - |a|] && c[j] == b[j - |a|];
      } else {
        assert c[i] in a && c[j] in b;
      }
    }
  }

  lemma WellFormedMore(a: seq<Instr>, next: nat, next': nat)
    requires WellFormed(a, next) && next <= next'
    ensures WellFormed(a, next')
  {
    hide Ordered;
  }

  /** The states agree outside the numbers in n. */
  ghost predicate Agree(s1: State, s2: State, n: set<nat>) {
    s1.trace == s2.trace && s1.globals == s2.globals && forall id :: id !in n ==> Get(s1, id) == Get(s2, id)
  }

  /** A replacement argument: a constant, a global, an argument of the replaced instruction or one of the new numbers.
      */
  ghost predicate From(v: Value, x: Instr, lo: nat, hi: nat) {
    v.Const? || v.Global? || v in x.args || (v.Var? && lo <= v.id < hi)
  }

  /** The new instructions are numbered upwards from next and use only what is there before them. */
  ghost predicate NewOk(news: seq<Instr>, x: Instr, next: nat) {
    forall i :: 0 <= i < |news| ==>
                  && news[i].id == next + i
                  && forall v :: v in news[i].args ==> From(v, x, next, next + i)
  }

  ghost function Range(lo: nat, hi: nat): (r: set<nat>)
    ensures forall i :: i in r <==> lo <= i < hi
    decreases hi - lo
  {
    if lo >= hi then {} else {lo} + Range(lo + 1, hi)
  }

  /** Running the new instructions makes v the value of x and changes nothing else. */
  ghost predicate Means(o: Oracle, x: Instr, news: seq<Instr>, v: Value, next: nat) {
    forall s {:trigger Run(o, news, s)} :: Words(s) ==>
      var s' := Run(o, news, s);
      Agree(s, s', Range(next, next + |news|)) && Eval(s', v) == ValueOf(x.op, Evals(s, x.args))
  }

  ghost predicate Replaces(o: Oracle, x: Instr, news: seq<Instr>, v: Value, next: nat) {
    !x.op.Effect? && NewOk(news, x, next) && From(v, x, next, next + |news|) && Means(o, x, news, v, next)
  }

  /** The same only for the states that the instructions a before x can lead to, with any arguments of earlier
      instructions. */
  ghost predicate MeansAfter(o: Oracle, a: seq<Instr>, x: Instr, news: seq<Instr>, v: Value, next: nat) {
    forall s {:trigger Run(o, a, s)} :: Words(s) ==>
      var s0 := Run(o, a, s);
      var s' := Run(o, news, s0);
      Agree(s0, s', Range(next, next + |news|)) && Eval(s', v) == ValueOf(x.op, Evals(s0, x.args))
  }

  lemma MeansAnywhere(o: Oracle, a: seq<Instr>, x: Instr, news: seq<Instr>, v: Value, next: nat)
    requires Means(o, x, news, v, next)
    ensures MeansAfter(o, a, x, news, v, next)
  {
    hide Agree;
    forall s {:trigger Run(o, a, s)} | Words(s)
      ensures var s0 := Run(o, a, s);
        var s' := Run(o, news, s0);
        Agree(s0, s', Range(next, next + |news|)) && Eval(s', v) == ValueOf(x.op, Evals(s0, x.args))
    {
      RunWords(o, a, s);
    }
  }

  lemma {:induction false} EvalsAgree(s1: State, s2: State, n: set<nat>, d: nat, w: Value, vs: seq<Value>)
    requires Agree(s1, s2, n) && Get(s1, d) == Eval(s2, w)
    requires forall v :: v in vs && v.Var? && v.id in n ==> v.id == d
    ensures Evals(s1, vs) == Evals(s2, SubstArgs(vs, d, w))
  {
    var r := SubstArgs(vs, d, w);
    forall i | 0 <= i < |vs| ensures Evals(s1, vs)[i] == Evals(s2, r)[i] {
      assert vs[i] in vs;
    }
  }

  lemma StepAgrees(o: Oracle, x: Instr, d: nat, w: Value, n: set<nat>, s1: State, s2: State)
    requires Agree(s1, s2, n) && d in n && Get(s1, d) == Eval(s2, w)
    requires x.id !in n && w != Var(x.id) && forall v :: v in x.args && v.Var? && v.id in n ==> v.id == d
    ensures var t1, t2 := Step(o, x, s1), Step(o, x.(args := SubstArgs(x.args, d, w)), s2);
            Agree(t1, t2, n) && Get(t1, d) == Eval(t2, w)
  {
    hide Evals, SubstArgs, ValueOf, Wrap;
    EvalsAgree(s1, s2, n, d, w, x.args);
  }

  /** The instructions behind the replaced one run alike when its uses are redirected. */
  lemma {:induction false} SuffixRuns(o: Oracle, b: seq<Instr>, d: nat, w: Value, n: set<nat>, s1: State, s2: State)
    requires Agree(s1, s2, n) && d in n && Get(s1, d) == Eval(s2, w)
    requires forall x :: x in b ==>
               && x.id !in n && w != Var(x.id)
               && forall v :: v in x.args && v.Var? && v.id in n ==> v.id == d
    ensures var t1, t2 := Run(o, b, s1), Run(o, Subst(b, d, w), s2); Agree(t1, t2, n) && Get(t1, d) == Eval(t2, w)
    decreases b
  {
    hide Step, Agree, Eval, Get, SubstArgs;
    if b != [] {
      var x := b[0];
      assert x in b;
      var y := x.(args := SubstArgs(x.args, d, w));
      assert Subst(b, d, w)[0] == y && Subst(b, d, w)[1..] == Subst(b[1..], d, w);
      StepAgrees(o, x, d, w, n, s1, s2);
      SuffixRuns(o, b[1..], d, w, n, Step(o, x, s1), Step(o, y, s2));
    }
  }

  /** The new instructions stand between a and b: numbered from next on, using only what is defined before them. */
  ghost predicate Fitting(a: seq<Instr>, x: Instr, b: seq<Instr>, news: seq<Instr>, v: Value, next: nat) {
    && WellFormed(a + news, next + |news|) && WellFormed(a + [x] + b, next)
    && (forall y, z :: y in a + news && z in b ==> Ordered(y, z))
    && (v.Var? ==> v.id < next + |news| && v.id != x.id && forall z :: z in b ==> z.id != v.id)
    && (forall y :: y in news ==> y.id >= next)
  }

  /** One replacement in the middle of a block. */
  lemma ReplaceRuns(o: Oracle, a: seq<Instr>, x: Instr, b: seq<Instr>, news: seq<Instr>, w: Value, next: nat, s: State)
    requires Fitting(a, x, b, news, w, next) && MeansAfter(o, a, x, news, w, next) && !x.op.Effect? && Words(s)
    ensures var t1, t2 := Run(o, a + [x] + b, s), Run(o, a + news + Subst(b, x.id, w), s);
      Agree(t1, t2, Range(next, next + |news|) + {x.id}) && Get(t1, x.id) == Eval(t2, w)
  {
    hide WellFormed, Ordered;
    var n := Range(next, next + |news|) + {x.id};
    var s0 := Run(o, a, s);
    var s1, s2 := Step(o, x, s0), Run(o, news, s0);
    RunConcat(o, a + [x], b, s);
    RunConcat(o, a, [x], s);
    assert [x][1..] == [];
    assert Run(o, [x], s0) == s1;
    RunConcat(o, a + news, Subst(b, x.id, w), s);
    RunConcat(o, a, news, s);
    SuffixFree(a, x, b, news, w, next);
    assert Eval(s2, w) == ValueOf(x.op, Evals(s0, x.args));
    SuffixRuns(o, b, x.id, w, n, s1, s2);
  }

  lemma SuffixFree(a: seq<Instr>, x: Instr, b: seq<Instr>, news: seq<Instr>, w: Value, next: nat)
    requires Fitting(a, x, b, news, w, next)
    ensures var n := Range(next, next + |news|) + {x.id};
      forall y :: y in b ==>
        && y.id !in n && w != Var(y.id)
        && forall v :: v in y.args && v.Var? && v.id in n ==> v.id == x.id
  {
    WellFormedParts(a + [x], b, next);
    assert x in a + [x];
    forall y | y in b
      ensures y.id < next && y.id != x.id && w != Var(y.id) && forall v :: v in y.args && v.Var? ==> v.id < next
    {
      assert InRange(y, next) && Ordered(x, y);
    }
  }

  lemma SubstMembers(b: seq<Instr>, d: nat, w: Value)
    ensures forall y' :: y' in Subst(b, d, w) ==> exists y :: y in b && y' == y.(args := SubstArgs(y.args, d, w))
  {
    var r := Subst(b, d, w);
    forall y' | y' in r ensures exists y :: y in b && y' == y.(args := SubstArgs(y.args, d, w)) {
      var i :| 0 <= i < |r| && r[i] == y';
      assert b[i] in b;
    }
  }

  lemma SubstArgsMembers(vs: seq<Value>, d: nat, w: Value)
    ensures forall v :: v in SubstArgs(vs, d, w) ==> (v in vs && v != Var(d)) || (v == w && Var(d) in vs)
  {
    var r := SubstArgs(vs, d, w);
    forall v | v in r ensures (v in vs && v != Var(d)) || (v == w && Var(d) in vs) {
      var i :| 0 <= i < |r| && r[i] == v;
      assert vs[i] in vs;
    }
  }

  /** A replacement keeps the block well formed. */
  lemma ReplaceWellFormed(a: seq<Instr>, x: Instr, b: seq<Instr>, news: seq<Instr>, w: Value, next: nat)
    requires Fitting(a, x, b, news, w, next)
    ensures WellFormed(a + news + Subst(b, x.id, w), next + |news|)
  {
    hide Ordered, InRange;
    WellFormedParts(a + [x], b, next);
    SubstWellFormed(a, x, b, news, w, next);
    SubstAfter(a + news, x, b, w);
    WellFormedJoin(a + news, Subst(b, x.id, w), next + |news|);
  }

  lemma SubstWellFormed(a: seq<Instr>, x: Instr, b: seq<Instr>, news: seq<Instr>, w: Value, next: nat)
    requires Fitting(a, x, b, news, w, next)
    ensures WellFormed(Subst(b, x.id, w), next + |news|)
  {
    var r := Subst(b, x.id, w);
    WellFormedParts(a + [x], b, next);
    assert x in a + [x];
    forall y' | y' in r ensures InRange(y', next + |news|) {
      SubstMembers(b, x.id, w);
      var y :| y in b && y' == y.(args := SubstArgs(y.args, x.id, w));
      SubstArgsMembers(y.args, x.id, w);
      assert InRange(y, next) && Ordered(x, y);
    }
    forall i, j | 0 <= i < j < |r| ensures Ordered(r[i], r[j]) {
      SubstArgsMembers(b[i].args, x.id, w);
      assert b[j] in b && Ordered(b[i], b[j]);
    }
  }

  lemma SubstAfter(a: seq<Instr>, x: Instr, b: seq<Instr>, w: Value)
    requires forall y, z :: y in a && z in b ==> Ordered(y, z)
    ensures forall y, z :: y in a && z in Subst(b, x.id, w) ==> Ordered(y, z)
  {
    SubstMembers(b, x.id, w);
    forall y, z' | y in a && z' in Subst(b, x.id, w) ensures Ordered(y, z') {
      var z :| z in b && z' == z.(args := SubstArgs(z.args, x.id, w));
      assert Ordered(y, z);
    }
  }

  lemma NewsWellFormed(x: Instr, news: seq<Instr>, next: nat)
    requires NewOk(news, x, next) && InRange(x, next)
    ensures WellFormed(news, next + |news|)
    ensures forall y :: y in news ==> y.id >= next && forall v :: v in y.args && v.Var? ==> v in x.args || v.id >= next
  {
    forall y | y in news ensures InRange(y, next + |news|) && y.id >= next && forall v :: v in y.args && v.Var? ==>
        v in x.args || v.id >= next {
      var i :| 0 <= i < |news| && news[i] == y;
      assert forall v :: v in y.args ==> From(v, x, next, next + i);
    }
    forall i, j | 0 <= i < j < |news| ensures Ordered(news[i], news[j]) {
      assert forall v :: v in news[i].args ==> From(v, x, next, next + i);
    }
  }

  lemma NewsAfter(a: seq<Instr>, news: seq<Instr>, next: nat)
    requires WellFormed(a, next) && forall y :: y in news ==> y.id >= next
    ensures forall y, z :: y in a && z in news ==> Ordered(y, z)
  {
    forall y, z | y in a && z in news ensures Ordered(y, z) {
      assert InRange(y, next);
    }
  }

  /** What a rule produces fits wherever the replaced instruction stands. */
  lemma RuleFits(o: Oracle, a: seq<Instr>, x: Instr, b: seq<Instr>, news: seq<Instr>, w: Value, next: nat)
    requires WellFormed(a + [x] + b, next) && Replaces(o, x, news, w, next)
    ensures Fitting(a, x, b, news, w, next)
  {
    hide Means;
    var top := next + |news|;
    WellFormedParts(a + [x], b, next);
    WellFormedParts(a, [x], next);
    WellFormedMore(a, next, top);
    NewsWellFormed(x, news, next);
    NewsAfter(a, news, next);
    WellFormedJoin(a, news, top);
    assert x in a + [x] && x in [x];
    forall y, z | y in a + news && z in b ensures Ordered(y, z) {
      assert InRange(z, next) && Ordered(x, z);
      if y in a { assert y in a + [x]; }
    }
    forall z | z in b && w.Var? ensures z.id != w.id {
      assert InRange(z, next) && Ordered(x, z);
    }
  }

  /** The block code does what code0 did: same effects, and the numbers below first have the same values, except that a
      replaced number lives on in what replaced it and a dead one is used nowhere any more. */
  ghost predicate Preserved(o: Oracle, code0: seq<Instr>, code: seq<Instr>, gone: map<nat, Value>, dead: set<nat>,
      first: nat) {
    forall s {:trigger Run(o, code0, s)} {:trigger Run(o, code, s)} :: Words(s) ==>
        Matches(Run(o, code0, s), Run(o, code, s), gone, dead, first)
  }

  ghost predicate Matches(t0: State, t: State, gone: map<nat, Value>, dead: set<nat>, first: nat) {
    && t0.trace == t.trace && t0.globals == t.globals
    && (forall id: nat :: id < first && id !in gone && id !in dead ==> Get(t0, id) == Get(t, id))
    && (forall d :: d in gone && d < first && d !in dead ==> Get(t0, d) == Eval(t, gone[d]))
  }

  /** Redirecting the uses of d also redirects those that replaced numbers live on in. */
  function Redirect(gone: map<nat, Value>, d: nat, w: Value): map<nat, Value> {
    map g | g in gone.Keys + {d} :: if g == d then w else SubstValue(gone[g], d, w)
  }

  ghost predicate GoneBelow(gone: map<nat, Value>, next: nat) {
    forall g :: g in gone && gone[g].Var? ==> gone[g].id < next
  }

  lemma PreservedStep(o: Oracle, code0: seq<Instr>, a: seq<Instr>, x: Instr, b: seq<Instr>, news: seq<Instr>, w: Value,
                      gone: map<nat, Value>, dead: set<nat>, first: nat, next: nat)
    requires Preserved(o, code0, a + [x] + b, gone, dead, first) && first <= next && x.id !in gone && x.id !in dead
    requires !x.op.Effect?
    requires Fitting(a, x, b, news, w, next) && MeansAfter(o, a, x, news, w, next) && GoneBelow(gone, next)
    ensures Preserved(o, code0, a + news + Subst(b, x.id, w), Redirect(gone, x.id, w), dead, first)
  {
    hide Fitting, MeansAfter, Matches;
    var code, code' := a + [x] + b, a + news + Subst(b, x.id, w);
    forall s | Words(s) ensures Matches(Run(o, code0, s), Run(o, code', s), Redirect(gone, x.id, w), dead, first) {
      ReplaceRuns(o, a, x, b, news, w, next, s);
      assert Matches(Run(o, code0, s), Run(o, code, s), gone, dead, first);
      MatchesStep(Run(o, code0, s), Run(o, code, s), Run(o, code', s), gone, dead, first, next, |news|, x.id, w);
    }
  }

  lemma MatchesStep(t0: State, t: State, t': State, gone: map<nat, Value>, dead: set<nat>, first: nat, next: nat,
      k: nat, d: nat, w: Value)
    requires Matches(t0, t, gone, dead, first) && first <= next && d !in gone && d !in dead && GoneBelow(gone, next)
    requires Agree(t, t', Range(next, next + k) + {d}) && Get(t, d) == Eval(t', w)
    ensures Matches(t0, t', Redirect(gone, d, w), dead, first)
  {
    var n := Range(next, next + k) + {d};
    var gone' := Redirect(gone, d, w);
    forall g | g in gone' && g < first && g !in dead ensures Get(t0, g) == Eval(t', gone'[g]) {
      if g != d && gone[g] != Var(d) {
        assert gone[g].Var? ==> gone[g].id !in n;
      }
    }
  }

  /** The instructions b neither use nor define a number of n. */
  ghost predicate Ignores(b: seq<Instr>, n: set<nat>) {
    forall x :: x in b ==> x.id !in n && forall v :: v in x.args && v.Var? ==> v.id !in n
  }

  lemma EvalsSame(s1: State, s2: State, n: set<nat>, vs: seq<Value>)
    requires Agree(s1, s2, n) && forall v :: v in vs && v.Var? ==> v.id !in n
    ensures Evals(s1, vs) == Evals(s2, vs)
  {
    forall i | 0 <= i < |vs| ensures Evals(s1, vs)[i] == Evals(s2, vs)[i] {
      assert vs[i] in vs;
    }
  }

  lemma {:induction false} IgnoringRuns(o: Oracle, b: seq<Instr>, n: set<nat>, s1: State, s2: State)
    requires Agree(s1, s2, n) && Ignores(b, n)
    ensures Agree(Run(o, b, s1), Run(o, b, s2), n)
    decreases b
  {
    hide ValueOf;
    if b != [] {
      var x := b[0];
      assert x in b;
      EvalsSame(s1, s2, n, x.args);
      IgnoringRuns(o, b[1..], n, Step(o, x, s1), Step(o, x, s2));
    }
  }

  /** Deleting an instruction without effect whose value nothing behind it uses. */
  lemma DeleteRuns(o: Oracle, a: seq<Instr>, x: Instr, b: seq<Instr>, s: State)
    requires !x.op.Effect? && Ignores(b, {x.id})
    ensures Agree(Run(o, a + [x] + b, s), Run(o, a + b, s), {x.id})
  {
    var s0 := Run(o, a, s);
    RunConcat(o, a + [x], b, s);
    RunConcat(o, a, [x], s);
    assert [x][1..] == [];
    RunConcat(o, a, b, s);
    IgnoringRuns(o, b, {x.id}, Step(o, x, s0), s0);
  }

  /** The numbers that die with d: itself and what lived on in it. */
  ghost function DyingWith(gone: map<nat, Value>, d: nat): set<nat> {
    (set g | g in gone && gone[g] == Var(d)) + {d}
  }

  lemma DeletePreserves(o: Oracle, code0: seq<Instr>, a: seq<Instr>, x: Instr, b: seq<Instr>, gone: map<nat, Value>,
      dead: set<nat>, first: nat)
    requires Preserved(o, code0, a + [x] + b, gone, dead, first) && !x.op.Effect? && Ignores(b, {x.id})
    ensures Preserved(o, code0, a + b, gone, dead + DyingWith(gone, x.id), first)
  {
    forall s | Words(s) ensures Matches(Run(o, code0, s), Run(o, a + b, s), gone, dead + DyingWith(gone, x.id), first) {
      DeleteRuns(o, a, x, b, s);
      var t0, t, t' := Run(o, code0, s), Run(o, a + [x] + b, s), Run(o, a + b, s);
      assert Matches(t0, t, gone, dead, first);
      forall g | g in gone && g < first && g !in dead + DyingWith(gone, x.id) ensures Get(t0, g) == Eval(t', gone[g]) {
        assert gone[g] != Var(x.id);
      }
    }
  }

  lemma DeleteWellFormed(a: seq<Instr>, x: Instr, b: seq<Instr>, next: nat)
    requires WellFormed(a + [x] + b, next)
    ensures WellFormed(a + b, next)
  {
    hide Ordered, InRange;
    WellFormedParts(a + [x], b, next);
    WellFormedParts(a, [x], next);
    forall y | y in a ensures y in a + [x] { }
    WellFormedJoin(a, b, next);
  }
}
