/** A function whose numbering ends in one order of addresses and never in another. */
module ValueSample {
  import opened Cfg
  import opened ValueTable
  import opened ValueOrder
  import opened ValueFlow
  import opened ValueWalk
  import opened ValueSearch
  import opened ValueAddress
  import opened ValueCircle
  import opened ValueRepeat
  import opened ValueWhole
  import opened Wrappers

  const BASE: Value := Fixed(0)
  const ZERO: Value := Const(0, 0)
  const ONE: Value := Const(1, 1)
  const TWO: Value := Const(2, 2)

  /** Instruction 1 stands in the entry, which dominates the join in which 2, 3 and 4 stand; 2 is equal to 1, and 3
      and 4 take 1 as operand. */
  ghost function Sample(keys: seq<nat>): Input {
    Input(Graph(0, map[0 := [1, 2], 1 := [2], 2 := []], map[0 := [], 1 := [0], 2 := [0, 1]]),
          map[1 := Instr(Gep, [BASE, ZERO, ZERO]), 2 := Instr(Gep, [BASE, ZERO, ZERO]),
              3 := Instr(Gep, [Var(1), ONE]), 4 := Instr(Gep, [Var(1), TWO])],
          map[0 := [1], 1 := [], 2 := [2, 3, 4]],
          keys)
  }

  ghost function SampleBefore(): Before {
    map[1 := {}, 2 := {1}, 3 := {1, 2}, 4 := {1, 2, 3}]
  }

  ghost function Scene(keys: seq<nat>): Context {
    Context(Sample(keys).code, map[], keys)
  }

  /** The tables of one scope with these address computations and other operands entered. */
  ghost function Join(geps: set<nat>, values: set<Value>): Tables {
    Tables([map[]], [map i | i in geps :: Var(i)], [map v | v in values :: v])
  }

  predicate IsLeaf(v: Value) {
    v == BASE || v == ZERO || v == ONE || v == TWO
  }

  ghost predicate Leaves(values: set<Value>) {
    forall v :: v in values ==> IsLeaf(v)
  }

  // The function meets what value numbering asks for.

  lemma EntryVisited(g: Graph, p: Path)
    requires IsPath(g, p)
    ensures Visits(g, p, g.entry)
  {
    if p.Then? { EntryVisited(g, p.front); }
  }

  lemma SamplePaths(keys: seq<nat>)
    ensures var g := Sample(keys).g; Reachable(g, 0) && Reachable(g, 1) && Reachable(g, 2)
    ensures var g := Sample(keys).g; StrictDom(g, 0, 2) && !StrictDom(g, 2, 2)
    ensures var g := Sample(keys).g; forall d :: !StrictDom(g, d, 0)
  {
    var g := Sample(keys).g;
    assert PathTo(g, Begin, 0);
    assert PathTo(g, Then(Begin, 1), 1);
    assert PathTo(g, Then(Begin, 2), 2);
    forall p | PathTo(g, p, 2) ensures Visits(g, p, 0) { EntryVisited(g, p); }
    forall d ensures !StrictDom(g, d, 0) { EntryAlone(g, d); }
  }

  lemma SampleAvail(keys: seq<nat>)
    ensures var x := Sample(keys);
            AvailIn(x.g, x.first, 0) == {} && AvailIn(x.g, x.first, 2) == {1}
  {
    hide StrictDom;
    SamplePaths(keys);
    var x := Sample(keys);
    assert 1 in x.first[0];
    forall d, y | d in x.first && StrictDom(x.g, d, 2) && y in x.first[d] ensures y == 1 { }
    assert 1 in AvailIn(x.g, x.first, 2);
  }

  lemma SamplePlaced(keys: seq<nat>)
    ensures var x := Sample(keys); forall y :: y in SampleBefore() ==> Placed(x.g, x.first, SampleBefore(), y)
  {
    hide AvailIn;
    var x := Sample(keys);
    SampleAvail(keys);
    assert At(x.first, 0, 0, 1) && x.first[0][..0] == [] && Ids(x.first[0][..0]) == {};
    assert At(x.first, 2, 0, 2) && x.first[2][..0] == [] && Ids(x.first[2][..0]) == {};
    assert At(x.first, 2, 1, 3) && x.first[2][..1] == [2] && Ids(x.first[2][..1]) == {2};
    assert At(x.first, 2, 2, 4) && x.first[2][..2] == [2, 3] && Ids(x.first[2][..2]) == {2, 3};
  }

  lemma SampleGraph(keys: seq<nat>)
    ensures var x := Sample(keys);
            && x.g.Valid() && x.g.preds[x.g.entry] == [] && x.first.Keys == x.g.succs.Keys == {0, 1, 2}
            && x.code.Keys == SampleBefore().Keys == {1, 2, 3, 4}
  {
    hide SingleEdges;
  }

  lemma SampleSingle(keys: seq<nat>)
    ensures SingleEdges(Sample(keys).g)
  {
  }

  lemma SamplePlaces(keys: seq<nat>, b: Block, k: nat, i: nat)
    requires At(Sample(keys).first, b, k, i)
    ensures (b == 0 && k == 0 && i == 1) || (b == 2 && k < 3 && i == k + 2)
  {
  }

  lemma SampleOperands(keys: seq<nat>)
    ensures var x := Sample(keys); forall i :: i in x.code ==>
                                     i in SampleBefore() && ArgsIn(x.code, i, SampleBefore()[i])
  {
  }

  lemma SampleInSsa(keys: seq<nat>)
    ensures var x := Sample(keys); InSsa(x.g, x.code, x.first, SampleBefore()) && SingleEdges(x.g)
  {
    hide Sample, SampleBefore, Placed, Reachable, StrictDom, AvailIn, At, ArgsIn, SingleEdges;
    var x := Sample(keys);
    SampleGraph(keys);
    SampleSingle(keys);
    SamplePaths(keys);
    SamplePlaced(keys);
    SampleOperands(keys);
    forall b, k: nat, i | At(x.first, b, k, i) ensures i in x.code { SamplePlaces(keys, b, k, i); }
    forall b, k: nat, c, j: nat, i | At(x.first, b, k, i) && At(x.first, c, j, i) ensures b == c && k == j {
      SamplePlaces(keys, b, k, i);
      SamplePlaces(keys, c, j, i);
    }
  }

  // Looking up its instructions.

  lemma SceneFits(keys: seq<nat>)
    ensures Fit(Scene(keys)) && Scene(keys).keys == Sample(keys).keys == keys && Scene(keys).code == Sample(keys).code
    ensures Scene(keys).gone == map[]
    ensures forall i: nat :: 1 <= i <= 4 ==>
              i in Scene(keys).code && IsGep(Scene(keys).code, Var(i)) && Var(i) in Pool(Scene(keys).code)
    ensures forall v :: IsLeaf(v) ==> v in Pool(Scene(keys).code)
  {
    hide Pool;
    ScenePool(keys);
  }

  lemma ScenePool(keys: seq<nat>)
    ensures forall i: nat :: 1 <= i <= 4 ==> i in Scene(keys).code && Var(i) in Pool(Scene(keys).code)
    ensures forall v :: IsLeaf(v) ==> v in Pool(Scene(keys).code)
  {
    var code := Scene(keys).code;
    assert code[1].args[0] in Pool(code) && code[1].args[1] in Pool(code);
    assert code[3].args[1] in Pool(code) && code[4].args[1] in Pool(code);
  }

  lemma SceneArgs(keys: seq<nat>)
    ensures var c := Scene(keys);
            && 1 in c.code && 2 in c.code && 3 in c.code && 4 in c.code
            && Args(c.code, 1, c.gone) == [BASE, ZERO, ZERO] && Args(c.code, 2, c.gone) == [BASE, ZERO, ZERO]
            && Args(c.code, 3, c.gone) == [Var(1), ONE] && Args(c.code, 4, c.gone) == [Var(1), TWO]
  {
  }

  /** The tables know what was entered, each as itself. */
  lemma JoinKnows(keys: seq<nat>, geps: set<nat>, values: set<Value>, v: Value)
    requires Leaves(values) && (IsLeaf(v) || (v.Var? && 1 <= v.id <= 4))
    ensures var t := Join(geps, values); Scoped(t) && |t.gep| == 1 && t.gep[0] == map i | i in geps :: Var(i)
    ensures OnTable(Scene(keys), Join(geps, values), v) ==
              if v in values || (v.Var? && v.id in geps) then Hit(v) else Missing
    ensures Knows(Scene(keys), Join(geps, values), v) <==> v in values || (v.Var? && v.id in geps)
  {
    var c, t := Scene(keys), Join(geps, values);
    KnowsIs(c, t, v);
    if v in values || (v.Var? && v.id in geps) {
      assert HitAt(c.code, c.gone, t, 0, v, v);
      assert Innermost(c.code, c.gone, t, v, v);
      OnTableIs(c, t, v, Hit(v));
    } else {
      OnTableIs(c, t, v, Missing);
    }
  }

  lemma EnterAddress(keys: seq<nat>, geps: set<nat>, values: set<Value>, i: nat)
    requires Fit(Scene(keys)) && Scoped(Join(geps, values)) && Leaves(values) && 1 <= i <= 4 && i !in geps
    ensures Enter(Scene(keys), Join(geps, values), Var(i)) == Ended(Join(geps + {i}, values), Var(i))
  {
    hide OnTable, Fit, Pool;
    SceneFits(keys);
    var u, w := PushOwn(Scene(keys).code, map[], Join(geps, values), Var(i)), Join(geps + {i}, values);
    assert u.gep[0] == w.gep[0];
    assert u.values == w.values && u.gep == w.gep && u.binary == w.binary;
    JoinKnows(keys, geps + {i}, values, Var(i));
  }

  lemma EnterLeaf(keys: seq<nat>, geps: set<nat>, values: set<Value>, v: Value)
    requires Fit(Scene(keys)) && Scoped(Join(geps, values)) && Leaves(values) && IsLeaf(v) && v !in values
    ensures Enter(Scene(keys), Join(geps, values), v) == Ended(Join(geps, values + {v}), v)
  {
    hide OnTable, Fit, Pool;
    var u, w := PushOwn(Scene(keys).code, map[], Join(geps, values), v), Join(geps, values + {v});
    assert u.values[0] == w.values[0];
    assert u.values == w.values && u.gep == w.gep && u.binary == w.binary;
    JoinKnows(keys, geps, values + {v}, v);
  }

  /** An operand that is no instruction is known from then on. */
  lemma LookLeaf(keys: seq<nat>, geps: set<nat>, values: set<Value>, v: Value, lim: Limit)
    requires Fit(Scene(keys)) && Scoped(Join(geps, values)) && Leaves(values) && IsLeaf(v)
    requires v in Pool(Scene(keys).code)
    ensures Leaves(values + {v}) && Look(Scene(keys), Join(geps, values), v, lim) == Ended(Join(geps, values + {v}), v)
  {
    hide Scene, Join, OnTable, Fit, Pool, Enter, Later;
    JoinKnows(keys, geps, values, v);
    if v in values {
      assert values + {v} == values;
    } else {
      EnterLeaf(keys, geps, values, v);
    }
  }

  /** The operands of 1 and 2. */
  lemma LookBase(keys: seq<nat>, geps: set<nat>, values: set<Value>, lim: Limit)
    requires Fit(Scene(keys)) && Scoped(Join(geps, values)) && Leaves(values)
    requires forall v :: v in [BASE, ZERO, ZERO] ==> v in Pool(Scene(keys).code)
    ensures LookAll(Scene(keys), Join(geps, values), [BASE, ZERO, ZERO], [], lim) ==
            Ended(Join(geps, values + {BASE, ZERO}), [BASE, ZERO, ZERO])
  {
    hide Scene, Join, OnTable, Fit, Pool, Look, Later, Leaves;
    var c, vs := Scene(keys), [BASE, ZERO, ZERO];
    var one, both := values + {BASE}, values + {BASE, ZERO};
    assert one + {ZERO} == both && both + {ZERO} == both;
    LookLeaf(keys, geps, values, BASE, lim);
    JoinKnows(keys, geps, one, ZERO);
    LookLeaf(keys, geps, one, ZERO, lim);
    JoinKnows(keys, geps, both, ZERO);
    LookLeaf(keys, geps, both, ZERO, lim);
    assert [] + [BASE] == [BASE] && [BASE] + [ZERO] == [BASE, ZERO] && [BASE, ZERO] + [ZERO] == vs;
    assert LookAll(c, Join(geps, both), vs, vs, lim) == Ended(Join(geps, both), vs);
    assert LookAll(c, Join(geps, both), vs, [BASE, ZERO], lim) == Ended(Join(geps, both), vs);
    assert LookAll(c, Join(geps, one), vs, [BASE], lim) == Ended(Join(geps, both), vs);
  }

  lemma {:induction false} ScanEmpty(keys: seq<nat>, values: set<Value>, ys: seq<Value>, k: nat, lim: Limit)
    requires Fit(Scene(keys)) && Scoped(Join({}, values)) && Leaves(values) && k <= |keys|
    ensures Scan(Scene(keys), Join({}, values), ys, Join({}, values).gep[0], 0, k, lim) == Ended(Join({}, values),
            Missing)
    decreases |keys| - k
  {
    hide Scene, Join, OnTable, Fit, Pool, LookAll, Later, Leaves;
    SceneFits(keys);
    JoinKnows(keys, {}, values, ZERO);
    if k < |keys| { ScanEmpty(keys, values, ys, k + 1, lim); }
  }

  /** In empty tables 1 and 2 are entered with their operands. */
  lemma LookFirst(keys: seq<nat>, i: nat, fuel: nat)
    requires Fit(Scene(keys)) && Scoped(Join({}, {})) && (i == 1 || i == 2) && fuel > 0
    requires Var(i) in Pool(Scene(keys).code)
    ensures Look(Scene(keys), Join({}, {}), Var(i), Fuel(fuel)) == Ended(Join({i}, {BASE, ZERO}), Var(i))
  {
    hide Scene, Join, OnTable, Fit, Pool, Later, LookAll, Scan, Enter;
    var ys, known := [BASE, ZERO, ZERO], {BASE, ZERO};
    SceneFits(keys);
    SceneArgs(keys);
    ArgsInPool(Scene(keys), i);
    JoinKnows(keys, {}, {}, Var(i));
    assert {} + known == known && {} + {i} == {i};
    LookBase(keys, {}, {}, Fuel(fuel - 1));
    JoinKnows(keys, {}, known, Var(i));
    ScanEmpty(keys, known, ys, 0, Fuel(fuel - 1));
    EnterAddress(keys, {}, known, i);
  }

  /** With 2 among the entered ones, and before 3 in the order if 3 is entered, 1 is read as 2. */
  lemma FirstIsSecond(keys: seq<nat>, geps: set<nat>, values: set<Value>, fuel: nat)
    requires Fit(Scene(keys)) && Scoped(Join(geps, values)) && Leaves(values) && {BASE, ZERO} <= values
    requires 2 in geps && 1 !in geps && fuel > 0 && Var(1) in Pool(Scene(keys).code)
    requires keys == [2, 3, 1, 4] || (keys == [3, 2, 1, 4] && 3 !in geps)
    ensures Look(Scene(keys), Join(geps, values), Var(1), Fuel(fuel)) == Ended(Join(geps, values), Var(2))
  {
    hide Scene, Join, OnTable, Fit, Pool, LookAll, Later, Leaves;
    var c, t, ys := Scene(keys), Join(geps, values), [BASE, ZERO, ZERO];
    SceneFits(keys);
    SceneArgs(keys);
    ArgsInPool(c, 1);
    assert values + {BASE, ZERO} == values;
    LookBase(keys, geps, values, Fuel(fuel - 1));
    JoinKnows(keys, geps, values, Var(1));
    var k := if keys[0] == 2 then 0 else 1;
    assert Scan(c, t, ys, t.gep[0], 0, k, Fuel(fuel - 1)) == Ended(t, Hit(Var(2)));
    assert Scan(c, t, ys, t.gep[0], 0, 0, Fuel(fuel - 1)) == Ended(t, Hit(Var(2)));
  }

  /** The operands of 3 and 4 are read as 2 and a constant, which is known from then on. */
  lemma ThirdArgs(keys: seq<nat>, geps: set<nat>, values: set<Value>, index: Value, fuel: nat)
    requires Fit(Scene(keys)) && Scoped(Join(geps, values)) && Leaves(values) && {BASE, ZERO} <= values
    requires 2 in geps && 1 !in geps && fuel > 0 && (index == ONE || index == TWO)
    requires keys == [2, 3, 1, 4] || (keys == [3, 2, 1, 4] && 3 !in geps)
    requires forall v :: v in [Var(1), index] ==> v in Pool(Scene(keys).code)
    ensures Leaves(values + {index})
    ensures LookAll(Scene(keys), Join(geps, values), [Var(1), index], [], Fuel(fuel)) ==
            Ended(Join(geps, values + {index}), [Var(2), index])
  {
    hide Scene, Join, OnTable, Fit, Pool, Look, Later, Leaves;
    var c, t, u := Scene(keys), Join(geps, values), Join(geps, values + {index});
    var vs, ys := [Var(1), index], [Var(2), index];
    FirstIsSecond(keys, geps, values, fuel);
    LookLeaf(keys, geps, values, index, Fuel(fuel));
    JoinKnows(keys, geps, values + {index}, index);
    assert [] + [Var(2)] == [Var(2)] && [Var(2)] + [index] == ys;
    assert LookAll(c, u, vs, ys, Fuel(fuel)) == Ended(u, ys);
    assert LookAll(c, t, vs, [Var(2)], Fuel(fuel)) == Ended(u, ys);
  }

  /** None of the entered ones has the values ys as operands. */
  lemma {:induction false} ScanNone(keys: seq<nat>, geps: set<nat>, values: set<Value>, ys: seq<Value>, k: nat,
      fuel: nat)
    requires Fit(Scene(keys)) && Scoped(Join(geps, values)) && Leaves(values) && {BASE, ZERO} <= values
    requires 2 in geps && geps <= {2, 3} && (3 in geps ==> ONE in values) && fuel > 0 && k <= 4
    requires keys == [2, 3, 1, 4] || (keys == [3, 2, 1, 4] && 3 !in geps)
    requires ys == [Var(2), TWO] || (ys == [Var(2), ONE] && 3 !in geps)
    ensures Scan(Scene(keys), Join(geps, values), ys, Join(geps, values).gep[0], 0, k, Fuel(fuel)) ==
            Ended(Join(geps, values), Missing)
    decreases 4 - k
  {
    hide Scene, Join, OnTable, Fit, Pool, Later, Leaves, LookAll;
    SceneFits(keys);
    SceneArgs(keys);
    JoinKnows(keys, geps, values, ONE);
    if k < 4 {
      ScanNone(keys, geps, values, ys, k + 1, fuel);
      if keys[k] in geps {
        ArgsInPool(Scene(keys), keys[k]);
        if keys[k] == 2 {
          assert values + {BASE, ZERO} == values;
          LookBase(keys, geps, values, Fuel(fuel));
        } else {
          assert values + {ONE} == values;
          ThirdArgs(keys, geps, values, ONE, fuel);
        }
      }
    }
  }

  /** 3 and then 4 are entered when looked up, if the search ends. */
  lemma LookNext(keys: seq<nat>, geps: set<nat>, values: set<Value>, i: nat, fuel: nat)
    requires Fit(Scene(keys)) && Scoped(Join(geps, values)) && Leaves(values) && {BASE, ZERO} <= values && fuel > 1
    requires 2 in geps && geps <= {2, 3} && (3 in geps ==> ONE in values) && Var(i) in Pool(Scene(keys).code)
    requires keys == [2, 3, 1, 4] || (keys == [3, 2, 1, 4] && 3 !in geps)
    requires (i == 3 && 3 !in geps) || i == 4
    ensures Look(Scene(keys), Join(geps, values), Var(i), Fuel(fuel)) ==
            Ended(Join(geps + {i}, values + {if i == 3 then ONE else TWO}), Var(i))
  {
    hide Scene, Join, OnTable, Fit, Pool, Later, Scan, LookAll, Enter, Leaves;
    var index := if i == 3 then ONE else TWO;
    SceneFits(keys);
    SceneArgs(keys);
    ArgsInPool(Scene(keys), i);
    JoinKnows(keys, geps, values, Var(i));
    ThirdArgs(keys, geps, values, index, fuel - 1);
    JoinKnows(keys, geps, values + {index}, Var(i));
    ScanNone(keys, geps, values + {index}, [Var(2), index], 0, fuel - 1);
    EnterAddress(keys, geps, values + {index}, i);
  }

  /** With 3 before 2 looking 1 up comes to 3 first, whose operand it is. */
  lemma FirstNever(n: nat)
    requires var keys := [3, 2, 1, 4];
             Fit(Scene(keys)) && Scoped(Join({2, 3}, {BASE, ZERO, ONE})) && Var(1) in Pool(Scene(keys).code)
    ensures Look(Scene([3, 2, 1, 4]), Join({2, 3}, {BASE, ZERO, ONE}), Var(1), Fuel(n)).Spent?
  {
    hide Scene, Join, OnTable, Knows, Fit, Pool, Later, Held, Look, OnlyMissing;
    var keys, values := [3, 2, 1, 4], {BASE, ZERO, ONE};
    var c, t := Scene(keys), Join({2, 3}, values);
    SceneFits(keys);
    SceneArgs(keys);
    JoinKnows(keys, {2, 3}, values, Var(1));
    JoinKnows(keys, {2, 3}, values, BASE);
    JoinKnows(keys, {2, 3}, values, ZERO);
    OneMissing(keys);
    assert NeedsFirst(c, t, [Var(1), ONE], Var(1)) by { assert AllKnown(c, t, [Var(1), ONE][..0]); }
    assert ComesTo(c, t, Held(c, t, [BASE, ZERO, ZERO]), t.gep[0], 0, 0, Var(1));
    MissingEnds(c, t, 1, n);
  }

  lemma OneMissing(keys: seq<nat>)
    ensures var t := Join({2, 3}, {BASE, ZERO, ONE}); OnlyMissing(Scene(keys), t, t.gep[0], Var(1))
  {
    hide Scene, Join, OnTable, Knows;
    var values := {BASE, ZERO, ONE};
    SceneArgs(keys);
    JoinKnows(keys, {2, 3}, values, BASE);
    JoinKnows(keys, {2, 3}, values, ZERO);
    JoinKnows(keys, {2, 3}, values, ONE);
  }

  /** So does looking 4 up, which begins with its operand 1. */
  lemma FourthNever(n: nat)
    requires var keys := [3, 2, 1, 4];
             Fit(Scene(keys)) && Scoped(Join({2, 3}, {BASE, ZERO, ONE})) && Var(4) in Pool(Scene(keys).code)
    ensures Look(Scene([3, 2, 1, 4]), Join({2, 3}, {BASE, ZERO, ONE}), Var(4), Fuel(n)).Spent?
  {
    hide Scene, Join, OnTable, Knows, Fit, Pool, Later;
    var keys, values := [3, 2, 1, 4], {BASE, ZERO, ONE};
    SceneFits(keys);
    SceneArgs(keys);
    JoinKnows(keys, {2, 3}, values, Var(4));
    ArgsInPool(Scene(keys), 4);
    if n > 0 {
      FirstNever(n - 1);
      assert LookAll(Scene(keys), Join({2, 3}, values), [Var(1), TWO], [], Fuel(n - 1)).Spent?;
    }
  }

  // Numbering it.

  lemma Opening()
    ensures PushScope(Tables([], [], [])) == Join({}, {}) == Tables([map[]], [map[]], [map[]])
  {
  }

  /** Looking up goes the same way in the pass. */
  lemma OneIs(keys: seq<nat>, t: Tables, i: nat, n: nat, u: Tables)
    requires Fit(Scene(keys)) && Scoped(t) && 1 <= i <= 4 && Var(i) in Pool(Scene(keys).code)
    ensures Look(Scene(keys), t, Var(i), Fuel(n)) == Ended(u, Var(i)) ==>
              NumberOne(Sample(keys), t, map[], i, Deep(n)) == Some((u, map[]))
    ensures Look(Scene(keys), t, Var(i), Fuel(n)).Spent? ==> NumberOne(Sample(keys), t, map[], i, Deep(n)).None?
  {
    hide Sample, Scoped, Fit, Pool, Look, Deleted;
    SceneFits(keys);
  }

  /** The join: with 3 before 2 its third instruction is never numbered. */
  lemma JoinNumbered(keys: seq<nat>, n: nat)
    requires n > 1 && (keys == [2, 3, 1, 4] || keys == [3, 2, 1, 4])
    ensures NumberList(Sample(keys), Join({}, {}), map[], [2, 3, 4], 0, Deep(n)) ==
            if keys[0] == 2 then Some((Join({2, 3, 4}, {BASE, ZERO, ONE, TWO}), map[])) else None
  {
    hide Sample, Scene, Join, Fit, Pool, Look, NumberOne;
    var x, t2, t3 := Sample(keys), Join({2}, {BASE, ZERO}), Join({2, 3}, {BASE, ZERO, ONE});
    var t4, ds := Join({2, 3, 4}, {BASE, ZERO, ONE, TWO}), [2, 3, 4];
    assert {2} + {3} == {2, 3} && {2, 3} + {4} == {2, 3, 4};
    assert {BASE, ZERO} + {ONE} == {BASE, ZERO, ONE} && {BASE, ZERO, ONE} + {TWO} == {BASE, ZERO, ONE, TWO};
    SceneFits(keys);
    JoinKnows(keys, {}, {}, ZERO);
    JoinKnows(keys, {2}, {BASE, ZERO}, ZERO);
    JoinKnows(keys, {2, 3}, {BASE, ZERO, ONE}, ZERO);
    LookFirst(keys, 2, n);
    OneIs(keys, Join({}, {}), 2, n, t2);
    LookNext(keys, {2}, {BASE, ZERO}, 3, n);
    OneIs(keys, t2, 3, n, t3);
    if keys[0] == 2 { LookNext(keys, {2, 3}, {BASE, ZERO, ONE}, 4, n); } else { FourthNever(n); }
    OneIs(keys, t3, 4, n, t4);
    assert NumberList(x, t4, map[], ds, 3, Deep(n)) == Some((t4, map[]));
    assert NumberList(x, t3, map[], ds, 2, Deep(n)) == if keys[0] == 2 then Some((t4, map[])) else None;
    assert NumberList(x, t2, map[], ds, 1, Deep(n)) == if keys[0] == 2 then Some((t4, map[])) else None;
  }

  lemma EntryNumbered(keys: seq<nat>, n: nat)
    requires n > 0
    ensures NumberList(Sample(keys), Join({}, {}), map[], [1], 0, Deep(n)) == Some((Join({1}, {BASE, ZERO}), map[]))
  {
    hide Sample, Scene, Join, Fit, Pool, Look, NumberOne;
    var t := Join({1}, {BASE, ZERO});
    SceneFits(keys);
    JoinKnows(keys, {}, {}, ZERO);
    LookFirst(keys, 1, n);
    OneIs(keys, Join({}, {}), 1, n, t);
    assert NumberList(Sample(keys), t, map[], [1], 1, Deep(n)) == Some((t, map[]));
  }

  lemma PopOwn(t: Tables, gone: map<nat, Value>, order: seq<Block>, visited: set<Block>, queue: seq<Block>)
    requires t.binary != [] && t.gep != [] && t.values != []
    ensures PopScope(PushScope(t)) == t
    ensures Closed(Some(Progress(PushScope(t), gone, order, visited, queue))) == Some(Progress(t, gone, order, visited,
            queue))
  {
    assert (t.binary + [map[]])[..|t.binary|] == t.binary && (t.gep + [map[]])[..|t.gep|] == t.gep;
    assert (t.values + [map[]])[..|t.values|] == t.values;
  }

  lemma PopJoin(geps: set<nat>, values: set<Value>, gone: map<nat, Value>, order: seq<Block>, visited: set<Block>,
      queue: seq<Block>)
    ensures Closed(Some(Progress(Join(geps, values), gone, order, visited, queue))) ==
            Some(Progress(Tables([], [], []), gone, order, visited, queue))
  {
  }

  lemma SampleEdges(keys: seq<nat>)
    ensures var x := Sample(keys);
            && x.g.entry == 0 && x.g.succs.Keys == x.g.preds.Keys == x.first.Keys == {0, 1, 2}
            && x.g.succs[0] == [1, 2] && x.g.succs[1] == [2] && x.g.succs[2] == []
            && |x.g.preds[1]| == 1 && |x.g.preds[2]| == 2
            && x.first[0] == [1] && x.first[1] == [] && x.first[2] == [2, 3, 4]
  {
  }

  /** The block between the entry and the join: it is empty, and queues the join. */
  lemma MiddleNumbered(keys: seq<nat>, t: Tables, n: nat)
    requires t.binary != [] && t.gep != [] && t.values != []
    ensures NumberTree(Sample(keys), Progress(t, map[], [0], {0}, []), 1, Deep(n)) ==
            Some(Progress(t, map[], [0, 1], {0, 1, 2}, [2]))
  {
    hide Sample, NumberTree, NumberBelow, PushScope, PopScope;
    var x, u := Sample(keys), PushScope(t);
    SampleEdges(keys);
    assert [0] + [1] == [0, 1] && {0} + {1} == {0, 1} && {0, 1} + {2} == {0, 1, 2} && [] + [2] == [2];
    var p, q := Progress(u, map[], [0, 1], {0, 1}, []), Progress(u, map[], [0, 1], {0, 1, 2}, [2]);
    TreeBegins(x, Progress(t, map[], [0], {0}, []), 1, Deep(n), p);
    BelowJoin(x, p, 1, 0, Deep(n), q);
    BelowEnds(x, q, 1, Deep(n));
    PopOwn(t, map[], [0, 1], {0, 1, 2}, [2]);
  }

  /** The entry with the block below it. */
  lemma FrontNumbered(keys: seq<nat>, n: nat)
    requires n > 0
    ensures NumberTree(Sample(keys), Progress(Tables([], [], []), map[], [], {}, []), 0, Deep(n)) ==
            Some(Progress(Tables([], [], []), map[], [0, 1], {0, 1, 2}, [2]))
  {
    hide Sample, NumberTree, NumberBelow, NumberList, PushScope, PopScope, Join;
    var x, t := Sample(keys), Join({1}, {BASE, ZERO});
    SampleEdges(keys);
    Opening();
    EntryNumbered(keys, n);
    JoinKnows(keys, {1}, {BASE, ZERO}, ZERO);
    assert [] + [0] == [0] && {} + {0} == {0};
    var p, q := Progress(t, map[], [0], {0}, []), Progress(t, map[], [0, 1], {0, 1, 2}, [2]);
    TreeBegins(x, Progress(Tables([], [], []), map[], [], {}, []), 0, Deep(n), p);
    MiddleNumbered(keys, t, n);
    BelowChild(x, p, 0, 0, Deep(n), Some(q));
    BelowJoin(x, q, 0, 1, Deep(n), q);
    BelowEnds(x, q, 0, Deep(n));
    PopJoin({1}, {BASE, ZERO}, map[], [0, 1], {0, 1, 2}, [2]);
  }

  lemma BackNumbered(keys: seq<nat>, n: nat)
    requires n > 1 && (keys == [2, 3, 1, 4] || keys == [3, 2, 1, 4])
    ensures NumberTree(Sample(keys), Progress(Tables([], [], []), map[], [0, 1], {0, 1, 2}, []), 2, Deep(n)) ==
            if keys[0] == 2 then Some(Progress(Tables([], [], []), map[], [0, 1, 2], {0, 1, 2}, [])) else None
  {
    hide Sample, NumberTree, NumberBelow, NumberList, PushScope, PopScope, Join;
    var x, p := Sample(keys), Progress(Tables([], [], []), map[], [0, 1], {0, 1, 2}, []);
    SampleEdges(keys);
    Opening();
    JoinNumbered(keys, n);
    if keys[0] == 2 {
      var t := Join({2, 3, 4}, {BASE, ZERO, ONE, TWO});
      assert [0, 1] + [2] == [0, 1, 2] && {0, 1, 2} + {2} == {0, 1, 2};
      var q := Progress(t, map[], [0, 1, 2], {0, 1, 2}, []);
      TreeBegins(x, p, 2, Deep(n), q);
      BelowEnds(x, q, 2, Deep(n));
      PopJoin({2, 3, 4}, {BASE, ZERO, ONE, TWO}, map[], [0, 1, 2], {0, 1, 2}, []);
    } else {
      TreeFails(x, p, 2, Deep(n));
    }
  }

  lemma SampleNumbered(keys: seq<nat>, n: nat)
    requires n > 1 && (keys == [2, 3, 1, 4] || keys == [3, 2, 1, 4])
    ensures Numbering(Sample(keys), Deep(n)).Some? <==> keys[0] == 2
  {
    hide Sample, NumberTree, NumberAll;
    var x := Sample(keys);
    SampleEdges(keys);
    var one, two: seq<Block> := [0], [2];
    assert one[1..] == [] && two[1..] == [];
    var q := Progress(Tables([], [], []), map[], [0, 1], {0, 1, 2}, two);
    FrontNumbered(keys, n);
    AllStep(x, Beginning(x), Deep(n), Some(q));
    BackNumbered(keys, n);
    var r := Progress(Tables([], [], []), map[], [0, 1, 2], {0, 1, 2}, []);
    AllStep(x, q, Deep(n), if keys[0] == 2 then Some(r) else None);
    AllEnds(x, r, Deep(n));
  }

  /** One function in two orders of addresses. In both 2 is entered into the empty tables of the join, then 3, whose
      operand 1 is read as 2. With 3 before 2 no look-up of 4 ends, and so the function is never numbered; with 2 before
      3 it is. */
  lemma OrderDecides(n: nat)
    ensures forall keys :: var x := Sample(keys); InSsa(x.g, x.code, x.first, SampleBefore()) && SingleEdges(x.g)
    ensures var bad, good := [3, 2, 1, 4], [2, 3, 1, 4];
            && Distinct(bad) && Distinct(good) && Ids(bad) == Sample(bad).code.Keys &&
                Ids(good) == Sample(good).code.Keys
    ensures (forall keys :: Fit(Scene(keys))) && forall geps, values :: Leaves(values) ==> Scoped(Join(geps, values))
    ensures forall keys, i: nat :: 1 <= i <= 4 ==> Var(i) in Pool(Scene(keys).code)
    ensures n > 1 ==> forall keys :: keys in {[3, 2, 1, 4], [2, 3, 1, 4]} ==>
              && Look(Scene(keys), Tables([map[]], [map[]], [map[]]), Var(2), Fuel(n)) == Ended(Join({2}, {BASE, ZERO}),
                  Var(2))
              && Look(Scene(keys), Join({2}, {BASE, ZERO}), Var(3), Fuel(n)) == Ended(Join({2, 3}, {BASE, ZERO, ONE}),
                  Var(3))
    ensures Look(Scene([3, 2, 1, 4]), Join({2, 3}, {BASE, ZERO, ONE}), Var(4), Fuel(n)).Spent?
    ensures n > 1 ==> Look(Scene([2, 3, 1, 4]), Join({2, 3}, {BASE, ZERO, ONE}), Var(4), Fuel(n)) ==
                      Ended(Join({2, 3, 4}, {BASE, ZERO, ONE, TWO}), Var(4))
    ensures Numbering(Sample([3, 2, 1, 4]), Deep(n)).None? && (n > 1 ==> Numbering(Sample([2, 3, 1, 4]), Deep(n)).Some?)
  {
    hide Sample, SampleBefore, Scene, Join, OnTable, Knows, Fit, Pool, Look, Numbering, InSsa, SingleEdges, Scoped,
        Nesting;
    forall keys
      ensures var x := Sample(keys); InSsa(x.g, x.code, x.first, SampleBefore()) && SingleEdges(x.g)
    {
      SampleInSsa(keys);
    }
    forall keys ensures Fit(Scene(keys)) { SceneFits(keys); }
    forall keys, i: nat | 1 <= i <= 4 ensures Var(i) in Pool(Scene(keys).code) { SceneFits(keys); }
    forall geps, values | Leaves(values) ensures Scoped(Join(geps, values)) { JoinKnows([], geps, values, BASE); }
    var m := if n > 1 then n else 2;
    SampleKeys([3, 2, 1, 4]);
    SampleKeys([2, 3, 1, 4]);
    SampleNumbered([2, 3, 1, 4], m);
    NeverNumbered(n);
    FourthNever(n);
    if n > 1 {
      JoinLooks([3, 2, 1, 4], n);
      JoinLooks([2, 3, 1, 4], n);
    }
  }

  lemma SampleKeys(keys: seq<nat>)
    requires keys == [3, 2, 1, 4] || keys == [2, 3, 1, 4]
    ensures Distinct(keys) && Ids(keys) == Sample(keys).code.Keys
  {
    assert Ids(keys) == {1, 2, 3, 4} == Sample(keys).code.Keys;
  }

  /** A small depth would give the same as a large one. */
  lemma NeverNumbered(n: nat)
    ensures Numbering(Sample([3, 2, 1, 4]), Deep(n)).None?
  {
    hide Sample, Numbering, Nesting, Pool;
    var x := Sample([3, 2, 1, 4]);
    var m := Enough(x.code) + 2;
    SampleNumbered([3, 2, 1, 4], m);
    NumberingEnds(x, m);
    NumberingEnds(x, n);
  }

  lemma JoinLooks(keys: seq<nat>, n: nat)
    requires n > 1 && (keys == [2, 3, 1, 4] || keys == [3, 2, 1, 4])
    requires Fit(Scene(keys)) && forall i: nat :: 1 <= i <= 4 ==> Var(i) in Pool(Scene(keys).code)
    ensures forall geps, values :: Leaves(values) ==> Scoped(Join(geps, values))
    ensures Scoped(Tables([map[]], [map[]], [map[]]))
    ensures Look(Scene(keys), Tables([map[]], [map[]], [map[]]), Var(2), Fuel(n)) == Ended(Join({2}, {BASE, ZERO}),
            Var(2))
    ensures Look(Scene(keys), Join({2}, {BASE, ZERO}), Var(3), Fuel(n)) == Ended(Join({2, 3}, {BASE, ZERO, ONE}),
            Var(3))
    ensures keys[0] == 2 ==> Look(Scene(keys), Join({2, 3}, {BASE, ZERO, ONE}), Var(4), Fuel(n)) ==
                             Ended(Join({2, 3, 4}, {BASE, ZERO, ONE, TWO}), Var(4))
  {
    hide Scene, Join, OnTable, Knows, Fit, Pool, Look;
    forall geps, values | Leaves(values) ensures Scoped(Join(geps, values)) { JoinKnows([], geps, values, BASE); }
    assert {2} + {3} == {2, 3} && {2, 3} + {4} == {2, 3, 4};
    assert {BASE, ZERO} + {ONE} == {BASE, ZERO, ONE} && {BASE, ZERO, ONE} + {TWO} == {BASE, ZERO, ONE, TWO};
    Opening();
    LookFirst(keys, 2, n);
    LookNext(keys, {2}, {BASE, ZERO}, 3, n);
    if keys[0] == 2 { LookNext(keys, {2, 3}, {BASE, ZERO, ONE}, 4, n); }
  }

  // Three copies of one sum.

  const LEFT: Value := Fixed(0)
  const RIGHT: Value := Fixed(1)
  const SUM: Instr := Instr(Binary(0, false), [LEFT, RIGHT])
  const SUM_KEY: Key := Key(LEFT, RIGHT, Binary(0, false))

  ghost function Copies(): Input {
    Input(Graph(0, map[0 := []], map[0 := []]), map[1 := SUM, 2 := SUM, 3 := SUM], map[0 := [1, 2, 3]], [1, 2, 3])
  }

  ghost function CopyScene(gone: map<nat, Value>): Context {
    Context(Copies().code, gone, [1, 2, 3])
  }

  /** One scope with these sums and operands. */
  ghost function CopyTables(sums: map<Key, Value>, values: set<Value>): Tables {
    Tables([sums], [map[]], [map v | v in values :: v])
  }

  ghost predicate CopyState(gone: map<nat, Value>, sums: map<Key, Value>, values: set<Value>) {
    (gone == map[] || gone == map[2 := Var(1)]) && sums.Keys <= {SUM_KEY} && values <= {LEFT, RIGHT}
  }

  lemma CopiesFit(gone: map<nat, Value>)
    requires gone == map[] || gone == map[2 := Var(1)]
    ensures var c := CopyScene(gone);
      && Fit(c) && LEFT in Pool(c.code) && RIGHT in Pool(c.code)
      && forall i :: i in {1, 2, 3} ==> Var(i) in Pool(c.code) && i in c.code && Args(c.code, i, gone) == [LEFT, RIGHT]
  {
    var code := Copies().code;
    assert code[1].args[0] in Pool(code) && code[1].args[1] in Pool(code);
    assert Var(1) in Pool(code) && Var(2) in Pool(code) && Var(3) in Pool(code);
  }

  lemma CopyKnown(gone: map<nat, Value>, sums: map<Key, Value>, values: set<Value>, v: Value)
    requires CopyState(gone, sums, values) && (v == LEFT || v == RIGHT || (v.Var? && v.id in {1, 2, 3}))
    ensures Scoped(CopyTables(sums, values))
    ensures OnTable(CopyScene(gone), CopyTables(sums, values), v) ==
              if v.Var? then if SUM_KEY in sums then Hit(sums[SUM_KEY]) else Missing
              else if v in values then Hit(v) else Missing
  {
    var c, t := CopyScene(gone), CopyTables(sums, values);
    var r := if v.Var? then if SUM_KEY in sums then Hit(sums[SUM_KEY]) else Missing
             else if v in values then Hit(v) else Missing;
    if v.Var? { assert KeyOf(c.code, gone, v.id) == SUM_KEY; }
    if r.Hit? {
      assert HitAt(c.code, gone, t, 0, v, r.value);
      assert Innermost(c.code, gone, t, v, r.value);
    }
    OnTableIs(c, t, v, r);
  }

  lemma CopyLeaf(gone: map<nat, Value>, sums: map<Key, Value>, values: set<Value>, v: Value, lim: Limit)
    requires CopyState(gone, sums, values) && (v == LEFT || v == RIGHT)
    requires Fit(CopyScene(gone)) && Scoped(CopyTables(sums, values)) && v in Pool(CopyScene(gone).code)
    ensures Look(CopyScene(gone), CopyTables(sums, values), v, lim) == Ended(CopyTables(sums, values + {v}), v)
  {
    hide OnTable, Fit, Pool, Later;
    var c, t, u := CopyScene(gone), CopyTables(sums, values), CopyTables(sums, values + {v});
    CopyKnown(gone, sums, values, v);
    CopyKnown(gone, sums, values + {v}, v);
    if v in values {
      assert values + {v} == values;
    } else {
      var w := PushOwn(c.code, gone, t, v);
      assert w.values[0] == u.values[0];
      assert w == u;
    }
  }

  /** Looking up a copy that is not known enters it. */
  lemma CopyEntered(gone: map<nat, Value>, values: set<Value>, i: nat, fuel: nat)
    requires CopyState(gone, map[], values) && i in {1, 2, 3} && fuel > 0
    requires Fit(CopyScene(gone)) && Scoped(CopyTables(map[], values)) && Var(i) in Pool(CopyScene(gone).code)
    ensures Look(CopyScene(gone), CopyTables(map[], values), Var(i), Fuel(fuel)) ==
            Ended(CopyTables(map[SUM_KEY := Var(i)], {LEFT, RIGHT}), Var(i))
  {
    hide OnTable, Fit, Pool, Later, LookAll, CopyTables;
    var c, t := CopyScene(gone), CopyTables(map[], values);
    var u, all := CopyTables(map[], {LEFT, RIGHT}), [LEFT, RIGHT];
    CopiesFit(gone);
    CopyKnown(gone, map[], values, Var(i));
    CopyArgs(gone, values, Fuel(fuel - 1));
    CopyKnown(gone, map[], {LEFT, RIGHT}, Var(i));
    CopyKnown(gone, map[SUM_KEY := Var(i)], {LEFT, RIGHT}, Var(i));
    CopyPushed(gone, i);
  }

  lemma CopyArgs(gone: map<nat, Value>, values: set<Value>, lim: Limit)
    requires CopyState(gone, map[], values) && Fit(CopyScene(gone)) && Scoped(CopyTables(map[], values))
    requires LEFT in Pool(CopyScene(gone).code) && RIGHT in Pool(CopyScene(gone).code)
    ensures LookAll(CopyScene(gone), CopyTables(map[], values), [LEFT, RIGHT], [], lim) ==
            Ended(CopyTables(map[], {LEFT, RIGHT}), [LEFT, RIGHT])
  {
    hide OnTable, Fit, Pool, Later, Look, CopyTables;
    var c, one, both := CopyScene(gone), values + {LEFT}, {LEFT, RIGHT};
    assert values + {LEFT} + {RIGHT} == both;
    CopyLeaf(gone, map[], values, LEFT, lim);
    CopyKnown(gone, map[], one, RIGHT);
    CopyLeaf(gone, map[], one, RIGHT, lim);
    CopyKnown(gone, map[], both, RIGHT);
    assert [] + [LEFT] == [LEFT] && [LEFT] + [RIGHT] == [LEFT, RIGHT];
    assert LookAll(c, CopyTables(map[], both), [LEFT, RIGHT], [LEFT, RIGHT], lim) ==
           Ended(CopyTables(map[], both), [LEFT, RIGHT]);
    assert LookAll(c, CopyTables(map[], one), [LEFT, RIGHT], [LEFT], lim) ==
           Ended(CopyTables(map[], both), [LEFT, RIGHT]);
  }

  lemma CopyPushed(gone: map<nat, Value>, i: nat)
    requires gone == map[] || gone == map[2 := Var(1)]
    requires i in {1, 2, 3}
    ensures FirstKey(CopyTables(map[], {LEFT, RIGHT}).binary, SUM_KEY, 0) == Missing
    ensures PushOwn(CopyScene(gone).code, gone, CopyTables(map[], {LEFT, RIGHT}), Var(i)) ==
            CopyTables(map[SUM_KEY := Var(i)], {LEFT, RIGHT})
  {
    var t := CopyTables(map[], {LEFT, RIGHT});
    FirstKeyIs(t.binary, SUM_KEY, 0);
    assert PushOwn(CopyScene(gone).code, gone, t, Var(i)).binary == [map[SUM_KEY := Var(i)]];
  }

  /** The second copy of a sum is replaced, which erases the entry of the first, so the third one stays. */
  lemma ThirdCopyStays(fuel: nat)
    requires fuel > 0
    ensures var x := Copies();
      var r := NumberList(x, CopyTables(map[], {}), map[], [1, 2, 3], 0, Deep(fuel));
      r.Some? && r.value.1 == map[2 := Var(1)]
    ensures var code, gone := Copies().code, map[2 := Var(1)];
      Repeats(code, gone, 1, 3) && !Stands(code, gone, [1, 2, 3], 0, 2) && RepeatsGone(code, gone, [1, 2, 3], 3)
  {
    hide Fit, Pool, Look, NumberOne, RepeatsGone, Erases;
    var x, no, gone := Copies(), map[], map[2 := Var(1)];
    var empty, both, ds, bound := CopyTables(map[], {}), {LEFT, RIGHT}, [1, 2, 3], Deep(fuel);
    var first, third := CopyTables(map[SUM_KEY := Var(1)], both), CopyTables(map[SUM_KEY := Var(3)], both);
    var erased := CopyTables(map[], both);
    FirstCopy(fuel);
    SecondCopy(fuel);
    ThirdCopy(fuel);
    ListStep(x, empty, no, ds, 0, bound, first, no);
    ListStep(x, first, no, ds, 1, bound, erased, gone);
    ListStep(x, erased, gone, ds, 2, bound, third, gone);
    assert NumberList(x, third, gone, ds, 3, bound) == Some((third, gone));
    CopiesErase();
  }

  lemma FirstCopy(fuel: nat)
    requires fuel > 0
    ensures NumberOne(Copies(), CopyTables(map[], {}), map[], 1, Deep(fuel)) ==
            Some((CopyTables(map[SUM_KEY := Var(1)], {LEFT, RIGHT}), map[]))
  {
    hide Fit, Pool, Look;
    CopiesFit(map[]);
    CopyKnown(map[], map[], {}, Var(1));
    CopyEntered(map[], {}, 1, fuel);
  }

  lemma SecondCopy(fuel: nat)
    ensures NumberOne(Copies(), CopyTables(map[SUM_KEY := Var(1)], {LEFT, RIGHT}), map[], 2, Deep(fuel)) ==
            Some((CopyTables(map[], {LEFT, RIGHT}), map[2 := Var(1)]))
  {
    hide Fit, Pool, Later, OnTable;
    var t := CopyTables(map[SUM_KEY := Var(1)], {LEFT, RIGHT});
    CopiesFit(map[]);
    CopyKnown(map[], map[SUM_KEY := Var(1)], {LEFT, RIGHT}, Var(2));
    assert KeyOf(Copies().code, map[], 2) == SUM_KEY;
    assert Deleted(Copies().code, map[], t, 2).binary == [map[]];
  }

  lemma ThirdCopy(fuel: nat)
    requires fuel > 0
    ensures NumberOne(Copies(), CopyTables(map[], {LEFT, RIGHT}), map[2 := Var(1)], 3, Deep(fuel)) ==
            Some((CopyTables(map[SUM_KEY := Var(3)], {LEFT, RIGHT}), map[2 := Var(1)]))
  {
    hide Fit, Pool, Look;
    var gone := map[2 := Var(1)];
    CopiesFit(gone);
    CopyKnown(gone, map[], {LEFT, RIGHT}, Var(3));
    CopyEntered(gone, {LEFT, RIGHT}, 3, fuel);
  }

  lemma CopiesErase()
    ensures var code, gone := Copies().code, map[2 := Var(1)];
      Repeats(code, gone, 1, 3) && !Stands(code, gone, [1, 2, 3], 0, 2) && RepeatsGone(code, gone, [1, 2, 3], 3)
  {
    var code, gone, ds := Copies().code, map[2 := Var(1)], [1, 2, 3];
    assert ds[1] == 2 && Erases(code, gone, ds[0], ds[1]);
  }
}
