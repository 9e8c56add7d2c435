/** Look-ups that never end: an address computation that is not in the tables, though something equal may be, and that
    an entered one takes as operand. Whether looking it up ends is decided by which key comes first. */
module ValueCircle {
  import opened ValueTable
  import opened ValueOrder
  import opened ValueSearch
  import opened ValueAddress

  ghost predicate AllKnown(c: Context, t: Tables, vs: seq<Value>) {
    forall v :: v in vs ==> Knows(c, t, v)
  }

  /** What the tables hold for values they know. */
  ghost function Held(c: Context, t: Tables, vs: seq<Value>): seq<Value> {
    seq(|vs|, k requires 0 <= k < |vs| => if OnTable(c, t, vs[k]).Hit? then OnTable(c, t, vs[k]).value else vs[k])
  }

  /** All operands are known up to the first that is not, which is o. */
  ghost predicate NeedsFirst(c: Context, t: Tables, vs: seq<Value>, o: Value) {
    exists k :: 0 <= k < |vs| && vs[k] == o && AllKnown(c, t, vs[..k])
  }

  /** From key k of scope n on, a key with the operand o comes before every key whose operands have the values ys. */
  ghost predicate ComesTo(c: Context, t: Tables, ys: seq<Value>, scope: map<nat, Value>, n: nat, k: nat, o: Value)
    decreases |t.gep| - n, |c.keys| - k
  {
    if n >= |t.gep| then false
    else if k >= |c.keys| then ComesTo(c, t, ys, if n + 1 < |t.gep| then t.gep[n + 1] else map[], n + 1, 0, o)
    else
      var j := c.keys[k];
      if j !in scope || j !in c.code then ComesTo(c, t, ys, scope, n, k + 1, o)
      else
        var args := Args(c.code, j, c.gone);
        NeedsFirst(c, t, args, o) || (Held(c, t, args) != ys && ComesTo(c, t, ys, scope, n, k + 1, o))
  }

  /** The operands of the entered address computations are known, except for o. */
  ghost predicate OnlyMissing(c: Context, t: Tables, scope: map<nat, Value>, o: Value) {
    forall j, v :: j in scope && j in c.code && v in Args(c.code, j, c.gone) ==> v == o || Knows(c, t, v)
  }

  lemma {:induction false} KnownAll(c: Context, t: Tables, vs: seq<Value>, ys: seq<Value>, lim: Limit)
    requires Fit(c) && Scoped(t) && |ys| <= |vs| && ys == Held(c, t, vs)[..|ys|] && AllKnown(c, t, vs) &&
        forall v :: v in vs ==> v in Pool(c.code)
    ensures LookAll(c, t, vs, ys, lim) == Ended(t, Held(c, t, vs))
    decreases |vs| - |ys|
  {
    hide Fit, Pool, OnTable, Later, Knows;
    var held := Held(c, t, vs);
    if |ys| < |vs| {
      KnowsIs(c, t, vs[|ys|]);
      assert held[..|ys| + 1] == held[..|ys|] + [held[|ys|]];
      KnownAll(c, t, vs, ys + [OnTable(c, t, vs[|ys|]).value], lim);
    } else {
      assert held[..|ys|] == held;
    }
  }

  lemma {:induction false} NeedsStuck(c: Context, t: Tables, vs: seq<Value>, ys: seq<Value>, o: Value, k: nat,
      lim: Limit)
    requires Fit(c) && Scoped(t) && |ys| <= k < |vs| && vs[k] == o && AllKnown(c, t, vs[..k])
    requires forall v :: v in vs ==> v in Pool(c.code)
    requires Look(c, t, o, lim).Spent?
    ensures LookAll(c, t, vs, ys, lim).Spent?
    decreases |vs| - |ys|
  {
    hide Fit, Pool, OnTable, Later, Knows;
    if |ys| < k {
      assert vs[|ys|] == vs[..k][|ys|];
      KnowsIs(c, t, vs[|ys|]);
      NeedsStuck(c, t, vs, ys + [OnTable(c, t, vs[|ys|]).value], o, k, lim);
    }
  }

  lemma FirstOfMissing(c: Context, t: Tables, vs: seq<Value>, o: Value, m: nat)
    requires (forall v :: v in vs ==> v == o || Knows(c, t, v)) && m <= |vs| && AllKnown(c, t, vs[..m])
    ensures AllKnown(c, t, vs) || NeedsFirst(c, t, vs, o)
    decreases |vs| - m
  {
    hide Knows;
    if m < |vs| {
      assert vs[m] in vs;
      if Knows(c, t, vs[m]) {
        assert vs[..m + 1] == vs[..m] + [vs[m]];
        FirstOfMissing(c, t, vs, o, m + 1);
      }
    } else {
      assert vs[..m] == vs;
    }
  }

  /** The scan gets stuck at a key with the operand o exactly when one comes before everything equal. */
  lemma {:induction false} ScanComesTo(c: Context, t: Tables, ys: seq<Value>, scope: map<nat, Value>, n: nat, k: nat,
      o: Value, lim: Limit)
    requires Fit(c) && Scoped(t) && !Knows(c, t, o) && o in Pool(c.code)
    requires OnlyMissing(c, t, scope, o) && forall m :: 0 <= m < |t.gep| ==> OnlyMissing(c, t, t.gep[m], o)
    ensures ComesTo(c, t, ys, scope, n, k, o) && Look(c, t, o, lim).Spent? ==> Scan(c, t, ys, scope, n, k, lim).Spent?
    ensures !ComesTo(c, t, ys, scope, n, k, o) ==> Scan(c, t, ys, scope, n, k, lim).Ended?
    decreases |t.gep| - n, |c.keys| - k
  {
    hide Fit, Pool, OnTable, Later, Knows, Held, LookAll, Look, AllKnown, NeedsFirst;
    if n < |t.gep| {
      if k >= |c.keys| {
        ScanComesTo(c, t, ys, if n + 1 < |t.gep| then t.gep[n + 1] else map[], n + 1, 0, o, lim);
      } else if c.keys[k] !in scope || c.keys[k] !in c.code {
        ScanComesTo(c, t, ys, scope, n, k + 1, o, lim);
      } else {
        var j := c.keys[k];
        var args := Args(c.code, j, c.gone);
        ArgsInPool(c, j);
        ScanComesTo(c, t, ys, scope, n, k + 1, o, lim);
        KeyComesTo(c, t, args, o, lim);
      }
    }
  }

  lemma KeyComesTo(c: Context, t: Tables, vs: seq<Value>, o: Value, lim: Limit)
    requires Fit(c) && Scoped(t) && !Knows(c, t, o) && o in Pool(c.code)
    requires forall v :: v in vs ==> v in Pool(c.code) && (v == o || Knows(c, t, v))
    ensures NeedsFirst(c, t, vs, o) && Look(c, t, o, lim).Spent? ==> LookAll(c, t, vs, [], lim).Spent?
    ensures !NeedsFirst(c, t, vs, o) ==> LookAll(c, t, vs, [], lim) == Ended(t, Held(c, t, vs))
  {
    hide Fit, Pool, OnTable, Later, Knows, Held, LookAll, Look;
    if NeedsFirst(c, t, vs, o) && Look(c, t, o, lim).Spent? {
      var k :| 0 <= k < |vs| && vs[k] == o && AllKnown(c, t, vs[..k]);
      NeedsStuck(c, t, vs, [], o, k, lim);
    }
    if !NeedsFirst(c, t, vs, o) {
      FirstOfMissing(c, t, vs, o, 0);
      KnownAll(c, t, vs, [], lim);
    }
  }

  /** Looking up a missing address computation when nothing else is missing: it ends exactly when no entered one takes
      it as operand, up to the first that is equal to it. */
  lemma {:induction false} MissingEnds(c: Context, t: Tables, i: nat, fuel: nat)
    requires Fit(c) && Scoped(t) && IsGep(c.code, Var(i)) && Var(i) in Pool(c.code) && !Knows(c, t, Var(i))
    requires AllKnown(c, t, Args(c.code, i, c.gone))
    requires forall n :: 0 <= n < |t.gep| ==> OnlyMissing(c, t, t.gep[n], Var(i))
    ensures fuel > 0 ==> (Look(c, t, Var(i), Fuel(fuel)).Ended? <==>
        !ComesTo(c, t, Held(c, t, Args(c.code, i, c.gone)), t.gep[0], 0, 0, Var(i)))
    ensures Look(c, t, Var(i), Fuel(0)).Spent?
  {
    hide Fit, Pool, OnTable, Later, Knows, Held, LookAll, OnlyMissing, AllKnown, PushOwn, Scan, ComesTo;
    var args := Args(c.code, i, c.gone);
    KnowsIs(c, t, Var(i));
    if fuel > 0 {
      ArgsInPool(c, i);
      KnownAllFrom(c, t, args, Fuel(fuel - 1));
      ScanComesTo(c, t, Held(c, t, args), t.gep[0], 0, 0, Var(i), Fuel(fuel - 1));
      MissingEnds(c, t, i, fuel - 1);
    }
  }

  lemma KnownAllFrom(c: Context, t: Tables, vs: seq<Value>, lim: Limit)
    requires Fit(c) && Scoped(t) && AllKnown(c, t, vs) && forall v :: v in vs ==> v in Pool(c.code)
    ensures LookAll(c, t, vs, [], lim) == Ended(t, Held(c, t, vs))
  {
    hide Fit, Pool, OnTable, Later, Knows, LookAll, AllKnown;
    KnownAll(c, t, vs, [], lim);
  }
}
