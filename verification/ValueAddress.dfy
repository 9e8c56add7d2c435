/** Address computations that take other address computations as operands: when looking them up ends. */
module ValueAddress {
  import opened ValueTable
  import opened ValueOrder
  import opened ValueSearch

  // What the tables hold.

  /** No two constants of one scope have the same name. */
  ghost predicate OneName(t: Tables) {
    forall n, v, w ::
      && 0 <= n < |t.values| && v in t.values[n] && w in t.values[n]
      && v.Const? && w.Const? && v.name == w.name ==>
        v == w
  }

  /** An address computation stands for itself. */
  ghost predicate Selves(code: Code, s: map<nat, Value>) {
    forall i :: i in s ==> s[i] == Var(i) && IsGep(code, Var(i))
  }

  /** Instructions were replaced by instructions, and only address computations by address computations. */
  ghost predicate GoneKinds(code: Code, gone: map<nat, Value>) {
    forall d :: d in gone ==> gone[d].Var? && gone[d].id in code && (IsGep(code, gone[d]) <==> IsGep(code, Var(d)))
  }

  ghost predicate Tidy(code: Code, t: Tables) {
    && OneName(t)
    && (forall n, k :: 0 <= n < |t.binary| && k in t.binary[n] ==> IsBinary(code, t.binary[n][k]))
    && (forall n :: 0 <= n < |t.gep| ==> Selves(code, t.gep[n]))
  }

  lemma InnermostOne(code: Code, gone: map<nat, Value>, t: Tables, v: Value, r: Value, s: Value)
    requires OneName(t) && Innermost(code, gone, t, v, r) && Innermost(code, gone, t, v, s)
    ensures r == s
  {
    var n: nat :| HitAt(code, gone, t, n, v, r) && NoneInside(code, gone, t, n + 1, v);
    var m: nat :| HitAt(code, gone, t, m, v, s) && NoneInside(code, gone, t, m + 1, v);
    assert n == m;
  }

  /** Finding by scopes is what the search relies on. */
  lemma OnTableIs(c: Context, t: Tables, v: Value, r: Found)
    requires OneName(t)
    requires r.Missing? ==> NoneInside(c.code, c.gone, t, 0, v)
    requires r.Hit? ==> Innermost(c.code, c.gone, t, v, r.value)
    ensures OnTable(c, t, v) == r
  {
    hide Innermost, NoneInside;
    KnowsIs(c, t, v);
    if r.Hit? { InnermostOne(c.code, c.gone, t, v, r.value, OnTable(c, t, v).value); }
  }

  lemma NameKnown(code: Code, gone: map<nat, Value>, t: Tables, n: nat, v: Value, w: Value)
    requires |t.binary| == |t.gep| == |t.values| && n < |t.values| && w in t.values[n] && v.Const? && w.Const?
    requires v.name == w.name
    ensures !NoneInside(code, gone, t, 0, v)
  {
    var s := t.values[n];
    assert HitAt(code, gone, t, n, v, if v in s then s[v] else s[w]);
  }

  lemma PushTidy(code: Code, gone: map<nat, Value>, t: Tables, v: Value)
    requires Tidy(code, t) && |t.binary| == |t.gep| == |t.values| && t.binary != []
    requires v.Var? && v.id in code && code[v.id].op.Binary? ==> |code[v.id].args| == 2
    requires v.Const? ==> NoneInside(code, gone, t, 0, v)
    ensures Tidy(code, PushOwn(code, gone, t, v))
  {
    if v.Const? {
      forall w | w in t.values[|t.values| - 1] && w.Const? ensures w.name != v.name {
        if w.name == v.name { NameKnown(code, gone, t, |t.values| - 1, v, w); }
      }
    }
  }

  lemma TidyNames(code: Code, t: Tables)
    requires Tidy(code, t)
    ensures OneName(t)
  {
  }

  lemma TidyScope(code: Code, t: Tables, n: nat)
    requires Tidy(code, t) && n < |t.gep|
    ensures Selves(code, t.gep[n])
  {
  }

  /** Both are address computations or both are not; r is an instruction. */
  ghost predicate SameKind(code: Code, v: Value, r: Value) {
    r.Var? && r.id in code && (IsGep(code, r) <==> IsGep(code, v))
  }

  lemma FoundKind(code: Code, gone: map<nat, Value>, t: Tables, v: Value, r: Value)
    requires Tidy(code, t) && Innermost(code, gone, t, v, r)
    requires v.Var? && v.id in code && code[v.id].op.Binary? ==> |code[v.id].args| == 2
    ensures IsNumbered(code, v) ==> SameKind(code, v, r)
    ensures IsGep(code, v) ==> r == v
  {
    var n: nat :| HitAt(code, gone, t, n, v, r);
  }

  lemma KeyKind(code: Code, t: Tables, n: nat, k: Key)
    requires Tidy(code, t) && n < |t.binary| && k in t.binary[n]
    ensures t.binary[n][k].Var? && t.binary[n][k].id in code && !IsGep(code, t.binary[n][k])
  {
  }

  /** What a search for instruction i gives: a value in the tables, or i itself. */
  ghost predicate Finds(s: Search<Found>, ok: bool, t: Tables, i: nat, r: Value) {
    if ok then s.Ended? && s.t == t && r == (if s.r.Hit? then s.r.value else Var(i)) else s.Spent?
  }

  lemma SceneFits(f: Interp, code: Code, before: Before, gone: map<nat, Value>, avail: set<nat>, t: Tables,
      keys: seq<nat>)
    requires Ready(f, code, before, gone, avail, t) && GoneKinds(code, gone)
    ensures Fit(Context(code, gone, keys)) && Scoped(t)
  {
    hide Ready, Sound;
    ReadyParts(f, code, before, gone, avail, t);
    forall d | d in gone ensures gone[d] in Pool(code) { assert gone[d] == Var(gone[d].id); }
  }

  lemma WithinTidy(code: Code, r: Tables, t: Tables)
    requires Within(r, t) && Tidy(code, t)
    ensures Tidy(code, r)
  {
  }

  lemma PushScopeTidy(code: Code, t: Tables)
    requires Tidy(code, t)
    ensures Tidy(code, PushScope(t))
  {
  }

  lemma PopScopeTidy(code: Code, t: Tables)
    requires Tidy(code, t) && t.binary != [] && t.gep != [] && t.values != []
    ensures Tidy(code, PopScope(t))
  {
  }

  // Operands that are found at once.

  ghost predicate InGep(t: Tables, i: nat) {
    exists n :: 0 <= n < |t.gep| && i in t.gep[n]
  }

  ghost predicate Present(code: Code, t: Tables, v: Value) {
    IsGep(code, v) ==> InGep(t, v.id)
  }

  /** The address computations among the present operands of i are in the tables. */
  ghost predicate Settled(c: Context, t: Tables, i: nat)
    requires i in c.code
  {
    forall v :: v in Args(c.code, i, c.gone) ==> Present(c.code, t, v)
  }

  /** Only address computations take address computations, and those in the tables have them in the tables. */
  ghost predicate Calm(c: Context, t: Tables) {
    && (forall i, v :: i in c.code && c.code[i].op.Binary? && v in Args(c.code, i, c.gone) ==> !IsGep(c.code, v))
    && (forall j :: InGep(t, j) && j in c.code ==> Settled(c, t, j))
    && (forall n :: 0 <= n < |t.gep| ==> Selves(c.code, t.gep[n]))
  }

  /** Operands and what replaced something come earlier. */
  ghost predicate Downward(c: Context, before: Before) {
    && Ordered(c.code, before)
    && (forall d :: d in c.gone && c.gone[d].Var? ==> d in before && c.gone[d].id in before[d])
  }

  /** How deep looking up v nests. */
  ghost function Need(before: Before, v: Value): nat {
    if v.Var? && v.id in before then |before[v.id]| + 1 else 0
  }

  lemma ArgNeed(c: Context, before: Before, i: nat, v: Value)
    requires Downward(c, before) && i in c.code && c.code[i].op.Numbered() && v in Args(c.code, i, c.gone)
    ensures i in before && Need(before, v) <= |before[i]| < |c.code|
  {
    var k :| 0 <= k < |c.code[i].args| && v == Args(c.code, i, c.gone)[k];
    var arg := c.code[i].args[k];
    assert arg in c.code[i].args && i in before;
    ProperSize(before[i], c.code.Keys, i);
    if v.Var? && v.id in before {
      assert v.id in before[i];
      ProperSize(before[v.id], before[i], v.id);
    }
  }

  lemma PresentKnown(c: Context, t: Tables, v: Value)
    requires Scoped(t) && IsGep(c.code, v) && InGep(t, v.id)
    ensures Knows(c, t, v)
  {
    var n: nat :| n < |t.gep| && v.id in t.gep[n];
    assert HitAt(c.code, c.gone, t, n, v, t.gep[n][v.id]);
  }

  lemma SameGepCalm(c: Context, t: Tables, u: Tables)
    requires Calm(c, t) && u.gep == t.gep
    ensures Calm(c, u) && forall j :: InGep(t, j) ==> InGep(u, j)
  {
    assert forall j :: InGep(t, j) <==> InGep(u, j);
    forall j | InGep(u, j) && j in c.code ensures Settled(c, u, j) { assert Settled(c, t, j); }
  }

  lemma FinishKeepsGep(c: Context, t: Tables, v: Value, found: Found)
    requires Fit(c) && Scoped(t) && !IsGep(c.code, v)
    ensures Finish(c, t, v, found).Ended? && Finish(c, t, v, found).t.gep == t.gep
    ensures found.Missing? ==> Finish(c, t, v, found) == Enter(c, t, v)
  {
    hide Pool, OnTable;
  }

  /** Looking up something that is no address computation, or one in the tables, ends and enters none. */
  lemma {:induction false} CalmLook(c: Context, before: Before, t: Tables, v: Value, fuel: nat)
    requires Fit(c) && Scoped(t) && v in Pool(c.code) && Downward(c, before) && Calm(c, t)
    requires Present(c.code, t, v) && fuel >= Need(before, v)
    ensures Look(c, t, v, Fuel(fuel)).Ended? && Look(c, t, v, Fuel(fuel)).t.gep == t.gep
    decreases fuel, 0, 0
  {
    hide Fit, Pool, Later, OnTable, Calm, Downward, LookAll, Finish, Knows, FirstKey;
    KnowsIs(c, t, v);
    if OnTable(c, t, v).Missing? {
      if IsGep(c.code, v) { PresentKnown(c, t, v); }
      FinishKeepsGep(c, t, v, Missing);
      if IsNumbered(c.code, v) {
        var args := Args(c.code, v.id, c.gone);
        BinaryArgs(c, before, t, v.id);
        ArgsInPool(c, v.id);
        CalmAll(c, before, t, args, [], fuel - 1);
        var s := LookAll(c, t, args, [], Fuel(fuel - 1));
        LaterParts(c, t, s.t);
        var r := FindInstr(c, t, v.id, Fuel(fuel - 1));
        FinishKeepsGep(c, s.t, v, r.r);
      }
    }
  }

  lemma BinaryArgs(c: Context, before: Before, t: Tables, i: nat)
    requires Calm(c, t) && Downward(c, before) && i in c.code && c.code[i].op.Binary?
    ensures i in before
    ensures forall v :: v in Args(c.code, i, c.gone) ==> Present(c.code, t, v) && Need(before, v) <= |before[i]|
  {
    hide Downward, Settled, Need;
    DownwardIn(c, before, i);
    forall v | v in Args(c.code, i, c.gone) ensures Need(before, v) <= |before[i]| { ArgNeed(c, before, i, v); }
  }

  lemma DownwardIn(c: Context, before: Before, i: nat)
    requires Downward(c, before) && i in c.code
    ensures i in before
  {
  }

  lemma {:induction false} CalmAll(c: Context, before: Before, t: Tables, vs: seq<Value>, ys: seq<Value>, fuel: nat)
    requires Fit(c) && Scoped(t) && |ys| <= |vs| && Downward(c, before) && Calm(c, t)
    requires forall v :: v in vs ==> v in Pool(c.code) && Present(c.code, t, v) && Need(before, v) <= fuel
    ensures LookAll(c, t, vs, ys, Fuel(fuel)).Ended? && LookAll(c, t, vs, ys, Fuel(fuel)).t.gep == t.gep
    decreases fuel, 1, |vs| - |ys|
  {
    hide Fit, Pool, Later, Calm, Downward, Look, Need;
    if |ys| < |vs| {
      CalmLook(c, before, t, vs[|ys|], fuel);
      var s := Look(c, t, vs[|ys|], Fuel(fuel));
      LaterParts(c, t, s.t);
      SameGepCalm(c, t, s.t);
      CalmAll(c, before, s.t, vs, ys + [s.r], fuel);
    }
  }

  /** Going through the tables ends, and what is found is in them. */
  lemma {:induction false} CalmScan(c: Context, before: Before, t: Tables, ys: seq<Value>, scope: map<nat, Value>,
      n: nat, k: nat, fuel: nat)
    requires Fit(c) && Scoped(t) && Downward(c, before) && Calm(c, t) && fuel >= |c.code|
    requires Selves(c.code, scope) && forall j :: j in scope ==> InGep(t, j)
    ensures var s := Scan(c, t, ys, scope, n, k, Fuel(fuel));
            s.Ended? && s.t.gep == t.gep && (s.r.Hit? ==> s.r.value.Var? && InGep(t, s.r.value.id))
    decreases |t.gep| - n, |c.keys| - k
  {
    hide Fit, Pool, Later, Calm, Downward, LookAll, InGep;
    if n < |t.gep| {
      if k >= |c.keys| {
        var next: map<nat, Value> := if n + 1 < |t.gep| then t.gep[n + 1] else map[];
        if n + 1 < |t.gep| { ScopeCalm(c, t, n + 1); }
        CalmScan(c, before, t, ys, next, n + 1, 0, fuel);
      } else if c.keys[k] !in scope || c.keys[k] !in c.code {
        CalmScan(c, before, t, ys, scope, n, k + 1, fuel);
      } else {
        var args := Args(c.code, c.keys[k], c.gone);
        ArgsInPool(c, c.keys[k]);
        KeyArgs(c, before, t, c.keys[k]);
        CalmAll(c, before, t, args, [], fuel);
        var s := LookAll(c, t, args, [], Fuel(fuel));
        LaterParts(c, t, s.t);
        SameGepCalm(c, t, s.t);
        CalmScan(c, before, s.t, ys, scope, n, k + 1, fuel);
        assert InGep(t, c.keys[k]);
        InGepSame(t, s.t);
      }
    }
  }

  lemma InGepSame(t: Tables, u: Tables)
    requires t.gep == u.gep
    ensures forall j :: InGep(t, j) <==> InGep(u, j)
  {
  }

  lemma ScopeCalm(c: Context, t: Tables, n: nat)
    requires Calm(c, t) && n < |t.gep|
    ensures Selves(c.code, t.gep[n]) && forall j :: j in t.gep[n] ==> InGep(t, j)
  {
  }

  lemma KeyArgs(c: Context, before: Before, t: Tables, j: nat)
    requires Calm(c, t) && Downward(c, before) && InGep(t, j) && j in c.code
    ensures forall v :: v in Args(c.code, j, c.gone) ==> Present(c.code, t, v) && Need(before, v) <= |c.code|
  {
    hide Downward, InGep;
    assert Settled(c, t, j);
    assert c.code[j].op.Numbered() by { KeyIsGep(c, t, j); }
    forall v | v in Args(c.code, j, c.gone) ensures Need(before, v) <= |c.code| { ArgNeed(c, before, j, v); }
  }

  lemma KeyIsGep(c: Context, t: Tables, j: nat)
    requires Calm(c, t) && InGep(t, j)
    ensures IsGep(c.code, Var(j))
  {
    var n :| 0 <= n < |t.gep| && j in t.gep[n];
    assert Selves(c.code, t.gep[n]);
  }

  /** Looking up a settled address computation ends: either it is in the tables afterwards, or they are as they were
      and what was found is in them. */
  lemma CalmAddress(c: Context, before: Before, t: Tables, i: nat, fuel: nat)
    requires Fit(c) && Scoped(t) && Downward(c, before) && Calm(c, t) && fuel > |c.code|
    requires IsGep(c.code, Var(i)) && !InGep(t, i) && Settled(c, t, i) && Var(i) in Pool(c.code)
    ensures var s := Look(c, t, Var(i), Fuel(fuel));
            s.Ended? && (s.r != Var(i) ==> s.t.gep == t.gep && s.r.Var? && InGep(t, s.r.id)) &&
            (s.r == Var(i) ==> s.t.gep == Insert(t.gep, i, Var(i)))
  {
    hide Fit, Pool, Later, OnTable, Calm, Downward, LookAll, Scan, Knows, InGep, PushOwn, Insert;
    var v := Var(i);
    KnowsIs(c, t, v);
    AbsentUnknown(c, t, i);
    var args := Args(c.code, i, c.gone);
    ArgsInPool(c, i);
    AddressArgs(c, before, t, i);
    CalmAll(c, before, t, args, [], fuel - 1);
    var s := LookAll(c, t, args, [], Fuel(fuel - 1));
    LaterParts(c, t, s.t);
    SameGepCalm(c, t, s.t);
    InGepSame(t, s.t);
    ScopeCalm(c, s.t, 0);
    CalmScan(c, before, s.t, s.r, s.t.gep[0], 0, 0, fuel - 1);
    var r := Scan(c, s.t, s.r, s.t.gep[0], 0, 0, Fuel(fuel - 1));
    LaterParts(c, s.t, r.t);
    InGepSame(t, r.t);
    EnterAddress(c, r.t, i);
    if r.r.Hit? { assert InGep(t, r.r.value.id) && !InGep(t, i); }
  }

  lemma AbsentUnknown(c: Context, t: Tables, i: nat)
    requires Scoped(t) && IsGep(c.code, Var(i)) && !InGep(t, i)
    ensures !Knows(c, t, Var(i))
  {
  }

  lemma AddressArgs(c: Context, before: Before, t: Tables, i: nat)
    requires Downward(c, before) && i in c.code && c.code[i].op.Gep? && Settled(c, t, i)
    ensures forall v :: v in Args(c.code, i, c.gone) ==> Present(c.code, t, v) && Need(before, v) <= |c.code|
  {
    hide Downward, InGep;
    forall v | v in Args(c.code, i, c.gone) ensures Need(before, v) <= |c.code| { ArgNeed(c, before, i, v); }
  }

  /** An address computation that is entered is found as itself. */
  lemma EnterAddress(c: Context, t: Tables, i: nat)
    requires Fit(c) && Scoped(t) && IsGep(c.code, Var(i)) && !InGep(t, i)
    ensures Enter(c, t, Var(i)).t.gep == Insert(t.gep, i, Var(i)) && Enter(c, t, Var(i)).r == Var(i)
  {
    hide Pool, InGep;
    var u := PushOwn(c.code, c.gone, t, Var(i));
    NotInScope(t, i);
    KnowsIs(c, u, Var(i));
    EnteredKnown(c, t, Var(i));
    var r := OnTable(c, u, Var(i)).value;
    var n: nat :| HitAt(c.code, c.gone, u, n, Var(i), r);
  }

  lemma NotInScope(t: Tables, i: nat)
    requires !InGep(t, i)
    ensures forall n :: 0 <= n < |t.gep| ==> i !in t.gep[n]
  {
  }
}
