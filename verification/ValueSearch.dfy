/** The search of value numbering for what stands for a value: looking up an instruction looks up its operands, and
    looking up an address computation also looks up the operands of the address computations in the tables, in the
    order in which they stand there. */
module ValueSearch {
  import opened ValueTable
  import opened ValueOrder

  datatype Found = Missing | Hit(value: Value)

  /** The tables a search leaves and what it found; Spent when it reached its limit. */
  datatype Search<T> = Spent | Ended(t: Tables, r: T)

  /** A limit on how deep look-ups of instructions nest: their number, or that none is looked up inside itself while
      the tables stay as they are; busy are those begun with the tables seen. */
  datatype Limit = Fuel(left: nat) | Watch(seen: Tables, busy: set<nat>)

  /** The instructions, what was replaced, and the instructions in the order of their addresses, which is the order
      of the keys in a table. */
  datatype Context = Context(code: Code, gone: map<nat, Value>, keys: seq<nat>)

  /** All values that can be looked up. */
  ghost function Pool(code: Code): set<Value> {
    (set i | i in code :: Var(i)) + (set i, k | i in code && 0 <= k < |code[i].args| :: code[i].args[k])
  }

  ghost predicate Fit(c: Context) {
    && (forall i :: i in c.code && c.code[i].op.Binary? ==> |c.code[i].args| == 2)
    && (forall d :: d in c.gone ==> c.gone[d] in Pool(c.code))
  }

  ghost predicate Scoped(t: Tables) {
    |t.binary| == |t.gep| == |t.values| && t.binary != []
  }

  predicate IsNumbered(code: Code, v: Value) {
    v.Var? && v.id in code && code[v.id].op.Numbered()
  }

  /** What the innermost scope that knows v holds for it. */
  ghost function OnTable(c: Context, t: Tables, v: Value): Found {
    if exists r :: Innermost(c.code, c.gone, t, v, r) then
      var r :| Innermost(c.code, c.gone, t, v, r);
      Hit(r)
    else
      Missing
  }

  ghost predicate Knows(c: Context, t: Tables, v: Value) {
    !NoneInside(c.code, c.gone, t, 0, v)
  }

  ghost function Unfound(c: Context, t: Tables): set<Value> {
    set v | v in Pool(c.code) && !Knows(c, t, v)
  }

  /** Entries stay, and whatever was entered is found from then on. */
  ghost predicate Kept(t: Tables, u: Tables) {
    && |u.binary| == |t.binary| && |u.gep| == |t.gep| && |u.values| == |t.values|
    && (forall n, k :: 0 <= n < |t.binary| && k in t.binary[n] ==> k in u.binary[n] && u.binary[n][k] == t.binary[n][k])
    && (forall n, i :: 0 <= n < |t.gep| && i in t.gep[n] ==> i in u.gep[n] && u.gep[n][i] == t.gep[n][i])
    && (forall n, v :: 0 <= n < |t.values| && v in t.values[n] ==> v in u.values[n] && u.values[n][v] == t.values[n][v])
  }

  ghost predicate Later(c: Context, t: Tables, u: Tables) {
    Kept(t, u) && (u == t || |Unfound(c, u)| < |Unfound(c, t)|)
  }

  ghost function Busy(lim: Limit, t: Tables): set<nat> {
    if lim.Watch? && t == lim.seen then lim.busy else {}
  }

  ghost predicate Stops(lim: Limit, t: Tables, i: nat) {
    match lim
    case Fuel(left) => left == 0
    case Watch(_, _) => i in Busy(lim, t)
  }

  /** The limit for what looking up i looks up. */
  ghost function Inner(lim: Limit, t: Tables, i: nat): Limit {
    match lim
    case Fuel(left) => if left == 0 then lim else Fuel(left - 1)
    case Watch(_, _) => Watch(t, Busy(lim, t) + {i})
  }

  /** How deep look-ups of n instructions nest when rounds more values can be entered and rest instructions are not
      busy. */
  ghost function Nesting(rounds: nat, n: nat, rest: nat): nat {
    rounds * (n + 1) + rest
  }

  /** How deep look-ups can nest within the limit. */
  ghost function Rank(c: Context, t: Tables, lim: Limit): nat {
    match lim
    case Fuel(left) => left
    case Watch(_, _) => Nesting(|Unfound(c, t)|, |c.code|, |c.code.Keys - Busy(lim, t)|)
  }

  ghost function Enter(c: Context, t: Tables, v: Value): Search<Value>
    requires Fit(c) && Scoped(t)
  {
    var u := PushOwn(c.code, c.gone, t, v);
    Ended(u, if OnTable(c, u, v).Hit? then OnTable(c, u, v).value else v)
  }

  /** What an instruction equal to i is read as, or i itself, which is then entered. */
  ghost function Finish(c: Context, t: Tables, v: Value, found: Found): Search<Value>
    requires Fit(c) && Scoped(t)
  {
    if found.Hit? && found.value != v then Ended(t, found.value) else Enter(c, t, v)
  }

  ghost function FirstKey(scopes: seq<map<Key, Value>>, k: Key, n: nat): Found
    decreases |scopes| - n
  {
    if n >= |scopes| then Missing else if k in scopes[n] then Hit(scopes[n][k]) else FirstKey(scopes, k, n + 1)
  }

  ghost function Look(c: Context, t: Tables, v: Value, lim: Limit): (s: Search<Value>)
    requires Fit(c) && Scoped(t) && v in Pool(c.code)
    ensures s.Ended? ==> Later(c, t, s.t)
    decreases Rank(c, t, lim), 0, 0, 0
  {
    hide Fit, Pool, Later, Rank, Innermost, NoneInside, PushOwn, Knows;
    KnowsIs(c, t, v);
    LaterSame(c, t);
    var found := OnTable(c, t, v);
    if found.Hit? then Ended(t, found.value)
    else if !IsNumbered(c.code, v) then
      EnterLater(c, t, t, v);
      Enter(c, t, v)
    else if Stops(lim, t, v.id) then Spent
    else
      InnerRank(c, t, lim, v.id);
      match FindInstr(c, t, v.id, Inner(lim, t, v.id))
      case Spent => Spent
      case Ended(u, r) =>
        LaterParts(c, t, u);
        EnterLater(c, t, u, v);
        Finish(c, u, v, r)
  }

  /** The instruction's equal in the tables. */
  ghost function FindInstr(c: Context, t: Tables, i: nat, lim: Limit): (s: Search<Found>)
    requires Fit(c) && Scoped(t) && i in c.code
    ensures s.Ended? ==> Later(c, t, s.t)
    decreases Rank(c, t, lim), 3, 0, 0
  {
    hide Fit, Pool, Later, Rank;
    LaterSame(c, t);
    ArgsInPool(c, i);
    if !c.code[i].op.Numbered() then Ended(t, Missing)
    else
      match LookAll(c, t, Args(c.code, i, c.gone), [], lim)
      case Spent => Spent
      case Ended(u, ys) =>
        LaterParts(c, t, u);
        LaterRank(c, t, u, lim);
        if c.code[i].op.Binary? then
          TwoArgs(c, i);
          Ended(u, FirstKey(u.binary, Key(ys[0], ys[1], c.code[i].op), 0))
        else
          var s := Scan(c, u, ys, u.gep[0], 0, 0, lim);
          LaterChain(c, t, u, s);
          s
  }

  /** The values for vs, one after the other; ys are those found so far. */
  ghost function LookAll(c: Context, t: Tables, vs: seq<Value>, ys: seq<Value>, lim: Limit): (s: Search<seq<Value>>)
    requires Fit(c) && Scoped(t) && |ys| <= |vs| && forall v :: v in vs ==> v in Pool(c.code)
    ensures s.Ended? ==> Later(c, t, s.t) && |s.r| == |vs|
    decreases Rank(c, t, lim), 1, |vs| - |ys|, 0
  {
    hide Fit, Pool, Later, Rank;
    LaterSame(c, t);
    if |ys| == |vs| then Ended(t, ys)
    else
      match Look(c, t, vs[|ys|], lim)
      case Spent => Spent
      case Ended(u, r) =>
        LaterParts(c, t, u);
        LaterRank(c, t, u, lim);
        var s := LookAll(c, u, vs, ys + [r], lim);
        LaterChain(c, t, u, s);
        s
  }

  /** The first address computation whose operands have the values ys, from key k of scope n on; scope is what scope n
      held when it was reached. */
  ghost function Scan(c: Context, t: Tables, ys: seq<Value>, scope: map<nat, Value>, n: nat, k: nat,
      lim: Limit): (s: Search<Found>)
    requires Fit(c) && Scoped(t)
    ensures s.Ended? ==> Later(c, t, s.t)
    decreases Rank(c, t, lim), 2, |t.gep| - n, |c.keys| - k
  {
    hide Fit, Pool, Later, Rank;
    LaterSame(c, t);
    if n >= |t.gep| then Ended(t, Missing)
    else if k >= |c.keys| then Scan(c, t, ys, if n + 1 < |t.gep| then t.gep[n + 1] else map[], n + 1, 0, lim)
    else
      var j := c.keys[k];
      if j !in scope || j !in c.code then Scan(c, t, ys, scope, n, k + 1, lim)
      else
        ArgsInPool(c, j);
        match LookAll(c, t, Args(c.code, j, c.gone), [], lim)
        case Spent => Spent
        case Ended(u, zs) =>
          LaterParts(c, t, u);
          LaterRank(c, t, u, lim);
          if zs == ys then Ended(u, Hit(scope[j]))
          else
            var s := Scan(c, u, ys, scope, n, k + 1, lim);
            LaterChain(c, t, u, s);
            s
  }

  // What the definitions rely on.

  lemma {:induction false} HighestHit(c: Context, t: Tables, v: Value, n: nat)
    requires !NoneInside(c.code, c.gone, t, n, v)
    ensures exists r :: Innermost(c.code, c.gone, t, v, r)
    decreases |t.binary| - n
  {
    hide HitAt;
    var m: nat, x :| n <= m < |t.binary| && HitAt(c.code, c.gone, t, m, v, x);
    if !NoneInside(c.code, c.gone, t, m + 1, v) {
      HighestHit(c, t, v, m + 1);
    } else {
      assert Innermost(c.code, c.gone, t, v, x);
    }
  }

  lemma KnowsIs(c: Context, t: Tables, v: Value)
    ensures OnTable(c, t, v).Hit? <==> Knows(c, t, v)
    ensures OnTable(c, t, v).Hit? ==> Innermost(c.code, c.gone, t, v, OnTable(c, t, v).value)
  {
    if Knows(c, t, v) { HighestHit(c, t, v, 0); }
    if r :| Innermost(c.code, c.gone, t, v, r) {
      var n: nat :| HitAt(c.code, c.gone, t, n, v, r);
      assert n < |t.binary|;
    }
  }

  lemma LaterSame(c: Context, t: Tables)
    ensures Later(c, t, t)
  {
    hide Unfound;
  }

  lemma LaterParts(c: Context, t: Tables, u: Tables)
    requires Later(c, t, u) && Scoped(t)
    ensures Scoped(u) && |u.gep| == |t.gep| && Kept(t, u) && (u == t || |Unfound(c, u)| < |Unfound(c, t)|)
  {
    hide Unfound;
  }

  lemma LaterChain<T>(c: Context, t: Tables, u: Tables, s: Search<T>)
    requires Later(c, t, u) && (s.Ended? ==> Later(c, u, s.t))
    ensures s.Ended? ==> Later(c, t, s.t)
  {
    hide Unfound;
  }

  lemma KeptKnows(c: Context, t: Tables, u: Tables, v: Value)
    requires Kept(t, u) && Scoped(t) && Knows(c, t, v)
    ensures Knows(c, u, v)
  {
    var m: nat, x :| m < |t.binary| && HitAt(c.code, c.gone, t, m, v, x);
    if IsGep(c.code, v) {
      assert HitAt(c.code, c.gone, u, m, v, x);
    } else if IsBinary(c.code, v) {
      var k := KeyOf(c.code, c.gone, v.id);
      var y := if k in u.binary[m] then u.binary[m][k] else x;
      assert HitAt(c.code, c.gone, u, m, v, y);
    } else {
      var y := if v in u.values[m] then u.values[m][v] else x;
      assert HitAt(c.code, c.gone, u, m, v, y);
    }
  }

  lemma KeptUnfound(c: Context, t: Tables, u: Tables)
    requires Kept(t, u) && Scoped(t)
    ensures Unfound(c, u) <= Unfound(c, t)
  {
    hide Kept, Knows, Pool;
    forall v | v in Unfound(c, u) ensures v in Unfound(c, t) {
      if Knows(c, t, v) { KeptKnows(c, t, u, v); }
    }
  }

  lemma PushKept(c: Context, t: Tables, v: Value)
    requires Fit(c) && Scoped(t)
    ensures Kept(t, PushOwn(c.code, c.gone, t, v)) && Scoped(PushOwn(c.code, c.gone, t, v))
  {
    hide Pool;
  }

  lemma FewerUnfound(c: Context, t: Tables, u: Tables, v: Value)
    requires Kept(t, u) && Scoped(t) && v in Pool(c.code) && !Knows(c, t, v) && Knows(c, u, v)
    ensures |Unfound(c, u)| < |Unfound(c, t)|
  {
    hide Kept, Knows, Pool;
    KeptUnfound(c, t, u);
    assert v in Unfound(c, t) && v !in Unfound(c, u);
    ProperSize(Unfound(c, u), Unfound(c, t), v);
  }

  lemma {:induction false} PartSize<T>(a: set<T>, b: set<T>)
    requires a <= b
    ensures |a| <= |b|
    decreases a
  {
    if a != {} {
      var x :| x in a;
      PartSize(a - {x}, b - {x});
    }
  }

  lemma ProperSize<T>(a: set<T>, b: set<T>, x: T)
    requires a <= b && x in b && x !in a
    ensures |a| < |b|
  {
    PartSize(a + {x}, b);
  }

  /** Entering something that was not found. */
  lemma EnterLater(c: Context, t: Tables, u: Tables, v: Value)
    requires Fit(c) && Scoped(t) && v in Pool(c.code) && !OnTable(c, t, v).Hit? && Later(c, t, u)
    ensures Scoped(u) && Later(c, t, PushOwn(c.code, c.gone, u, v))
  {
    hide Fit, Pool, Kept, Knows, PushOwn, Unfound, OnTable;
    KnowsIs(c, t, v);
    LaterParts(c, t, u);
    PushKept(c, u, v);
    EnteredKnown(c, u, v);
    var w := PushOwn(c.code, c.gone, u, v);
    KeptChain(t, u, w);
    FewerUnfound(c, t, w, v);
  }

  lemma EnteredKnown(c: Context, t: Tables, v: Value)
    requires Fit(c) && Scoped(t)
    ensures v.Var? && v.id in c.code && c.code[v.id].op.Binary? ==> |c.code[v.id].args| == 2
    ensures Knows(c, PushOwn(c.code, c.gone, t, v), v)
  {
    hide Pool;
    PushedNotMissing(c.code, c.gone, t, v);
  }

  lemma KeptChain(t: Tables, u: Tables, w: Tables)
    requires Kept(t, u) && Kept(u, w)
    ensures Kept(t, w)
  {
  }

  lemma ArgsInPool(c: Context, i: nat)
    requires Fit(c) && i in c.code
    ensures Var(i) in Pool(c.code) && forall v :: v in Args(c.code, i, c.gone) ==> v in Pool(c.code)
  {
    forall v | v in Args(c.code, i, c.gone) ensures v in Pool(c.code) {
      var k :| 0 <= k < |c.code[i].args| && v == Args(c.code, i, c.gone)[k];
      assert c.code[i].args[k] in Pool(c.code);
    }
  }

  lemma TwoArgs(c: Context, i: nat)
    requires Fit(c) && i in c.code && c.code[i].op.Binary?
    ensures |Args(c.code, i, c.gone)| == 2
  {
  }

  /** Entering something lowers the rank by more than one round of look-ups. */
  lemma RankFalls(a: nat, b: nat, n: nat, x: nat, y: nat)
    requires a < b && x <= n
    ensures Nesting(a, n, x) < Nesting(b, n, y)
  {
    assert (a + 1) * (n + 1) <= b * (n + 1);
  }

  lemma LaterRank(c: Context, t: Tables, u: Tables, lim: Limit)
    requires Later(c, t, u)
    ensures u == t || lim.Fuel? || Rank(c, u, lim) < Rank(c, t, lim)
    ensures Rank(c, u, lim) <= Rank(c, t, lim)
  {
    hide Unfound, Kept, Nesting;
    if u != t && lim.Watch? {
      PartSize(c.code.Keys - Busy(lim, u), c.code.Keys);
      RankFalls(|Unfound(c, u)|, |Unfound(c, t)|, |c.code|, |c.code.Keys - Busy(lim, u)|, |c.code.Keys - Busy(lim, t)|);
    }
  }

  lemma InnerRank(c: Context, t: Tables, lim: Limit, i: nat)
    requires i in c.code && !Stops(lim, t, i)
    ensures Rank(c, t, Inner(lim, t, i)) < Rank(c, t, lim)
  {
    hide Unfound;
    if lim.Watch? {
      ProperSize(c.code.Keys - (Busy(lim, t) + {i}), c.code.Keys - Busy(lim, t), i);
    }
  }

  // When a search ends.

  /** The tables are those the watch saw, or something was entered since. */
  ghost predicate Since(c: Context, lim: Limit, t: Tables) {
    lim.Watch? && (t == lim.seen || |Unfound(c, t)| < |Unfound(c, lim.seen)|)
  }

  /** The look-ups begun do not end within so many nested look-ups. */
  ghost predicate Blocked(c: Context, t: Tables, lim: Limit, fuel: nat)
    requires Fit(c) && Scoped(t)
  {
    forall i, f: nat :: i in Busy(lim, t) && f <= fuel && Var(i) in Pool(c.code) ==> Look(c, t, Var(i), Fuel(f)).Spent?
  }

  /** Within fuel a search goes as the watched one, unless the fuel is below the rank. */
  ghost predicate Agrees<T>(s: Search<T>, w: Search<T>, fuel: nat, rank: nat) {
    w.Ended? ==> s == w || (s.Spent? && fuel < rank)
  }

  lemma SinceLater(c: Context, lim: Limit, t: Tables, u: Tables, fuel: nat)
    requires Fit(c) && Scoped(t) && Since(c, lim, t) && Later(c, t, u) && Blocked(c, t, lim, fuel)
    ensures Scoped(u) && Since(c, lim, u) && Blocked(c, u, lim, fuel)
  {
    hide Fit, Pool, Unfound;
  }

  lemma SinceStill(c: Context, lim: Limit, t: Tables, u: Tables)
    requires Scoped(t) && Since(c, lim, t) && Later(c, t, u)
    ensures Scoped(u) && Since(c, lim, u) && Rank(c, u, lim) <= Rank(c, t, lim)
  {
    hide Unfound, Rank;
    LaterRank(c, t, u, lim);
  }

  lemma {:induction false} MeetLook(c: Context, t: Tables, v: Value, lim: Limit, fuel: nat)
    requires Fit(c) && Scoped(t) && v in Pool(c.code) && Since(c, lim, t)
    ensures Agrees(Look(c, t, v, Fuel(fuel)), Look(c, t, v, lim), fuel, Rank(c, t, lim))
    ensures Look(c, t, v, lim).Spent? && Blocked(c, t, lim, fuel) ==> Look(c, t, v, Fuel(fuel)).Spent?
    decreases fuel, 0, 0, 0
  {
    hide Fit, Pool, Later, Rank, OnTable, Enter, Finish, Unfound, FindInstr;
    if OnTable(c, t, v).Missing? && IsNumbered(c.code, v) && !Stops(lim, t, v.id) {
      var i, inner := v.id, Inner(lim, t, v.id);
      InnerRank(c, t, lim, i);
      if fuel > 0 {
        InnerSince(c, t, lim, i);
        MeetFind(c, t, i, inner, fuel - 1);
        if Blocked(c, t, lim, fuel) && Look(c, t, v, lim).Spent? {
          forall f: nat | f <= fuel - 1 ensures Look(c, t, v, Fuel(f)).Spent? {
            MeetLook(c, t, v, lim, f);
          }
          InnerBlocked(c, t, lim, i, fuel);
        }
      }
    } else if OnTable(c, t, v).Missing? && IsNumbered(c.code, v) {
      assert v == Var(v.id);
    }
  }

  lemma InnerSince(c: Context, t: Tables, lim: Limit, i: nat)
    requires lim.Watch?
    ensures Since(c, Inner(lim, t, i), t)
  {
  }

  lemma InnerBlocked(c: Context, t: Tables, lim: Limit, i: nat, fuel: nat)
    requires Fit(c) && Scoped(t) && lim.Watch? && Blocked(c, t, lim, fuel) && fuel > 0 && Var(i) in Pool(c.code)
    requires forall f: nat :: f <= fuel - 1 ==> Look(c, t, Var(i), Fuel(f)).Spent?
    ensures Blocked(c, t, Inner(lim, t, i), fuel - 1)
  {
    hide Fit, Pool, Look;
  }

  lemma {:induction false} MeetFind(c: Context, t: Tables, i: nat, lim: Limit, fuel: nat)
    requires Fit(c) && Scoped(t) && i in c.code && Since(c, lim, t)
    ensures Agrees(FindInstr(c, t, i, Fuel(fuel)), FindInstr(c, t, i, lim), fuel, Rank(c, t, lim))
    ensures FindInstr(c, t, i, lim).Spent? && Blocked(c, t, lim, fuel) ==> FindInstr(c, t, i, Fuel(fuel)).Spent?
    decreases fuel, 3, 0, 0
  {
    hide Fit, Pool, Later, Rank, Since, Blocked, LookAll, Scan, FirstKey;
    if c.code[i].op.Numbered() {
      var args := Args(c.code, i, c.gone);
      ArgsInPool(c, i);
      MeetAll(c, t, args, [], lim, fuel);
      var s := LookAll(c, t, args, [], lim);
      if s.Ended? && c.code[i].op.Gep? {
        SinceStill(c, lim, t, s.t);
        LaterParts(c, t, s.t);
        MeetScan(c, s.t, s.r, s.t.gep[0], 0, 0, lim, fuel);
        if Blocked(c, t, lim, fuel) { SinceLater(c, lim, t, s.t, fuel); }
      }
    }
  }

  lemma {:induction false} MeetAll(c: Context, t: Tables, vs: seq<Value>, ys: seq<Value>, lim: Limit, fuel: nat)
    requires Fit(c) && Scoped(t) && |ys| <= |vs| && Since(c, lim, t) && forall v :: v in vs ==> v in Pool(c.code)
    ensures Agrees(LookAll(c, t, vs, ys, Fuel(fuel)), LookAll(c, t, vs, ys, lim), fuel, Rank(c, t, lim))
    ensures LookAll(c, t, vs, ys, lim).Spent? && Blocked(c, t, lim, fuel) ==> LookAll(c, t, vs, ys, Fuel(fuel)).Spent?
    decreases fuel, 1, |vs| - |ys|, 0
  {
    hide Fit, Pool, Later, Rank, Since, Blocked, Look;
    if |ys| < |vs| {
      MeetLook(c, t, vs[|ys|], lim, fuel);
      var s := Look(c, t, vs[|ys|], lim);
      if s.Ended? {
        SinceStill(c, lim, t, s.t);
        MeetAll(c, s.t, vs, ys + [s.r], lim, fuel);
        if Blocked(c, t, lim, fuel) { SinceLater(c, lim, t, s.t, fuel); }
      }
    }
  }

  lemma {:induction false} MeetScan(c: Context, t: Tables, ys: seq<Value>, scope: map<nat, Value>, n: nat, k: nat,
      lim: Limit, fuel: nat)
    requires Fit(c) && Scoped(t) && Since(c, lim, t)
    ensures Agrees(Scan(c, t, ys, scope, n, k, Fuel(fuel)), Scan(c, t, ys, scope, n, k, lim), fuel, Rank(c, t, lim))
    ensures Scan(c, t, ys, scope, n, k, lim).Spent? && Blocked(c, t, lim, fuel) ==>
              Scan(c, t, ys, scope, n, k, Fuel(fuel)).Spent?
    decreases fuel, 2, |t.gep| - n, |c.keys| - k
  {
    hide Fit, Pool, Later, Rank, Since, Blocked, LookAll;
    if n < |t.gep| {
      if k >= |c.keys| {
        MeetScan(c, t, ys, if n + 1 < |t.gep| then t.gep[n + 1] else map[], n + 1, 0, lim, fuel);
      } else if c.keys[k] !in scope || c.keys[k] !in c.code {
        MeetScan(c, t, ys, scope, n, k + 1, lim, fuel);
      } else {
        var args := Args(c.code, c.keys[k], c.gone);
        ArgsInPool(c, c.keys[k]);
        MeetAll(c, t, args, [], lim, fuel);
        var s := LookAll(c, t, args, [], lim);
        if s.Ended? {
          SinceStill(c, lim, t, s.t);
          LaterParts(c, t, s.t);
          MeetScan(c, s.t, ys, scope, n, k + 1, lim, fuel);
          if Blocked(c, t, lim, fuel) { SinceLater(c, lim, t, s.t, fuel); }
        }
      }
    }
  }

  /** Looking v up comes back to an instruction that is being looked up, with nothing entered in between. */
  ghost predicate Circular(c: Context, t: Tables, v: Value)
    requires Fit(c) && Scoped(t) && v in Pool(c.code)
  {
    Look(c, t, v, Watch(t, {})).Spent?
  }

  /** Nested look-ups that suffice for every search that ends. */
  ghost function Enough(code: Code): nat {
    Nesting(|Pool(code)|, |code|, |code|)
  }

  /** A look-up ends exactly when it is not circular, and then the same way however much deeper it may go. */
  lemma EndsExactly(c: Context, t: Tables, v: Value, fuel: nat)
    requires Fit(c) && Scoped(t) && v in Pool(c.code)
    ensures Circular(c, t, v) ==> Look(c, t, v, Fuel(fuel)).Spent?
    ensures !Circular(c, t, v) && fuel >= Enough(c.code) ==> Look(c, t, v, Fuel(fuel)) == Look(c, t, v, Watch(t, {}))
    ensures Look(c, t, v, Fuel(fuel)).Ended? ==> Look(c, t, v, Fuel(fuel)) == Look(c, t, v, Watch(t, {}))
    ensures !Circular(c, t, v) <==> exists n: nat :: Look(c, t, v, Fuel(n)).Ended?
  {
    hide Fit, Pool, Look, Nesting;
    EndsWithin(c, t, v, fuel);
    EndsWithin(c, t, v, Enough(c.code));
    if n: nat :| Look(c, t, v, Fuel(n)).Ended? { EndsWithin(c, t, v, n); }
  }

  lemma EndsWithin(c: Context, t: Tables, v: Value, fuel: nat)
    requires Fit(c) && Scoped(t) && v in Pool(c.code)
    ensures Circular(c, t, v) ==> Look(c, t, v, Fuel(fuel)).Spent?
    ensures !Circular(c, t, v) && fuel >= Enough(c.code) ==> Look(c, t, v, Fuel(fuel)) == Look(c, t, v, Watch(t, {}))
    ensures Look(c, t, v, Fuel(fuel)).Ended? ==> Look(c, t, v, Fuel(fuel)) == Look(c, t, v, Watch(t, {}))
  {
    hide Fit, Pool, Look, Nesting;
    MeetLook(c, t, v, Watch(t, {}), fuel);
    EnoughRank(c, t);
  }

  lemma EnoughRank(c: Context, t: Tables)
    ensures Rank(c, t, Watch(t, {})) <= Enough(c.code)
  {
    hide Pool, Knows;
    PartSize(Unfound(c, t), Pool(c.code));
    assert c.code.Keys - {} == c.code.Keys;
    MoreRounds(|Unfound(c, t)|, |Pool(c.code)|, |c.code|, |c.code|);
  }

  lemma MoreRounds(a: nat, b: nat, n: nat, x: nat)
    requires a <= b
    ensures Nesting(a, n, x) <= Nesting(b, n, x)
  {
  }
}
