/** Address computations whose operands are computed in the same extended block: the tables then hold what those
    operands are read as, and every look-up ends. */
module ValueExtended {
  import opened Cfg
  import opened ValueTable
  import opened ValueOrder
  import opened ValueFlow
  import opened ValueWalk
  import opened ValueSearch
  import opened ValueAddress

  /** Each block but the first has the one before it as its only predecessor. */
  ghost predicate OnlyPreds(g: Graph, p: seq<Block>) {
    forall k :: 0 < k < |p| ==> p[k] in g.preds && g.preds[p[k]] == [p[k - 1]]
  }

  /** Block a and what hangs below it up to b are one extended block. */
  ghost predicate SameExtended(g: Graph, a: Block, b: Block) {
    exists p: seq<Block> :: p != [] && p[0] == a && p[|p| - 1] == b && OnlyPreds(g, p)
  }

  /** Only address computations take address computations as operands, and these are in the same extended block. */
  ghost predicate AddressesLocal(g: Graph, code: Code, first: Lists) {
    && (forall i, v :: i in code && code[i].op.Binary? && v in code[i].args ==> !IsGep(code, v))
    && (forall b, i, v :: b in first && i in first[b] && i in code && code[i].op.Gep? && v in code[i].args &&
                          IsGep(code, v) ==>
                            exists a :: a in first && v.id in first[a] && SameExtended(g, a, b))
  }

  /** The open blocks, from the one where the extended block begins. */
  ghost predicate Branch(g: Graph, p: seq<Block>) {
    p != [] && p[0] in g.preds && |g.preds[p[0]]| != 1 && OnlyPreds(g, p)
  }

  lemma {:induction false} OnBranch(g: Graph, p: seq<Block>, q: seq<Block>, m: nat)
    requires Branch(g, p) && m < |p| && q != [] && OnlyPreds(g, q) && q[|q| - 1] == p[m]
    ensures exists l :: 0 <= l <= m && p[l] == q[0]
    decreases |q|
  {
    if |q| > 1 {
      var front := q[..|q| - 1];
      assert g.preds[q[|q| - 1]] == [q[|q| - 2]];
      OnBranch(g, p, front, m - 1);
    }
  }

  /** The tables hold the open address computations, or what they were replaced by, and no others. */
  ghost predicate Opened(code: Code, gone: map<nat, Value>, t: Tables, open: set<nat>) {
    && (forall j :: InGep(t, j) ==> j in open)
    && (forall x :: x in open && IsGep(code, Var(x)) ==>
                      var y := Resolve(Var(x), gone); IsGep(code, y) && InGep(t, y.id))
  }

  lemma OpenedStart(code: Code, gone: map<nat, Value>, first: Lists)
    ensures Opened(code, gone, Tables([], [], []), SeenIds(first, []))
  {
  }

  /** Replacing what is not open leaves the tables as they should be. */
  lemma OpenedGone(code: Code, gone: map<nat, Value>, more: map<nat, Value>, t: Tables, u: Tables, open: set<nat>)
    requires Opened(code, gone, t, open) && u.gep == t.gep
    requires forall x :: x in open ==> (x in gone <==> x in more) && (x in gone ==> more[x] == gone[x])
    ensures Opened(code, more, u, open)
  {
    InGepSame(t, u);
  }

  lemma OpenedScope(code: Code, gone: map<nat, Value>, t: Tables, open: set<nat>)
    requires Opened(code, gone, t, open)
    ensures Opened(code, gone, PushScope(t), open)
  {
    var u := PushScope(t);
    forall j ensures InGep(u, j) <==> InGep(t, j) {
      if n :| 0 <= n < |t.gep| && j in t.gep[n] { assert u.gep[n] == t.gep[n]; }
    }
  }

  /** What numbering instruction d does to the address computations in the tables. */
  ghost predicate AddStep(code: Code, t: Tables, u: Tables, gone: map<nat, Value>, d: nat) {
    if !IsGep(code, Var(d)) then u.gep == t.gep
    else if d in gone then u.gep == t.gep && gone[d].Var? && InGep(t, gone[d].id)
    else t.gep != [] && u.gep == Insert(t.gep, d, Var(d))
  }

  lemma OpenedStep(code: Code, gone: map<nat, Value>, more: map<nat, Value>, t: Tables, u: Tables, open: set<nat>,
      d: nat)
    requires Opened(code, gone, t, open) && AddStep(code, t, u, more, d) && d !in open && GoneKinds(code, more)
    requires d !in gone
    requires more == gone || (d in more && more == gone[d := more[d]])
    ensures Opened(code, more, u, open + {d})
  {
    if IsGep(code, Var(d)) && d !in more {
      InsertedIn(t, u, d);
    } else {
      InGepSame(t, u);
    }
  }

  lemma InsertedIn(t: Tables, u: Tables, d: nat)
    requires t.gep != [] && u.gep == Insert(t.gep, d, Var(d))
    ensures forall j :: InGep(u, j) <==> InGep(t, j) || j == d
  {
    var last := |t.gep| - 1;
    assert d in u.gep[last];
    forall j ensures InGep(u, j) <==> InGep(t, j) || j == d {
      if n :| 0 <= n < |t.gep| && j in t.gep[n] { assert j in u.gep[n]; }
    }
  }

  /** What a search for instruction d does to the address computations in the tables. */
  ghost predicate Enters(code: Code, t: Tables, s: Search<Value>, d: nat) {
    s.Ended? ==>
      if !IsGep(code, Var(d)) then s.t.gep == t.gep
      else if s.r != Var(d) then !InGep(t, d) && s.t.gep == t.gep && s.r.Var? && InGep(t, s.r.id)
      else t.gep != [] && s.t.gep == Insert(t.gep, d, Var(d))
  }

  /** Numbering a settled instruction. */
  lemma CalmStep(c: Context, before: Before, t: Tables, i: nat, fuel: nat)
    requires Fit(c) && Scoped(t) && Downward(c, before) && Calm(c, t) && IsNumbered(c.code, Var(i))
    requires Var(i) in Pool(c.code)
    requires IsGep(c.code, Var(i)) ==> Settled(c, t, i) && !InGep(t, i)
    ensures fuel > |c.code| ==> Look(c, t, Var(i), Fuel(fuel)).Ended?
    ensures Enters(c.code, t, Look(c, t, Var(i), Fuel(fuel)), i)
  {
    hide Fit, Pool, Look, Calm, Downward, InGep, Settled, Insert, Circular, Need;
    var big := |c.code| + 1;
    if IsGep(c.code, Var(i)) {
      CalmAddress(c, before, t, i, big);
      if fuel > |c.code| { CalmAddress(c, before, t, i, fuel); }
    } else {
      NeedBelow(c, before, i);
      CalmLook(c, before, t, Var(i), big);
      if fuel > |c.code| { CalmLook(c, before, t, Var(i), fuel); }
    }
    EndsWithin(c, t, Var(i), big);
    EndsWithin(c, t, Var(i), fuel);
  }

  lemma NeedBelow(c: Context, before: Before, i: nat)
    requires Downward(c, before) && i in c.code
    ensures Need(before, Var(i)) <= |c.code|
  {
    ProperSize(before[i], c.code.Keys, i);
  }

  /** The operands of an instruction of an open block are open. */
  lemma OperandOpen(g: Graph, code: Code, first: Lists, before: Before, p: seq<Block>, m: nat, n: nat, k: nat, i: nat,
      v: Value)
    requires InSsa(g, code, first, before) && AddressesLocal(g, code, first) && Branch(g, p) && m < |p|
    requires At(first, p[m], n, i)
    requires (m < |p| - 1 || n <= k) && (forall l :: 0 <= l < |p| ==> p[l] in first) && k <= |first[p[|p| - 1]]|
    requires i in code && code[i].op.Gep? && v in code[i].args && IsGep(code, v)
    ensures v.id in SeenIds(first, p[..|p| - 1]) + Ids(first[p[|p| - 1]][..k])
  {
    hide InSsa, Branch, OnlyPreds, SameExtended, AvailIn;
    var a := LocalBlock(g, code, first, p[m], i, v);
    SameBranch(g, p, a, m);
    var l :| 0 <= l <= m && p[l] == a;
    if l < |p| - 1 {
      assert p[..|p| - 1][l] == a;
    } else {
      ArgPlace(g, code, first, before, a, n, i, v);
    }
  }

  lemma LocalBlock(g: Graph, code: Code, first: Lists, b: Block, i: nat, v: Value) returns (a: Block)
    requires AddressesLocal(g, code, first) && b in first && i in first[b] && i in code && code[i].op.Gep? &&
        v in code[i].args && IsGep(code, v)
    ensures a in first && v.id in first[a] && SameExtended(g, a, b)
  {
    a :| a in first && v.id in first[a] && SameExtended(g, a, b);
  }

  lemma SameBranch(g: Graph, p: seq<Block>, a: Block, m: nat)
    requires Branch(g, p) && m < |p| && SameExtended(g, a, p[m])
    ensures exists l :: 0 <= l <= m && p[l] == a
  {
    var q: seq<Block> :| q != [] && q[0] == a && q[|q| - 1] == p[m] && OnlyPreds(g, q);
    OnBranch(g, p, q, m);
  }

  /** An operand computed in the same block is computed before. */
  lemma ArgPlace(g: Graph, code: Code, first: Lists, before: Before, b: Block, n: nat, i: nat, v: Value)
    requires InSsa(g, code, first, before) && At(first, b, n, i) && i in code && code[i].op.Gep? && v in code[i].args &&
        v.Var? && v.id in first[b]
    ensures v.id in Ids(first[b][..n])
  {
    hide Placed, Reachable, StrictDom;
    PlacedAt(g, code, first, before, b, n, i);
    assert ArgsIn(code, i, before[i]);
    var j: nat :| j < |first[b]| && first[b][j] == v.id;
    assert At(first, b, j, v.id);
    if v.id in AvailIn(g, first, b) {
      var d, q := AvailElsewhere(g, first, b, v.id);
      OnePlace(g, code, first, before, b, j, d, q, v.id);
    }
  }

  /** What is open when instruction k of the last block is reached. */
  ghost function OpenIds(first: Lists, p: seq<Block>, k: nat): set<nat> {
    if p != [] && p[|p| - 1] in first && k <= |first[p[|p| - 1]]| then
      SeenIds(first, p[..|p| - 1]) + Ids(first[p[|p| - 1]][..k])
    else
      {}
  }

  lemma OpenPlace(first: Lists, p: seq<Block>, k: nat, j: nat) returns (m: nat, n: nat)
    requires j in OpenIds(first, p, k)
    ensures m < |p| && At(first, p[m], n, j) && (if m < |p| - 1 then p[m] in p[..|p| - 1] else n < k)
  {
    if j in SeenIds(first, p[..|p| - 1]) {
      var d :| d in p[..|p| - 1] && d in first && j in first[d];
      m :| m < |p| - 1 && p[..|p| - 1][m] == d;
      n :| n < |first[d]| && first[d][n] == j;
    } else {
      m := |p| - 1;
      n :| n < k && first[p[m]][n] == j;
    }
  }

  /** The present operands of an instruction of an open block are in the tables. */
  lemma OpenSettled(g: Graph, code: Code, first: Lists, before: Before, p: seq<Block>, k: nat, c: Context, t: Tables,
      m: nat, n: nat, i: nat)
    requires InSsa(g, code, first, before) && AddressesLocal(g, code, first) && Branch(g, p)
    requires (forall l :: 0 <= l < |p| ==> p[l] in first)
    requires k <= |first[p[|p| - 1]]| && c.code == code && GoneKinds(code, c.gone)
    requires Opened(code, c.gone, t, OpenIds(first, p, k))
    requires m < |p| && At(first, p[m], n, i) && (m < |p| - 1 || n <= k) && i in code && code[i].op.Gep?
    ensures Settled(c, t, i)
  {
    hide InSsa, Branch, AddressesLocal, SeenIds, Ids, InGep, At;
    forall v | v in Args(code, i, c.gone) ensures Present(code, t, v) {
      var q :| 0 <= q < |code[i].args| && v == Args(code, i, c.gone)[q];
      if IsGep(code, v) {
        OperandOpen(g, code, first, before, p, m, n, k, i, code[i].args[q]);
      }
    }
  }

  /** In an extended block the tables are calm, and the instruction reached is settled. */
  lemma OpenedCalm(g: Graph, code: Code, first: Lists, before: Before, p: seq<Block>, k: nat, c: Context, t: Tables)
    requires InSsa(g, code, first, before) && AddressesLocal(g, code, first) && p != [] && Branch(g, p) &&
        (forall l :: 0 <= l < |p| ==> p[l] in first)
    requires k < |first[p[|p| - 1]]| && c.code == code && GoneKinds(code, c.gone) && Tidy(code, t)
    requires p[|p| - 1] !in p[..|p| - 1]
    requires Opened(code, c.gone, t, OpenIds(first, p, k))
    ensures var d := first[p[|p| - 1]][k];
            Calm(c, t) && d in code && d !in OpenIds(first, p, k) &&
                (IsGep(code, Var(d)) ==> Settled(c, t, d) && !InGep(t, d))
  {
    hide InSsa, Branch, AddressesLocal, OpenIds, InGep, Settled, Opened;
    var b := p[|p| - 1];
    var d := first[b][k];
    assert At(first, b, k, d);
    PlacedAt(g, code, first, before, b, k, d);
    if d in OpenIds(first, p, k) {
      var m, n := OpenPlace(first, p, k, d);
      OnePlace(g, code, first, before, b, k, p[m], n, d);
    }
    OpenKeys(code, c.gone, t, OpenIds(first, p, k));
    forall j | InGep(t, j) && j in code ensures Settled(c, t, j) {
      var m, n := OpenPlace(first, p, k, j);
      KeyGep(code, t, j);
      OpenSettled(g, code, first, before, p, k, c, t, m, n, j);
    }
    if IsGep(code, Var(d)) { OpenSettled(g, code, first, before, p, k, c, t, |p| - 1, k, d); }
    forall i, v | i in code && code[i].op.Binary? && v in Args(code, i, c.gone) ensures !IsGep(code, v) {
      BinaryArg(g, first, c, i, v);
    }
  }

  lemma OpenKeys(code: Code, gone: map<nat, Value>, t: Tables, open: set<nat>)
    requires Opened(code, gone, t, open)
    ensures forall j :: InGep(t, j) ==> j in open
  {
  }

  lemma KeyGep(code: Code, t: Tables, j: nat)
    requires Tidy(code, t) && InGep(t, j)
    ensures IsGep(code, Var(j))
  {
    var n :| 0 <= n < |t.gep| && j in t.gep[n];
    assert Selves(code, t.gep[n]);
  }

  lemma BinaryArg(g: Graph, first: Lists, c: Context, i: nat, v: Value)
    requires AddressesLocal(g, c.code, first) && GoneKinds(c.code, c.gone) && i in c.code && c.code[i].op.Binary? &&
        v in Args(c.code, i, c.gone)
    ensures !IsGep(c.code, v)
  {
    var q :| 0 <= q < |c.code[i].args| && v == Args(c.code, i, c.gone)[q];
    assert c.code[i].args[q] in c.code[i].args;
  }

  /** The steps of the walk. */
  lemma BranchChild(g: Graph, p: seq<Block>, s: Block)
    requires p != [] && Branch(g, p) && s in g.preds && g.preds[s] == [p[|p| - 1]]
    ensures Branch(g, p + [s])
  {
  }

  lemma OpenBegin(first: Lists, up: seq<Block>, b: Block)
    requires b in first
    ensures OpenIds(first, up + [b], 0) == SeenIds(first, up)
    ensures OpenIds(first, up + [b], |first[b]|) == SeenIds(first, up + [b])
  {
    var p := up + [b];
    assert p[..|p| - 1] == up && first[b][..|first[b]|] == first[b];
    SeenSplit(first, up, b);
  }

  lemma OpenNext(first: Lists, up: seq<Block>, b: Block, k: nat)
    requires b in first && k < |first[b]|
    ensures OpenIds(first, up + [b], k + 1) == OpenIds(first, up + [b], k) + {first[b][k]}
  {
    var p := up + [b];
    assert p[..|p| - 1] == up;
    IdsNext(first[b], k);
  }

  /** What a child added to the replacements was not open. */
  lemma OpenedGrew(g: Graph, code: Code, first: Lists, w: Walk, u: Walk, b: Block, up: seq<Block>, t: Tables, v: Tables)
    requires Grew(g, first, w, u, b) && Blocks(up) <= Blocks(w.order) && v.gep == t.gep
    requires Opened(code, w.gone, t, SeenIds(first, up))
    ensures Opened(code, u.gone, v, SeenIds(first, up))
  {
    hide Opened;
    forall x | x in SeenIds(first, up)
      ensures (x in w.gone <==> x in u.gone) && (x in w.gone ==> u.gone[x] == w.gone[x])
    {
      var d :| d in up && d in first && x in first[d];
      assert d in Blocks(up);
      assert d in w.order;
    }
    OpenedGone(code, w.gone, u.gone, t, v, SeenIds(first, up));
  }

  /** What was replaced was replaced by something earlier. */
  lemma ReadyDownward(f: Interp, code: Code, before: Before, gone: map<nat, Value>, avail: set<nat>, t: Tables,
      keys: seq<nat>)
    requires Ready(f, code, before, gone, avail, t)
    ensures Downward(Context(code, gone, keys), before)
  {
    hide Sound, Same;
    forall d | d in gone && gone[d].Var?
      ensures d in before && gone[d].id in before[d]
    {
      assert GoneAt(f, code, before, gone, d);
    }
  }

  /** Erasing an address computation that was replaced changes nothing: it is not in the tables. */
  lemma EraseNothing(scopes: seq<map<nat, Value>>, d: nat)
    requires forall n :: 0 <= n < |scopes| ==> d !in scopes[n]
    ensures Erase(scopes, d) == scopes
  {
    forall n | 0 <= n < |scopes| ensures Erase(scopes, d)[n] == scopes[n] { assert scopes[n] - {d} == scopes[n]; }
  }

  lemma DeletedGep(code: Code, gone: map<nat, Value>, t: Tables, d: nat)
    requires !InGep(t, d)
    ensures Deleted(code, gone, t, d).gep == t.gep
  {
    EraseNothing(t.gep, d);
  }

  /** The outer scopes keep their address computations, as the instruction replaced is in none of them. */
  lemma DeletedOuter(code: Code, gone: map<nat, Value>, t: Tables, d: nat)
    requires IsGep(code, Var(d)) ==> forall n :: 0 <= n < |t.gep| - 1 ==> d !in t.gep[n]
    ensures forall n :: 0 <= n < |t.gep| - 1 ==> Deleted(code, gone, t, d).gep[n] == t.gep[n]
    ensures |Deleted(code, gone, t, d).gep| == |t.gep|
  {
    var u := Deleted(code, gone, t, d);
    forall n | 0 <= n < |t.gep| - 1 ensures u.gep[n] == t.gep[n] {
      if IsGep(code, Var(d)) { assert t.gep[n] - {d} == t.gep[n]; }
    }
  }

  /** An address computation that is not known is in no scope, and afterwards at most in the innermost one. */
  lemma UnknownOuter(code: Code, gone: map<nat, Value>, t: Tables, u: Tables, d: nat)
    requires |t.binary| == |t.gep| == |t.values| && IsGep(code, Var(d)) && NoneInside(code, gone, t, 0, Var(d))
    requires Grown(t, u)
    ensures !InGep(t, d) && forall n :: 0 <= n < |u.gep| - 1 ==> d !in u.gep[n]
  {
    forall n | 0 <= n < |t.gep| ensures d !in t.gep[n] {
      if d in t.gep[n] { assert HitAt(code, gone, t, n, Var(d), t.gep[n][d]); }
    }
  }

  lemma GoneKindsMore(code: Code, gone: map<nat, Value>, d: nat, r: Value)
    requires GoneKinds(code, gone) && SameKind(code, Var(d), r)
    ensures GoneKinds(code, gone[d := r])
  {
  }

  // Numbering one instruction.

  lemma NumberLooks(f: Interp, code: Code, before: Before, gone: map<nat, Value>, avail: set<nat>, t: Tables, d: nat)
    requires Ready(f, code, before, gone, avail, t) && d in code && d !in gone && ArgsIn(code, d, avail)
    ensures CanLook(code, gone, avail, Var(d))
  {
  }

  lemma ReplacedOuter(code: Code, gone: map<nat, Value>, t: Tables, u: Tables, d: nat, r: Value)
    requires |t.binary| == |t.gep| == |t.values| && Grown(t, u) && Tidy(code, t) && r != Var(d)
    requires !NoneInside(code, gone, t, 0, Var(d)) ==> u == t && Innermost(code, gone, t, Var(d), r)
    requires d in code && (code[d].op.Binary? ==> |code[d].args| == 2)
    ensures |Deleted(code, gone, u, d).gep| == |u.gep|
    ensures forall n :: 0 <= n < |u.gep| - 1 ==> Deleted(code, gone, u, d).gep[n] == u.gep[n]
  {
    hide Tidy, Grown, Innermost, NoneInside, Deleted;
    if IsGep(code, Var(d)) {
      if !NoneInside(code, gone, t, 0, Var(d)) {
        FoundKind(code, gone, t, Var(d), r);
      } else {
        UnknownOuter(code, gone, t, u, d);
      }
    }
    DeletedOuter(code, gone, u, d);
  }

  /** With local address computations numbering the instruction reached ends. */
  lemma NumberCalm(f: Interp, g: Graph, code: Code, first: Lists, before: Before, w: Walk, up: seq<Block>, b: Block,
      k: nat, gone: map<nat, Value>, t: Tables, keys: seq<nat>, fuel: nat)
    requires WalkOk(f, g, code, first, before, w) && AddressesLocal(g, code, first) && Branch(g, up + [b])
    requires Blocks(up) <= Blocks(w.order)
    requires Next(g, w, b) && b in first && k < |first[b]| && Opened(code, gone, t, OpenIds(first, up + [b], k))
    requires GoneKinds(code, gone) && Tidy(code, t) && (exists avail :: Ready(f, code, before, gone, avail, t))
    requires Fit(Context(code, gone, keys)) && Scoped(t)
    ensures var c := Context(code, gone, keys); var d := first[b][k];
            && Var(d) in Pool(code) && d !in OpenIds(first, up + [b], k)
            && (IsNumbered(code, Var(d)) && fuel > |code| ==> Look(c, t, Var(d), Fuel(fuel)).Ended?)
            && (IsNumbered(code, Var(d)) ==> Enters(code, t, Look(c, t, Var(d), Fuel(fuel)), d))
  {
    hide WalkOk, AddressesLocal, Branch, Next, Ready, Opened, OpenIds, GoneKinds, Tidy, Fit, Pool, Look, Calm, Settled,
        InGep, Insert, Downward, SeenIds;
    var c, p := Context(code, gone, keys), up + [b];
    var d := first[b][k];
    WalkParts(f, g, code, first, before, w);
    SsaParts(g, code, first, before);
    NextParts(g, w, b);
    BranchBlocks(f, g, code, first, before, w, up, b);
    OpenedCalm(g, code, first, before, p, k, c, t);
    ArgsInPool(c, d);
    var avail :| Ready(f, code, before, gone, avail, t);
    ReadyDownward(f, code, before, gone, avail, t, keys);
    if IsNumbered(code, Var(d)) { CalmStep(c, before, t, d, fuel); }
  }

  lemma BranchBlocks(f: Interp, g: Graph, code: Code, first: Lists, before: Before, w: Walk, up: seq<Block>, b: Block)
    requires WalkOk(f, g, code, first, before, w) && Blocks(up) <= Blocks(w.order) && b in first && b !in w.order
    ensures var p := up + [b]; (forall l :: 0 <= l < |p| ==> p[l] in first) && p[..|p| - 1] == up && b !in up
  {
    hide InSsa, GoneOk, GoneIn, Ordered, DomsDone;
    WalkParts(f, g, code, first, before, w);
    SsaParts(g, code, first, before);
    forall c | c in up ensures c in w.order && c in first { assert c in Blocks(up); }
  }

  /** The tables after it. */
  lemma NumberOpened(g: Graph, code: Code, first: Lists, gone: map<nat, Value>, more: map<nat, Value>, t: Tables,
      u: Tables, up: seq<Block>, b: Block, k: nat, keys: seq<nat>, fuel: nat)
    requires b in first && k < |first[b]| && first[b][k] in code && first[b][k] !in gone && Scoped(t)
    requires GoneKinds(code, more)
    requires Fit(Context(code, gone, keys)) && Var(first[b][k]) in Pool(code)
    requires first[b][k] !in OpenIds(first, up + [b], k)
    requires Opened(code, gone, t, OpenIds(first, up + [b], k))
    requires !code[first[b][k]].op.Numbered() ==> u == t && more == gone
    requires var d := first[b][k]; code[d].op.Numbered() ==>
               var s := Look(Context(code, gone, keys), t, Var(d), Fuel(fuel));
               && s.Ended? && Enters(code, t, s, d)
               && (if s.r == Var(d) then more == gone && u == s.t
                   else more == gone[d := s.r] && u == Deleted(code, gone, s.t, d))
    ensures Opened(code, more, u, OpenIds(first, up + [b], k + 1))
  {
    hide Opened, OpenIds, GoneKinds, Fit, Pool, Look, InGep, Insert, Deleted;
    var d := first[b][k];
    if code[d].op.Numbered() {
      var s := Look(Context(code, gone, keys), t, Var(d), Fuel(fuel));
      if s.r != Var(d) {
        if IsGep(code, Var(d)) {
          InGepSame(t, s.t);
          DeletedGep(code, gone, s.t, d);
        } else {
          DeletedBinary(code, gone, s.t, d);
        }
      }
    }
    assert AddStep(code, t, u, more, d);
    OpenedStep(code, gone, more, t, u, OpenIds(first, up + [b], k), d);
    OpenNext(first, up, b, k);
  }

  lemma DeletedBinary(code: Code, gone: map<nat, Value>, t: Tables, d: nat)
    requires !IsGep(code, Var(d))
    ensures Deleted(code, gone, t, d).gep == t.gep
  {
  }

  lemma RootBranch(f: Interp, g: Graph, code: Code, first: Lists, before: Before, w: Walk, b: Block)
    requires WalkOk(f, g, code, first, before, w) && w.queue != [] && w.queue[0] == b
    ensures Branch(g, [] + [b]) && Blocks([]) <= Blocks(w.order)
  {
    hide InSsa, GoneOk, GoneIn, Ordered, DomsDone, ListsOk;
    WalkParts(f, g, code, first, before, w);
    assert b in w.queue;
  }

  lemma ChildBranch(f: Interp, g: Graph, code: Code, first: Lists, before: Before, u: Walk, path: seq<Block>, b: Block,
      s: Block)
    requires WalkOk(f, g, code, first, before, u) && path != [] && Branch(g, path) && path[|path| - 1] == b &&
        g.Edge(b, s) && s in g.preds && |g.preds[s]| == 1
    ensures Branch(g, path + [s])
  {
    hide WalkOk, Branch, GoneOk, GoneIn, Ordered, DomsDone, ListsOk;
    WalkParts(f, g, code, first, before, u);
    SsaParts(g, code, first, before);
    EntryNotSucc(g, b, s);
    assert g.preds[s] == [b];
    BranchChild(g, path, s);
  }

  lemma PathSeen(up: seq<Block>, b: Block, was: seq<Block>, order: seq<Block>)
    requires Blocks(up) <= Blocks(was) && order == was + [b]
    ensures Blocks(up + [b]) <= Blocks(order)
  {
    forall c | c in Blocks(up + [b]) ensures c in Blocks(order) {
      if c != b { assert c in Blocks(up); }
    }
  }

  lemma GrewBlocks(g: Graph, first: Lists, w: Walk, u: Walk, b: Block)
    requires Grew(g, first, w, u, b)
    ensures Blocks(w.order) <= Blocks(u.order)
  {
    forall c | c in Blocks(w.order) ensures c in Blocks(u.order) {
      var k :| 0 <= k < |w.order| && w.order[k] == c;
      assert u.order[..|w.order|][k] == c;
    }
  }
}
