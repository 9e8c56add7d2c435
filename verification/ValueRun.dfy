/** Runs of a function before and after value numbering. */
module ValueRun {
  import opened Cfg
  import opened ValueTable
  import opened ValueOrder
  import opened ValueFlow
  import opened ValueWalk

  /** The result of an instruction that is not numbered, by the path run so far and its operand values. */
  type Oracle = (Path, nat, seq<int>) -> int

  /** An instruction that is not numbered was executed with these operand values. */
  datatype Event = Event(id: nat, vals: seq<int>)

  datatype State = State(env: Env, trace: seq<Event>)

  function IndexOf(from: seq<Block>, b: Block): (k: nat)
    ensures k <= |from| && (k < |from| ==> from[k] == b)
  {
    if from == [] || from[0] == b then 0 else 1 + IndexOf(from[1..], b)
  }

  /** The block the path came from when it entered its last block. */
  ghost function Came(g: Graph, p: Path): Block {
    if p.Then? then End(g, p.front) else g.entry
  }

  /** The value an instruction computes: numbered ones from the present operands, phis from those at the end of the
      previous block. */
  ghost function ValueOf(f: Interp, o: Oracle, g: Graph, p: Path, op: Op, args: seq<Value>, x: nat, start: Env,
      e: Env): int {
    match op
    case Phi(from) =>
      var k := IndexOf(from, Came(g, p));
      if p.Then? && k < |from| && k < |args| then Eval(start, args[k]) else o(p, x, [])
    case Other(_) => o(p, x, Evals(e, args))
    case _ => f(op, Evals(e, args))
  }

  ghost function Step(f: Interp, o: Oracle, g: Graph, code: Code, gone: map<nat, Value>, p: Path, start: Env, s: State,
      x: nat): State {
    if x !in code then s
    else
      var args := Args(code, x, gone);
      State(s.env.(vars := s.env.vars[x := ValueOf(f, o, g, p, code[x].op, args, x, start, s.env)]),
            if code[x].op.Other? then s.trace + [Event(x, Evals(s.env, args))] else s.trace)
  }

  ghost function RunList(f: Interp, o: Oracle, g: Graph, code: Code, gone: map<nat, Value>, p: Path, start: Env,
      s: State, list: seq<nat>): State {
    if list == [] then s
    else Step(f, o, g, code, gone, p, start, RunList(f, o, g, code, gone, p, start, s, list[..|list| - 1]),
        list[|list| - 1])
  }

  /** Running along a path; gone says which operands are read as what. */
  ghost function RunPath(f: Interp, o: Oracle, g: Graph, code: Code, lists: Lists, gone: map<nat, Value>, init: Env,
      p: Path): State {
    var s := if p.Then? then RunPath(f, o, g, code, lists, gone, init, p.front) else State(init, []);
    var b := End(g, p);
    if b in lists then RunList(f, o, g, code, gone, p, s.env, s, lists[b]) else s
  }

  /** Operands of the other instructions dominate them, operands of phis dominate the ends of their blocks. */
  ghost predicate UsesOk(g: Graph, code: Code, lists: Lists, before: Before) {
    forall x :: x in code ==> UseOk(g, code, lists, before, x)
  }

  ghost predicate UseOk(g: Graph, code: Code, lists: Lists, before: Before, x: nat)
    requires x in code
  {
    match code[x].op
    case Phi(from) =>
      |from| == |code[x].args| && forall k :: 0 <= k < |from| ==> Inside(code[x].args[k], AvailOut(g, lists, from[k]))
    case _ => x in before && forall v :: v in code[x].args ==> Inside(v, before[x])
  }

  ghost predicate Inside(v: Value, avail: set<nat>) {
    v.Var? ==> v.id in avail
  }

  /** The two environments agree on what is available and stays. */
  ghost predicate Agree(e: Env, e': Env, avail: set<nat>, gone: map<nat, Value>) {
    e.fixed == e'.fixed && forall x :: x in avail && x !in gone ==> Eval(e, Var(x)) == Eval(e', Var(x))
  }

  ghost predicate Follows(f: Interp, code: Code, s: State, s': State, avail: set<nat>, gone: map<nat, Value>) {
    Models(f, code, s.env, avail) && Agree(s.env, s'.env, avail, gone) && s.trace == s'.trace
  }

  lemma {:induction false} WithoutLast(s: seq<nat>, out: set<nat>)
    requires s != []
    ensures Without(s, out) == Without(s[..|s| - 1], out) + if s[|s| - 1] in out then [] else [s[|s| - 1]]
  {
    if |s| > 1 {
      WithoutLast(s[1..], out);
      assert s[1..][..|s| - 2] == s[..|s| - 1][1..];
    } else {
      assert s[..0] == [] && s[1..] == [];
    }
  }

  /** An available operand read through the replacements has the value of the original operand. */
  lemma ResolvedAgrees(f: Interp, code: Code, before: Before, gone: map<nat, Value>, avail: set<nat>, e: Env, e': Env,
      v: Value)
    requires GoneSound(f, code, avail, gone) && Models(f, code, e, avail) && Agree(e, e', avail, gone)
    requires Inside(v, avail)
    ensures Eval(e, v) == Eval(e', Resolve(v, gone))
  {
    if v.Var? && v.id in gone {
      assert Same(f, code, avail, Var(v.id), gone[v.id]);
    }
  }

  lemma ArgsAgree(f: Interp, code: Code, before: Before, gone: map<nat, Value>, avail: set<nat>, e: Env, e': Env,
      x: nat)
    requires GoneSound(f, code, avail, gone) && Models(f, code, e, avail) && Agree(e, e', avail, gone)
    requires x in code && forall v :: v in code[x].args ==> Inside(v, avail)
    ensures Evals(e, code[x].args) == Evals(e', Args(code, x, gone))
  {
    hide GoneSound, Models, Agree;
    var args := Args(code, x, gone);
    forall k | 0 <= k < |args| ensures Eval(e, code[x].args[k]) == Eval(e', args[k]) {
      assert code[x].args[k] in code[x].args;
      ResolvedAgrees(f, code, before, gone, avail, e, e', code[x].args[k]);
    }
  }

  /** Setting a variable that is not available leaves the equations of the available ones. */
  lemma ModelsUpdate(f: Interp, code: Code, before: Before, e: Env, avail: set<nat>, x: nat, val: int)
    requires Ordered(code, before) && Down(before, avail) && Models(f, code, e, avail) && x !in avail
    ensures Models(f, code, e.(vars := e.vars[x := val]), avail)
  {
    var e2 := e.(vars := e.vars[x := val]);
    forall i | i in avail && i in code && code[i].op.Numbered()
      ensures Eval(e2, Var(i)) == f(code[i].op, Evals(e2, code[i].args))
    {
      ArgsUntouched(code, before, e, e2, avail, i, x);
    }
  }

  lemma ArgsUntouched(code: Code, before: Before, e: Env, e2: Env, avail: set<nat>, i: nat, x: nat)
    requires i in code && ArgsIn(code, i, avail) && code[i].op.Numbered() && x !in avail
    requires e2.fixed == e.fixed && e2.vars.Keys == e.vars.Keys + {x}
    requires forall y :: y in e.vars && y != x ==> e2.vars[y] == e.vars[y]
    ensures Evals(e2, code[i].args) == Evals(e, code[i].args)
  {
    forall k | 0 <= k < |code[i].args| ensures Eval(e2, code[i].args[k]) == Eval(e, code[i].args[k]) {
      assert code[i].args[k] in code[i].args;
    }
  }

  lemma OriginalArgs(code: Code, x: nat)
    requires x in code
    ensures Args(code, x, map[]) == code[x].args
  {
  }

  /** What the environments at the end of the previous block must satisfy. */
  ghost predicate StartOk(f: Interp, g: Graph, code: Code, lists: Lists, before: Before, gone: map<nat, Value>, p: Path,
      start: Env, start': Env) {
    p.Then? ==> GoneSound(f, code, AvailOut(g, lists, Came(g, p)), gone) && Models(f, code, start,
        AvailOut(g, lists, Came(g, p))) &&
                Agree(start, start', AvailOut(g, lists, Came(g, p)), gone)
  }

  /** An instruction computes the same value from its original and from its present operands. */
  lemma ValueAgrees(f: Interp, o: Oracle, g: Graph, code: Code, lists: Lists, before: Before, gone: map<nat, Value>,
      p: Path, start: Env, start': Env,
                    s: State, s': State, avail: set<nat>, x: nat)
    requires GoneSound(f, code, avail, gone) && Follows(f, code, s, s', avail, gone) && x in code && x in before
    requires before[x] == avail
    requires StartOk(f, g, code, lists, before, gone, p, start, start') && UseOk(g, code, lists, before, x)
    requires ArgsIn(code, x, avail)
    ensures ValueOf(f, o, g, p, code[x].op, code[x].args, x, start, s.env) ==
            ValueOf(f, o, g, p, code[x].op, Args(code, x, gone), x, start', s'.env)
    ensures code[x].op.Other? ==> Evals(s.env, code[x].args) == Evals(s'.env, Args(code, x, gone))
  {
    hide GoneSound, Models, Agree, AvailOut, AvailIn;
    if code[x].op.Phi? {
      var k := IndexOf(code[x].op.from, Came(g, p));
      if p.Then? && k < |code[x].args| {
        ResolvedAgrees(f, code, before, gone, AvailOut(g, lists, Came(g, p)), start, start', code[x].args[k]);
      }
    } else {
      ArgsAgree(f, code, before, gone, avail, s.env, s'.env, x);
    }
  }

  /** The equations hold with the instruction just executed. */
  lemma StepModels(f: Interp, o: Oracle, g: Graph, code: Code, before: Before, p: Path, start: Env, s: State,
      avail: set<nat>, x: nat)
    requires Ordered(code, before) && Down(before, avail) && Models(f, code, s.env, avail) && x in code &&
        x !in avail && ArgsIn(code, x, avail)
    ensures Models(f, code, Step(f, o, g, code, map[], p, start, s, x).env, avail + {x})
  {
    hide Ordered, Down;
    var val := ValueOf(f, o, g, p, code[x].op, code[x].args, x, start, s.env);
    var e2 := s.env.(vars := s.env.vars[x := val]);
    OriginalArgs(code, x);
    ModelsUpdate(f, code, before, s.env, avail, x, val);
    if code[x].op.Numbered() { ArgsUntouched(code, before, s.env, e2, avail, x, x); }
  }

  lemma AgreeUpdate(e: Env, e': Env, avail: set<nat>, gone: map<nat, Value>, x: nat, val: int)
    requires Agree(e, e', avail, gone)
    ensures Agree(e.(vars := e.vars[x := val]), e'.(vars := e'.vars[x := val]), avail + {x}, gone)
    ensures x in gone && x !in avail ==> Agree(e.(vars := e.vars[x := val]), e', avail + {x}, gone)
  {
  }

  /** One instruction: executed in both runs, or only in the original one when it was replaced. */
  lemma StepFollows(f: Interp, o: Oracle, g: Graph, code: Code, lists: Lists, before: Before, gone: map<nat, Value>,
      p: Path, start: Env, start': Env,
                    s: State, s': State, avail: set<nat>, x: nat)
    requires Ordered(code, before) && Down(before, avail) && GoneSound(f, code, avail, gone)
    requires Follows(f, code, s, s', avail, gone)
    requires x in code && x in before && before[x] == avail && x !in avail && ArgsIn(code, x, avail) &&
        (x in gone ==> code[x].op.Numbered())
    requires StartOk(f, g, code, lists, before, gone, p, start, start') && UseOk(g, code, lists, before, x)
    ensures Follows(f, code, Step(f, o, g, code, map[], p, start, s, x),
        if x in gone then s' else Step(f, o, g, code, gone, p, start', s', x), avail + {x}, gone)
  {
    hide Ordered, Down, GoneSound, StartOk, UseOk, ArgsIn, Models, Agree, ValueOf;
    OriginalArgs(code, x);
    StepModels(f, o, g, code, before, p, start, s, avail, x);
    AgreeUpdate(s.env, s'.env, avail, gone, x, ValueOf(f, o, g, p, code[x].op, code[x].args, x, start, s.env));
    if x !in gone { ValueAgrees(f, o, g, code, lists, before, gone, p, start, start', s, s', avail, x); }
  }

  /** Everything the two runs rely on. */
  ghost predicate Numbered(f: Interp, g: Graph, code: Code, lists: Lists, before: Before, gone: map<nat, Value>) {
    InSsa(g, code, lists, before) && Ordered(code, before) && UsesOk(g, code, lists, before) &&
        GoneOk(f, code, before, gone)
  }

  lemma AvailAt(f: Interp, g: Graph, code: Code, lists: Lists, before: Before, gone: map<nat, Value>, b: Block, k: nat)
    requires Numbered(f, g, code, lists, before, gone) && b in lists && k <= |lists[b]|
    ensures var avail := AvailIn(g, lists, b) + Ids(lists[b][..k]);
            Down(before, avail) && GoneSound(f, code, avail, gone)
  {
    hide InSsa, UsesOk, GoneOk, Ordered, GoneSound, AvailIn;
    SsaParts(g, code, lists, before);
    AvailInDown(g, code, lists, before, b);
    var avail := AvailIn(g, lists, b) + Ids(lists[b][..k]);
    forall x | x in avail ensures x in before && before[x] <= avail {
      if x in Ids(lists[b][..k]) {
        var j := IdAt(lists[b][..k], x);
        PlacedAt(g, code, lists, before, b, j, x);
        assert lists[b][..j] == lists[b][..k][..j];
      }
    }
    GoneAvailable(f, code, before, gone, avail);
  }

  lemma InstrAt(f: Interp, g: Graph, code: Code, lists: Lists, before: Before, gone: map<nat, Value>, b: Block, k: nat)
    requires Numbered(f, g, code, lists, before, gone) && b in lists && k < |lists[b]|
    ensures var x := lists[b][k];
            && x in code && x in before && before[x] == AvailIn(g, lists, b) + Ids(lists[b][..k]) && x !in before[x] &&
                ArgsIn(code, x, before[x])
            && UseOk(g, code, lists, before, x) && (x in gone ==> code[x].op.Numbered())
  {
    hide AvailIn, Placed, ArgsIn, UseOk, Same, Reachable;
    var x := lists[b][k];
    assert At(lists, b, k, x);
    PlacedAt(g, code, lists, before, b, k, x);
    assert x in gone ==> GoneAt(f, code, before, gone, x);
  }

  /** Running the first k instructions of a block. */
  lemma {:induction false} BlockFollows(f: Interp, o: Oracle, g: Graph, code: Code, lists: Lists, before: Before,
      gone: map<nat, Value>, p: Path,
                                        s: State, s': State, b: Block, k: nat)
    requires Numbered(f, g, code, lists, before, gone) && b in lists && k <= |lists[b]| &&
        Follows(f, code, s, s', AvailIn(g, lists, b), gone)
    requires StartOk(f, g, code, lists, before, gone, p, s.env, s'.env)
    ensures Follows(f, code, RunList(f, o, g, code, map[], p, s.env, s, lists[b][..k]),
                    RunList(f, o, g, code, gone, p, s'.env, s', Without(lists[b][..k], gone.Keys)),
                    AvailIn(g, lists, b) + Ids(lists[b][..k]), gone)
    decreases k
  {
    hide Numbered, Follows, StartOk, AvailIn, GoneSound, Down, ArgsIn, UseOk, Step;
    var avail := AvailIn(g, lists, b);
    if k == 0 {
      assert avail + Ids(lists[b][..0]) == avail;
    } else {
      var l, n := lists[b][..k], k - 1;
      BlockFollows(f, o, g, code, lists, before, gone, p, s, s', b, n);
      assert l[..n] == lists[b][..n] && l[n] == lists[b][n];
      AvailAt(f, g, code, lists, before, gone, b, n);
      InstrAt(f, g, code, lists, before, gone, b, n);
      NumberedParts(f, g, code, lists, before, gone);
      var t := RunList(f, o, g, code, map[], p, s.env, s, l[..n]);
      var t' := RunList(f, o, g, code, gone, p, s'.env, s', Without(l[..n], gone.Keys));
      StepFollows(f, o, g, code, lists, before, gone, p, s.env, s'.env, t, t', avail + Ids(l[..n]), l[n]);
      IdsNext(lists[b], n);
      assert avail + Ids(l[..n]) + {l[n]} == avail + Ids(l);
      WithoutLast(l, gone.Keys);
      RunSnoc(f, o, g, code, gone, p, s'.env, s', Without(l[..n], gone.Keys), l[n]);
    }
  }

  lemma NumberedParts(f: Interp, g: Graph, code: Code, lists: Lists, before: Before, gone: map<nat, Value>)
    requires Numbered(f, g, code, lists, before, gone)
    ensures InSsa(g, code, lists, before) && Ordered(code, before) && GoneOk(f, code, before, gone)
  {
  }

  lemma RunSnoc(f: Interp, o: Oracle, g: Graph, code: Code, gone: map<nat, Value>, p: Path, start: Env, s: State,
      list: seq<nat>, x: nat)
    ensures RunList(f, o, g, code, gone, p, start, s, list + [x]) == Step(f, o, g, code, gone, p, start,
        RunList(f, o, g, code, gone, p, start, s, list), x)
    ensures list + [] == list
  {
    assert (list + [x])[..|list|] == list;
  }

  /** The lists that remain after value numbering. */
  ghost function Remaining(lists: Lists, gone: map<nat, Value>): Lists {
    map b | b in lists :: Without(lists[b], gone.Keys)
  }

  /** Along every path the numbered function observes the same operand values in the same order, and every
      instruction that stays has the same value wherever it is available. */
  lemma {:induction false} RunsAgree(f: Interp, o: Oracle, g: Graph, code: Code, lists: Lists, before: Before,
      gone: map<nat, Value>, init: Env, p: Path)
    requires Numbered(f, g, code, lists, before, gone) && IsPath(g, p)
    ensures Follows(f, code, RunPath(f, o, g, code, lists, map[], init, p),
            RunPath(f, o, g, code, Remaining(lists, gone), gone, init, p),
                    AvailOut(g, lists, End(g, p)), gone)
  {
    hide Numbered, Follows, Without, AvailIn, IsPath, RunList;
    var b := End(g, p);
    NumberedParts(f, g, code, lists, before, gone);
    SsaParts(g, code, lists, before);
    PathInGraph(g, p);
    var s := if p.Then? then RunPath(f, o, g, code, lists, map[], init, p.front) else State(init, []);
    var s' := if p.Then? then RunPath(f, o, g, code, Remaining(lists, gone), gone, init, p.front) else State(init, []);
    if p.Then? {
      PathFront(g, p);
      RunsAgree(f, o, g, code, lists, before, gone, init, p.front);
      AvailAlongEdge(g, lists, End(g, p.front), b);
      PathInGraph(g, p.front);
      AvailAt(f, g, code, lists, before, gone, End(g, p.front), |lists[End(g, p.front)]|);
      StartFollows(f, g, code, lists, before, gone, p, s, s');
      FollowsLess(f, code, s, s', AvailOut(g, lists, End(g, p.front)), AvailIn(g, lists, b), gone);
    } else {
      EntryStarts(f, g, code, lists, init, gone);
    }
    BlockFollows(f, o, g, code, lists, before, gone, p, s, s', b, |lists[b]|);
    assert lists[b][..|lists[b]|] == lists[b];
  }

  lemma PathFront(g: Graph, p: Path)
    requires IsPath(g, p) && p.Then?
    ensures IsPath(g, p.front) && g.Edge(End(g, p.front), p.to)
  {
  }

  lemma PathInGraph(g: Graph, p: Path)
    requires g.Valid() && IsPath(g, p)
    ensures End(g, p) in g.succs
  {
  }

  lemma FollowsLess(f: Interp, code: Code, s: State, s': State, avail: set<nat>, less: set<nat>, gone: map<nat, Value>)
    requires Follows(f, code, s, s', avail, gone) && less <= avail
    ensures Follows(f, code, s, s', less, gone)
  {
  }

  lemma StartFollows(f: Interp, g: Graph, code: Code, lists: Lists, before: Before, gone: map<nat, Value>, p: Path,
      s: State, s': State)
    requires p.Then? && End(g, p.front) in lists && Follows(f, code, s, s', AvailOut(g, lists, End(g, p.front)), gone)
    requires GoneSound(f, code, AvailIn(g, lists,
             End(g, p.front)) + Ids(lists[End(g, p.front)][..|lists[End(g, p.front)]|]), gone)
    ensures StartOk(f, g, code, lists, before, gone, p, s.env, s'.env)
  {
    hide GoneSound, Models, Agree, AvailIn;
    var c := End(g, p.front);
    assert lists[c][..|lists[c]|] == lists[c];
  }

  lemma EntryStarts(f: Interp, g: Graph, code: Code, lists: Lists, init: Env, gone: map<nat, Value>)
    ensures Follows(f, code, State(init, []), State(init, []), AvailIn(g, lists, g.entry), gone)
  {
    forall d | d in lists ensures !StrictDom(g, d, g.entry) { EntryAlone(g, d); }
    assert AvailIn(g, lists, g.entry) == {};
  }
}
