/** What the lowering makes of each basic block, and that the lowered function runs like the tree. */
module Lowering {
  import opened Hir

  /** Where a block of a tree continues: the block that follows, and the entry and exit of the innermost loop. */
  datatype Ctx = Ctx(next: Label, entry: Label, exit: Label)

  /** A block that is not terminated gets a branch, and the break or continue at its end goes. */
  function Closed(c: seq<Instr>, k: Ctx): seq<Instr> {
    if Terminated(c) then c
    else if c != [] && c[|c| - 1].Break? then c[..|c| - 1] + [Br(k.exit)]
    else if c != [] && c[|c| - 1].Continue? then c[..|c| - 1] + [Br(k.entry)]
    else c + [Br(k.next)]
  }

  ghost predicate LoweredConds(code0: Code, code: Code, conds: seq<Label>, yes: Label, no: Label, k: Ctx) {
    && (forall i :: 0 <= i < |conds| ==> conds[i] in code0 && conds[i] in code)
    && (forall i {:trigger conds[i]} :: 0 <= i < |conds| - 1 ==>
                                          code[conds[i]] == Closed(code0[conds[i]], k.(next := conds[i + 1])))
    && (conds != [] ==>
          var b := conds[|conds| - 1];
          code0[b] != [] && code0[b][|code0[b]| - 1].Op? &&
              code[b] == code0[b] + [CondBr(code0[b][|code0[b]| - 1].id, yes, no)])
  }

  /** The blocks of t have the instructions of code0 in code, closed so as to continue at k. */
  ghost predicate Lowered(code0: Code, code: Code, t: Tree, k: Ctx)
    decreases t
  {
    match t
    case Basic(b) => b in code0 && b in code && code[b] == Closed(code0[b], k)
    case If(conds, thens, elses) =>
      && LoweredConds(code0, code, conds, TargetOf(thens, k.next), TargetOf(elses, k.next), k)
      && LoweredList(code0, code, thens, k) && LoweredList(code0, code, elses, k)
    case While(conds, body) =>
      && LoweredConds(code0, code, conds, TargetOf(body, Target(t)), k.next, k)
      && LoweredList(code0, code, body, Ctx(Target(t), Target(t), k.next))
  }

  ghost predicate LoweredList(code0: Code, code: Code, ts: seq<Tree>, k: Ctx)
    decreases ts
  {
    ts != [] ==> Lowered(code0, code, ts[0], k.(next := TargetOf(ts[1..], k.next))) && LoweredList(code0, code, ts[1..],
        k)
  }

  /** The lowered function goes on where a tree with this outcome continues. */
  ghost function Resume<S>(m: Machine<S>, code: Code, k: Ctx, o: Outcome<S>): Outcome<S> {
    match o
    case Fall(s, f) => RunCfg(m, code, k.next, s, f)
    case Broke(s, f) => RunCfg(m, code, k.exit, s, f)
    case Continued(s, f) => RunCfg(m, code, k.entry, s, f)
    case _ => o
  }

  predicate NoReturn(c: seq<Instr>) {
    forall i :: 0 <= i < |c| ==> !IsReturn(c[i])
  }

  /** A block without a return runs to its end, wherever that goes. */
  lemma {:induction false} RunsWhole(c: seq<Instr>, x: Instr)
    requires NoReturn(c)
    ensures ToReturn(c) == c && ToReturn(c + [x]) == c + [x]
  {
    if c != [] {
      RunsWhole(c[1..], x);
      assert (c + [x])[1..] == c[1..] + [x];
    } else {
      assert c + [x] == [x] && [x][1..] == [];
    }
  }

  /** What stands after a return does not matter. */
  lemma {:induction false} ReturnsFirst(c: seq<Instr>, x: seq<Instr>)
    requires !NoReturn(c)
    ensures ToReturn(c + x) == ToReturn(c) != [] && IsReturn(ToReturn(c)[|ToReturn(c)| - 1])
  {
    if !IsReturn(c[0]) {
      assert (c + x)[1..] == c[1..] + x;
      var i :| 0 <= i < |c| && IsReturn(c[i]);
      assert c[1..][i - 1] == c[i];
      ReturnsFirst(c[1..], x);
    }
  }

  /** What can run of a block after its last instruction became another. */
  lemma ClosedBlock(c: seq<Instr>, x: Instr)
    ensures ToReturn(c + [x]) == if NoReturn(c) then c + [x] else ToReturn(c)
    ensures c != [] && !IsReturn(c[|c| - 1]) ==>
              ToReturn(c[..|c| - 1] + [x]) == if NoReturn(c) then c[..|c| - 1] + [x] else ToReturn(c)
    ensures if NoReturn(c) then ToReturn(c) == c else ToReturn(c) != [] && IsReturn(ToReturn(c)[|ToReturn(c)| - 1])
  {
    if NoReturn(c) { RunsWhole(c, x); } else { ReturnsFirst(c, [x]); }
    if c != [] && !IsReturn(c[|c| - 1]) {
      var front := c[..|c| - 1];
      assert c == front + [c[|c| - 1]];
      if NoReturn(c) {
        RunsWhole(front, x);
      } else {
        var i :| 0 <= i < |c| && IsReturn(c[i]);
        assert front[i] == c[i];
        ReturnsFirst(front, [x]);
        ReturnsFirst(front, [c[|c| - 1]]);
      }
    }
  }

  /** A closed block runs its ordinary instructions and then goes where the tree says. */
  lemma ClosedRuns<S>(m: Machine<S>, code0: Code, code: Code, b: Label, k: Ctx, s: S, fuel: nat)
    requires b in code0 && b in code && code[b] == Closed(code0[b], k) && Plain(ToReturn(code0[b]))
    requires code0[b] != [] ==> !code0[b][|code0[b]| - 1].Br? && !code0[b][|code0[b]| - 1].CondBr?
    ensures RunCfg(m, code, b, s, fuel) == Resume(m, code, k, Exec(m, code0, Basic(b), k.next, s, fuel))
  {
    hide ToReturn;
    var c0 := code0[b];
    ClosedBlock(c0, if c0 != [] && c0[|c0| - 1].Break? then Br(k.exit) else if c0 != [] &&
        c0[|c0| - 1].Continue? then Br(k.entry) else Br(k.next));
    var c := ToReturn(code[b]);
    assert c[..|c| - 1] == Body(ToReturn(c0));
  }

  lemma LastCondRuns<S>(m: Machine<S>, code0: Code, code: Code, b: Label, yes: Label, no: Label, s: S, fuel: nat)
    requires b in code0 && b in code && code0[b] != [] && AllOps(code0[b])
    requires code[b] == code0[b] + [CondBr(code0[b][|code0[b]| - 1].id, yes, no)]
    ensures fuel == 0 ==> RunCfg(m, code, b, s, fuel) == Spent
    ensures fuel > 0 ==>
      var s' := RunOps(m, Body(code0[b]), s);
      RunCfg(m, code, b, s, fuel) ==
      RunCfg(m, code, if m.test(code0[b][|code0[b]| - 1].id, s') then yes else no, s', fuel - 1)
  {
    hide ToReturn;
    var c0, c := code0[b], code[b];
    assert NoReturn(c0);
    ClosedBlock(c0, CondBr(c0[|c0| - 1].id, yes, no));
    assert c[..|c| - 1] == c0;
  }

  /** An earlier condition block runs into the next one or takes its own branch. */
  lemma EarlyCondRuns<S>(m: Machine<S>, code0: Code, code: Code, b: Label, k: Ctx, s: S, fuel: nat)
    requires b in code0 && b in code && code[b] == Closed(code0[b], k) && Plain(code0[b])
    requires code0[b] != [] && !code0[b][|code0[b]| - 1].Op? ==> code0[b][|code0[b]| - 1].CondBr?
    ensures fuel == 0 ==> RunCfg(m, code, b, s, fuel) == Spent
    ensures fuel > 0 ==>
      var c0 := code0[b];
      var s' := RunOps(m, Body(c0), s);
      var to := if c0 == [] || c0[|c0| - 1].Op? then k.next
                else if m.test(c0[|c0| - 1].cond, s') then c0[|c0| - 1].yes else c0[|c0| - 1].no;
      RunCfg(m, code, b, s, fuel) == RunCfg(m, code, to, s', fuel - 1)
  {
    hide ToReturn;
    var c0, c := code0[b], code[b];
    assert NoReturn(c0) by { if c0 != [] { assert c0 == c0[..|c0| - 1] + [c0[|c0| - 1]]; } }
    ClosedBlock(c0, Br(k.next));
    assert c[..|c| - 1] == Body(c0);
  }

  ghost function ResumeChoice<S>(m: Machine<S>, code: Code, yes: Label, no: Label, o: Choice<S>): Outcome<S> {
    match o
    case Yes(s, f) => RunCfg(m, code, yes, s, f)
    case No(s, f) => RunCfg(m, code, no, s, f)
    case NoFuel => Spent
    case Lost => Stuck
  }

  lemma LaterIs(conds: seq<Label>, i: nat, yes: Label, no: Label, x: Label)
    requires i < |conds| && Allowed(conds, i, yes, no, x) && x != yes && x != no
    ensures Later(conds, i, x) < |conds| && conds[Later(conds, i, x)] == x
  {
  }

  /** Running the condition blocks from block i on takes the branch that the condition chooses. */
  lemma {:induction false} CondsRun<S>(m: Machine<S>, code0: Code, code: Code, conds: seq<Label>, i: nat, yes: Label,
      no: Label, k: Ctx, s: S, fuel: nat)
    requires CondsOk(code0, conds, yes, no) && LoweredConds(code0, code, conds, yes, no, k) && i < |conds|
    ensures RunCfg(m, code, conds[i], s, fuel) == ResumeChoice(m, code, yes, no,
            Decide(m, code0, conds, i, yes, no, s, fuel))
    decreases |conds| - i
  {
    hide Closed, RunCfg, RunOps, AllOps, Terminated, Body, Later, Allowed;
    var c0 := code0[conds[i]];
    if i == |conds| - 1 {
      LastCondRuns(m, code0, code, conds[i], yes, no, s, fuel);
    } else {
      assert CondOk(c0, conds, i, yes, no);
      EarlyCondRuns(m, code0, code, conds[i], k.(next := conds[i + 1]), s, fuel);
      if fuel > 0 {
        var s' := RunOps(m, Body(c0), s);
        if c0 == [] || c0[|c0| - 1].Op? {
          CondsRun(m, code0, code, conds, i + 1, yes, no, k, s', fuel - 1);
        } else {
          var x := if m.test(c0[|c0| - 1].cond, s') then c0[|c0| - 1].yes else c0[|c0| - 1].no;
          if x != yes && x != no {
            LaterIs(conds, i, yes, no, x);
            CondsRun(m, code0, code, conds, Later(conds, i, x), yes, no, k, s', fuel - 1);
          }
        }
      }
    }
  }

  /** The lowered tree runs exactly like the tree: same instructions, same continuation, same number of blocks. */
  lemma {:induction false} TreeRuns<S>(m: Machine<S>, code0: Code, code: Code, t: Tree, k: Ctx, inLoop: bool, s: S,
      fuel: nat)
    requires WellFormed(code0, t, k.next, inLoop) && Lowered(code0, code, t, k)
    ensures RunCfg(m, code, Target(t), s, fuel) == Resume(m, code, k, Exec(m, code0, t, k.next, s, fuel))
    decreases fuel, t
  {
    match t
    case Basic(b) =>
      ClosedRuns(m, code0, code, b, k, s, fuel);
    case If(conds, thens, elses) =>
      var yes, no := TargetOf(thens, k.next), TargetOf(elses, k.next);
      CondsRun(m, code0, code, conds, 0, yes, no, k, s, fuel);
      match Decide(m, code0, conds, 0, yes, no, s, fuel) {
        case Yes(s', f) => ListRuns(m, code0, code, thens, k, inLoop, s', f);
        case No(s', f) => ListRuns(m, code0, code, elses, k, inLoop, s', f);
        case _ =>
      }
    case While(conds, body) =>
      var yes := TargetOf(body, Target(t));
      CondsRun(m, code0, code, conds, 0, yes, k.next, k, s, fuel);
      match Decide(m, code0, conds, 0, yes, k.next, s, fuel) {
        case Yes(s', f) =>
          ListRuns(m, code0, code, body, Ctx(Target(t), Target(t), k.next), true, s', f);
          match ExecList(m, code0, body, Target(t), s', f) {
            case Fall(s'', f') => TreeRuns(m, code0, code, t, k, inLoop, s'', f');
            case Continued(s'', f') => TreeRuns(m, code0, code, t, k, inLoop, s'', f');
            case _ =>
          }
        case _ =>
      }
  }

  lemma {:induction false} ListRuns<S>(m: Machine<S>, code0: Code, code: Code, ts: seq<Tree>, k: Ctx, inLoop: bool,
      s: S, fuel: nat)
    requires WellFormedList(code0, ts, k.next, inLoop) && LoweredList(code0, code, ts, k)
    ensures RunCfg(m, code, TargetOf(ts, k.next), s, fuel) == Resume(m, code, k,
            ExecList(m, code0, ts, k.next, s, fuel))
    decreases fuel, ts
  {
    if ts != [] {
      var k0 := k.(next := TargetOf(ts[1..], k.next));
      TreeRuns(m, code0, code, ts[0], k0, inLoop, s, fuel);
      match Exec(m, code0, ts[0], k0.next, s, fuel) {
        case Fall(s', f) => ListRuns(m, code0, code, ts[1..], k, inLoop, s', f);
        case _ =>
      }
    }
  }

  /** The code of a whole function: the last tree continues at a block of its own that returns, or returns itself. */
  ghost predicate LoweredFunction(code0: Code, code: Code, ts: seq<Tree>, ty: ResultType, end: Label)
    decreases ts
  {
    ts != [] ==>
      if |ts| == 1 then LoweredLast(code0, code, ts[0], ty, end)
      else Lowered(code0, code, ts[0], Ctx(Target(ts[1]), NULL, NULL)) && LoweredFunction(code0, code, ts[1..], ty, end)
  }

  ghost predicate LoweredLast(code0: Code, code: Code, t: Tree, ty: ResultType, end: Label) {
    if t.Basic? then
      t.bb in code0 && t.bb in code && code[t.bb] ==
        if Terminated(code0[t.bb]) then code0[t.bb] else code0[t.bb] + [RetDefault(ty)]
    else
      Lowered(code0, code, t, Ctx(end, NULL, NULL)) && end in code && code[end] == [RetDefault(ty)]
  }

  /** Outside loops nothing breaks or continues. */
  lemma {:induction false} NoStray<S>(m: Machine<S>, code: Code, t: Tree, after: Label, s: S, fuel: nat)
    requires WellFormed(code, t, after, false)
    ensures var o := Exec(m, code, t, after, s, fuel); !o.Broke? && !o.Continued?
    decreases fuel, t
  {
    match t
    case Basic(b) =>
      ClosedBlock(code[b], Br(after));
    case If(conds, thens, elses) =>
      match Decide(m, code, conds, 0, TargetOf(thens, after), TargetOf(elses, after), s, fuel) {
        case Yes(s', f) => NoStrayList(m, code, thens, after, s', f);
        case No(s', f) => NoStrayList(m, code, elses, after, s', f);
        case _ =>
      }
    case While(conds, body) =>
      match Decide(m, code, conds, 0, TargetOf(body, Target(t)), after, s, fuel) {
        case Yes(s', f) =>
          match ExecList(m, code, body, Target(t), s', f) {
            case Fall(s'', f') => NoStray(m, code, t, after, s'', f');
            case Continued(s'', f') => NoStray(m, code, t, after, s'', f');
            case _ =>
          }
        case _ =>
      }
  }

  lemma {:induction false} NoStrayList<S>(m: Machine<S>, code: Code, ts: seq<Tree>, after: Label, s: S, fuel: nat)
    requires WellFormedList(code, ts, after, false)
    ensures var o := ExecList(m, code, ts, after, s, fuel); !o.Broke? && !o.Continued?
    decreases fuel, ts
  {
    if ts != [] {
      NoStray(m, code, ts[0], TargetOf(ts[1..], after), s, fuel);
      match Exec(m, code, ts[0], TargetOf(ts[1..], after), s, fuel) {
        case Fall(s', f) => NoStrayList(m, code, ts[1..], after, s', f);
        case _ =>
      }
    }
  }

  lemma ExecOne<S>(m: Machine<S>, code: Code, t: Tree, after: Label, s: S, fuel: nat)
    ensures ExecList(m, code, [t], after, s, fuel) == Exec(m, code, t, after, s, fuel)
  {
    hide Exec;
    var rest := [t][1..];
    assert rest == [];
    var o := Exec(m, code, t, after, s, fuel);
    if o.Fall? {
      assert ExecList(m, code, rest, after, o.s, o.fuel) == o;
    }
  }

  lemma LastBasicRuns<S>(m: Machine<S>, code0: Code, code: Code, b: Label, ty: ResultType, end: Label, s: S, fuel: nat)
    requires WellFormed(code0, Basic(b), end, false) && LoweredLast(code0, code, Basic(b), ty, end)
    ensures RunCfg(m, code, b, s, fuel) ==
      match Exec(m, code0, Basic(b), end, s, fuel) { case Fall(s', f) => Returned(RetDefault(ty), s', f) case r => r }
  {
    hide ToReturn;
    var c0, c := code0[b], ToReturn(code[b]);
    ClosedBlock(c0, RetDefault(ty));
    assert c[..|c| - 1] == Body(ToReturn(c0));
  }

  lemma LastRuns<S>(m: Machine<S>, code0: Code, code: Code, t: Tree, ty: ResultType, end: Label, s: S, fuel: nat)
    requires WellFormed(code0, t, end, false) && LoweredLast(code0, code, t, ty, end)
    ensures RunCfg(m, code, Target(t), s, fuel) == ExecFunction(m, code0, [t], ty, end, s, fuel)
  {
    hide WellFormed, Exec, Lowered, ExecList;
    ExecOne(m, code0, t, end, s, fuel);
    NoStray(m, code0, t, end, s, fuel);
    if t.Basic? {
      LastBasicRuns(m, code0, code, t.bb, ty, end, s, fuel);
    } else {
      TreeRuns(m, code0, code, t, Ctx(end, NULL, NULL), false, s, fuel);
    }
  }

  /** The lowered function, started at its first block, runs exactly like the structured one, for every state and
      every bound. */
  lemma {:induction false} FunctionRuns<S>(m: Machine<S>, code0: Code, code: Code, ts: seq<Tree>, ty: ResultType,
      end: Label, s: S, fuel: nat)
    requires ts != [] && WellFormedList(code0, ts, end, false) && LoweredFunction(code0, code, ts, ty, end)
    ensures RunCfg(m, code, Target(ts[0]), s, fuel) == ExecFunction(m, code0, ts, ty, end, s, fuel)
    decreases |ts|
  {
    hide Lowered, WellFormed, LoweredLast, Exec, RunCfg;
    if |ts| == 1 {
      assert ts == [ts[0]];
      LastRuns(m, code0, code, ts[0], ty, end, s, fuel);
    } else {
      var k := Ctx(Target(ts[1]), NULL, NULL);
      assert ts[1..][0] == ts[1];
      TreeRuns(m, code0, code, ts[0], k, false, s, fuel);
      NoStray(m, code0, ts[0], k.next, s, fuel);
      match Exec(m, code0, ts[0], k.next, s, fuel) {
        case Fall(s', f) => FunctionRuns(m, code0, code, ts[1..], ty, end, s', f);
        case _ =>
      }
    }
  }

  ghost predicate CfgReturns<S>(m: Machine<S>, code: Code, b: Label, s: S, last: Instr, s': S) {
    exists fuel, f :: RunCfg(m, code, b, s, fuel) == Returned(last, s', f)
  }

  ghost predicate TreeReturns<S>(m: Machine<S>, code: Code, ts: seq<Tree>, ty: ResultType, end: Label, s: S,
      last: Instr, s': S)
    requires ts != []
  {
    exists fuel, f :: ExecFunction(m, code, ts, ty, end, s, fuel) == Returned(last, s', f)
  }

  /** The lowered function returns exactly when the structured one does, with the same value in the same state. */
  lemma SameReturns<S>(m: Machine<S>, code0: Code, code: Code, ts: seq<Tree>, ty: ResultType, end: Label, s: S,
      last: Instr, s': S)
    requires ts != [] && WellFormedList(code0, ts, end, false) && LoweredFunction(code0, code, ts, ty, end)
    ensures CfgReturns(m, code, Target(ts[0]), s, last, s') <==> TreeReturns(m, code0, ts, ty, end, s, last, s')
  {
    hide ExecFunction, RunCfg, WellFormedList, LoweredFunction;
    forall fuel: nat
      ensures RunCfg(m, code, Target(ts[0]), s, fuel) == ExecFunction(m, code0, ts, ty, end, s, fuel)
    {
      FunctionRuns(m, code0, code, ts, ty, end, s, fuel);
    }
  }
}
