/** The structured form of a function: basic blocks, if and while trees, and how they execute. */
module Hir {
  type Label = nat

  /** The null block. */
  const NULL: Label := 0

  datatype ResultType = Int32 | Float32 | NoResult

  /** Ordinary instructions are named by a number; the others decide where control goes. */
  datatype Instr = Op(id: nat) | Break | Continue | Ret(value: nat) | RetDefault(ty: ResultType)
                 | Br(to: Label) | CondBr(cond: nat, yes: Label, no: Label)

  type Code = map<Label, seq<Instr>>

  datatype Tree = Basic(bb: Label)
                | If(conds: seq<Label>, thens: seq<Tree>, elses: seq<Tree>)
                | While(conds: seq<Label>, body: seq<Tree>)

  /** What instructions do to the state, and the truth of the value of an instruction. */
  datatype Machine<!S> = Machine(op: (nat, S) -> S, test: (nat, S) -> bool)

  predicate Terminated(c: seq<Instr>) {
    c != [] && (c[|c| - 1].Ret? || c[|c| - 1].RetDefault? || c[|c| - 1].Br? || c[|c| - 1].CondBr?)
  }

  predicate AllOps(c: seq<Instr>) {
    forall i :: 0 <= i < |c| ==> c[i].Op?
  }

  predicate IsReturn(i: Instr) {
    i.Ret? || i.RetDefault?
  }

  /** What can run of a block: after a return that has no value the front end goes on with the same block. */
  function ToReturn(c: seq<Instr>): seq<Instr> {
    if c == [] then [] else if IsReturn(c[0]) then [c[0]] else [c[0]] + ToReturn(c[1..])
  }

  /** The ordinary instructions of a block: all but a last one that decides where control goes. */
  function Body(c: seq<Instr>): seq<Instr> {
    if c != [] && !c[|c| - 1].Op? then c[..|c| - 1] else c
  }

  function RunOps<S>(m: Machine<S>, c: seq<Instr>, s: S): S {
    if c == [] then s
    else RunOps(m, c[1..], if c[0].Op? then m.op(c[0].id, s) else s)
  }

  /** The basic block at which a tree starts. */
  function Target(t: Tree): Label {
    match t
    case Basic(b) => b
    case If(conds, _, _) => if conds == [] then NULL else conds[0]
    case While(conds, _) => if conds == [] then NULL else conds[0]
  }

  function TargetOf(ts: seq<Tree>, after: Label): Label {
    if ts == [] then after else Target(ts[0])
  }

  /** How a piece of the tree ends; fuel is what remains of the number of blocks allowed to run. */
  datatype Outcome<S> = Fall(s: S, fuel: nat) | Broke(s: S, fuel: nat) | Continued(s: S, fuel: nat)
                      | Returned(last: Instr, s: S, fuel: nat) | Spent | Stuck

  datatype Choice<S> = Yes(s: S, fuel: nat) | No(s: S, fuel: nat) | NoFuel | Lost

  /** The first position after i at which label x stands, or the length. */
  function Later(conds: seq<Label>, i: nat, x: Label): (j: nat)
    requires i < |conds|
    ensures i < j <= |conds|
    ensures j < |conds| ==> conds[j] == x
    ensures j == |conds| ==> forall k :: i < k < |conds| ==> conds[k] != x
    decreases |conds| - i
  {
    if i + 1 == |conds| then |conds|
    else if conds[i + 1] == x then i + 1
    else Later(conds, i + 1, x)
  }

  /** Evaluates a condition from its block i: the last block decides by its last instruction, an earlier one
      runs into the next block or ends with a branch to a later block or to one of the two outcomes. */
  function Decide<S>(m: Machine<S>, code: Code, conds: seq<Label>, i: nat, yes: Label, no: Label, s: S,
      fuel: nat): (r: Choice<S>)
    ensures r.Yes? || r.No? ==> r.fuel < fuel
    decreases |conds| - i
  {
    if i >= |conds| || conds[i] !in code then Lost
    else if fuel == 0 then NoFuel
    else
      var c := code[conds[i]];
      var s' := RunOps(m, Body(c), s);
      if i == |conds| - 1 then
        if c == [] || !c[|c| - 1].Op? then Lost
        else if m.test(c[|c| - 1].id, s') then Yes(s', fuel - 1) else No(s', fuel - 1)
      else if c == [] || c[|c| - 1].Op? then Decide(m, code, conds, i + 1, yes, no, s', fuel - 1)
      else if c[|c| - 1].CondBr? then
        var x := if m.test(c[|c| - 1].cond, s') then c[|c| - 1].yes else c[|c| - 1].no;
        if x == yes then Yes(s', fuel - 1)
        else if x == no then No(s', fuel - 1)
        else Decide(m, code, conds, Later(conds, i, x), yes, no, s', fuel - 1)
      else Lost
  }

  /** Runs a tree; `after` is the label of what follows it, which short-circuit branches may name. */
  function Exec<S>(m: Machine<S>, code: Code, t: Tree, after: Label, s: S, fuel: nat): (r: Outcome<S>)
    ensures r.Fall? || r.Broke? || r.Continued? ==> r.fuel <= fuel
    decreases fuel, t
  {
    match t
    case Basic(b) =>
      if b !in code then Stuck
      else if fuel == 0 then Spent
      else
        var c := ToReturn(code[b]);
        var s' := RunOps(m, Body(c), s);
        if c == [] then Fall(s', fuel - 1)
        else (
          match c[|c| - 1]
          case Break => Broke(s', fuel - 1)
          case Continue => Continued(s', fuel - 1)
          case Op(_) => Fall(s', fuel - 1)
          case Br(_) => Stuck
          case CondBr(_, _, _) => Stuck
          case _ => Returned(c[|c| - 1], s', fuel - 1)
        )
    case If(conds, thens, elses) => (
      match Decide(m, code, conds, 0, TargetOf(thens, after), TargetOf(elses, after), s, fuel)
      case Yes(s', f) => ExecList(m, code, thens, after, s', f)
      case No(s', f) => ExecList(m, code, elses, after, s', f)
      case NoFuel => Spent
      case Lost => Stuck
    )
    case While(conds, body) => (
      match Decide(m, code, conds, 0, TargetOf(body, Target(t)), after, s, fuel)
      case Yes(s', f) => (
        match ExecList(m, code, body, Target(t), s', f)
        case Fall(s'', f') => Exec(m, code, t, after, s'', f')
        case Continued(s'', f') => Exec(m, code, t, after, s'', f')
        case Broke(s'', f') => Fall(s'', f')
        case r => r
      )
      case No(s', f) => Fall(s', f)
      case NoFuel => Spent
      case Lost => Stuck
    )
  }

  function ExecList<S>(m: Machine<S>, code: Code, ts: seq<Tree>, after: Label, s: S, fuel: nat): (r: Outcome<S>)
    ensures r.Fall? || r.Broke? || r.Continued? ==> r.fuel <= fuel
    decreases fuel, ts
  {
    if ts == [] then Fall(s, fuel)
    else
      match Exec(m, code, ts[0], TargetOf(ts[1..], after), s, fuel)
      case Fall(s', f) => ExecList(m, code, ts[1..], after, s', f)
      case r => r
  }

  /** Runs a function: falling off its end returns the default value. After a last if or while this is done by a block
      of its own. */
  function ExecFunction<S>(m: Machine<S>, code: Code, ts: seq<Tree>, ty: ResultType, end: Label, s: S,
      fuel: nat): Outcome<S>
    requires ts != []
  {
    match ExecList(m, code, ts, end, s, fuel)
    case Fall(s', f) =>
      if ts[|ts| - 1].Basic? then Returned(RetDefault(ty), s', f)
      else if f == 0 then Spent
      else Returned(RetDefault(ty), s', f - 1)
    case r => r
  }

  /** Runs basic blocks from block b on. */
  function RunCfg<S>(m: Machine<S>, code: Code, b: Label, s: S, fuel: nat): Outcome<S>
    decreases fuel
  {
    if b !in code then Stuck
    else if fuel == 0 then Spent
    else
      var c := ToReturn(code[b]);
      if !Terminated(c) || !AllOps(c[..|c| - 1]) then Stuck
      else
        var s' := RunOps(m, c[..|c| - 1], s);
        match c[|c| - 1]
        case Br(to) => RunCfg(m, code, to, s', fuel - 1)
        case CondBr(q, yes, no) => RunCfg(m, code, if m.test(q, s') then yes else no, s', fuel - 1)
        case _ => Returned(c[|c| - 1], s', fuel - 1)
  }

  /** The basic blocks of a tree in the order of the lowered function. */
  function Layout(t: Tree): seq<Label>
    decreases t
  {
    match t
    case Basic(b) => [b]
    case If(conds, thens, elses) => conds + LayoutList(elses) + LayoutList(thens)
    case While(conds, body) => conds + LayoutList(body)
  }

  function LayoutList(ts: seq<Tree>): seq<Label>
    decreases ts
  {
    if ts == [] then [] else Layout(ts[0]) + LayoutList(ts[1..])
  }

  /** Only the last instruction decides where control goes. */
  predicate Plain(c: seq<Instr>) {
    c != [] ==> AllOps(c[..|c| - 1])
  }

  predicate Allowed(conds: seq<Label>, i: nat, yes: Label, no: Label, x: Label) {
    x == yes || x == no || exists j :: i < j < |conds| && conds[j] == x
  }

  /** A condition's last block computes its value; the earlier ones may branch on to a later block or to an outcome. */
  predicate CondsOk(code: Code, conds: seq<Label>, yes: Label, no: Label) {
    && conds != []
    && (forall i :: 0 <= i < |conds| ==> conds[i] in code && Plain(code[conds[i]]))
    && code[conds[|conds| - 1]] != [] && AllOps(code[conds[|conds| - 1]])
    && (forall i {:trigger conds[i]} :: 0 <= i < |conds| - 1 ==> CondOk(code[conds[i]], conds, i, yes, no))
  }

  predicate CondOk(c: seq<Instr>, conds: seq<Label>, i: nat, yes: Label, no: Label) {
    c != [] && !c[|c| - 1].Op? ==>
      c[|c| - 1].CondBr? && Allowed(conds, i, yes, no, c[|c| - 1].yes) && Allowed(conds, i, yes, no, c[|c| - 1].no)
  }

  /** The trees the front end builds. */
  predicate WellFormed(code: Code, t: Tree, after: Label, inLoop: bool)
    decreases t
  {
    match t
    case Basic(b) =>
      b in code && Plain(ToReturn(code[b])) && (code[b] != [] ==>
        var l := code[b][|code[b]| - 1];
        !l.Br? && !l.CondBr? && (l.Break? || l.Continue? ==> inLoop))
    case If(conds, thens, elses) =>
      CondsOk(code, conds, TargetOf(thens, after), TargetOf(elses, after)) &&
          WellFormedList(code, thens, after, inLoop) && WellFormedList(code, elses, after, inLoop)
    case While(conds, body) =>
      CondsOk(code, conds, TargetOf(body, Target(t)), after) && WellFormedList(code, body, Target(t), true)
  }

  predicate WellFormedList(code: Code, ts: seq<Tree>, after: Label, inLoop: bool)
    decreases ts
  {
    ts != [] ==> WellFormed(code, ts[0], TargetOf(ts[1..], after), inLoop) && WellFormedList(code, ts[1..], after,
        inLoop)
  }
}
