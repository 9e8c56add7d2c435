/** The intermediate representation of one function and its meaning: basic blocks of instructions over
    single-assignment registers, scalar stack variables, and phis resolved by the incoming edge. */
module Ssa {
  import opened Cfg

  /** A stack slot made by a scalar alloca. */
  type Var = nat
  /** The value defined by one instruction. */
  type Reg = nat

  datatype Operand = Const(value: int) | Use(reg: Reg) | PhiOf(block: Block, v: Var) | Uncertain

  /** Compute stands for every instruction that does not touch a scalar slot: arithmetic, calls, array
      accesses, returns and branches. */
  datatype Instr =
    | Alloca(v: Var)
    | Load(dst: Reg, v: Var)
    | Store(v: Var, src: Operand)
    | Compute(dst: Reg, op: nat, args: seq<Operand>)

  datatype Incoming = Incoming(value: Operand, pred: Block)

  type Code = map<Block, seq<Instr>>
  type Phis = map<Block, map<Var, seq<Incoming>>>

  datatype Program = Program(g: Graph, code: Code, phis: Phis)

  /** An executed Compute with the values of its arguments. */
  datatype Event = Event(op: nat, args: seq<int>)

  datatype State = State(regs: map<Reg, int>, slots: map<Var, int>, phiVals: map<Block, map<Var, int>>,
      trace: seq<Event>)

  /** What a run depends on besides the program. The result of a Compute and the branch taken may depend on
      everything executed so far; a slot that was never stored reads as undef. */
  datatype World = World(eval: (nat, seq<int>, seq<Event>) -> int, branch: (Block, seq<Event>) -> nat, undef: int)

  ghost function Get(m: map<nat, int>, k: nat, w: World): int {
    if k in m then m[k] else w.undef
  }

  ghost function Eval(w: World, o: Operand, s: State): int {
    match o
    case Const(c) => c
    case Use(r) => Get(s.regs, r, w)
    case PhiOf(b, v) => if b in s.phiVals then Get(s.phiVals[b], v, w) else w.undef
    case Uncertain => w.undef
  }

  ghost function EvalAll(w: World, os: seq<Operand>, s: State): seq<int> {
    seq(|os|, i requires 0 <= i < |os| => Eval(w, os[i], s))
  }

  ghost function Step(w: World, i: Instr, s: State): State {
    match i
    case Alloca(_) => s
    case Load(d, v) => s.(regs := s.regs[d := Get(s.slots, v, w)])
    case Store(v, src) => s.(slots := s.slots[v := Eval(w, src, s)])
    case Compute(d, op, args) =>
      var vals := EvalAll(w, args, s);
      s.(regs := s.regs[d := w.eval(op, vals, s.trace)], trace := s.trace + [Event(op, vals)])
  }

  ghost function Exec(w: World, c: seq<Instr>, s: State): State {
    if c == [] then s else Step(w, c[|c| - 1], Exec(w, c[..|c| - 1], s))
  }

  /** The operand a phi takes on the edge from p. */
  function Choose(entries: seq<Incoming>, p: Block): Operand {
    if entries == [] then Uncertain
    else if entries[0].pred == p then entries[0].value
    else Choose(entries[1..], p)
  }

  /** Crossing the edge from p to b: all phis of b read the old state. */
  ghost function Enter(w: World, phis: Phis, p: Block, b: Block, s: State): State {
    if b in phis then s.(phiVals := s.phiVals[b := map v | v in phis[b] :: Eval(w, Choose(phis[b][v], p), s)]) else s
  }

  datatype Config = Running(block: Block, state: State) | Halted(state: State)

  /** The configuration after n blocks have been executed. */
  ghost function Run(prog: Program, w: World, n: nat): Config {
    if n == 0 then Running(prog.g.entry, State(map[], map[], map[], [])) else
    match Run(prog, w, n - 1)
    case Halted(s) => Halted(s)
    case Running(b, s) =>
      if b !in prog.code || b !in prog.g.succs then Halted(s) else
      var s1 := Exec(w, prog.code[b], s);
      var k := w.branch(b, s1.trace);
      if k < |prog.g.succs[b]| then
        Running(prog.g.succs[b][k], Enter(w, prog.phis, b, prog.g.succs[b][k], s1))
      else Halted(s1)
  }
}
