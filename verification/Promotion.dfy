/** What promoting scalar slots to registers must compute, written over the dominator tree: the operand a
    slot holds at every point, and the operand that replaces every load. */
module Promotion {
  import opened Cfg
  import opened IdomTree
  import opened PostOrder
  import opened IDomSolver
  import opened Frontier
  import opened Ssa

  /** A function before promotion, with its dominator tree and the blocks that get a phi for each slot. */
  datatype Func = Func(g: Graph, id: Numbers, post: seq<Block>, t: Parents, code: Code, vars: set<Var>,
                       phiAt: map<Var, set<Block>>)

  predicate HasPhi(phiAt: map<Var, set<Block>>, b: Block, v: Var) {
    v in phiAt && b in phiAt[v]
  }

  ghost predicate Stores(c: seq<Instr>, v: Var) {
    exists i :: 0 <= i < |c| && c[i].Store? && c[i].v == v
  }

  /** Phis are placed wherever the frontier of a storing or phi block demands one. */
  ghost predicate PhisClosed(f: Func) {
    forall v, x, y :: (v in f.vars && x in f.code && (Stores(f.code[x], v) || HasPhi(f.phiAt, x, v)) &&
                       OnRunner(f.g, f.id, f.t, x, y)) ==> HasPhi(f.phiAt, y, v)
  }

  ghost predicate DefinesAt(code: Code, b: Block, i: nat, r: Reg) {
    b in code && i < |code[b]| && (code[b][i].Load? || code[b][i].Compute?) && code[b][i].dst == r
  }

  function Operands(i: Instr): seq<Operand> {
    match i
    case Alloca(_) => []
    case Load(_, _) => []
    case Store(_, src) => [src]
    case Compute(_, _, args) => args
  }

  /** The definition of r reaches the point before instruction i of b: it comes earlier in b or in a
      strict dominator of b. */
  ghost predicate Available(g: Graph, code: Code, b: Block, i: nat, r: Reg) {
    exists c, j: nat :: DefinesAt(code, c, j, r) && if c == b then j < i else Dom(g, c, b)
  }

  /** Single assignment: one definition per register, every use dominated by it, no phi yet. */
  ghost predicate SingleAssignment(g: Graph, code: Code) {
    && (forall b, i: nat, c, j: nat, r :: DefinesAt(code, b, i, r) && DefinesAt(code, c, j, r) ==> b == c && i == j)
    && (forall b, i, o :: b in code && 0 <= i < |code[b]| && o in Operands(code[b][i]) ==>
                            !o.PhiOf? && (o.Use? ==> Available(g, code, b, i, o.reg)))
  }

  ghost predicate SsaForm(f: Func) {
    var holds :=
      && SingleAssignment(f.g, f.code)
      && (forall b, i :: b in f.code && 0 <= i < |f.code[b]| && !f.code[b][i].Compute? ==> f.code[b][i].v in f.vars);
    holds
  }

  /** Everything promotion may rely on. */
  ghost predicate Ready(f: Func) {
    var holds :=
      && Stopped(f.g, f.id, f.post, f.t) && AllReachable(f.g, f.t)
      && f.g.preds[f.g.entry] == [] && f.code.Keys == f.g.succs.Keys
      && PhisClosed(f) && SsaForm(f)
      && (forall v :: v in f.vars ==> !HasPhi(f.phiAt, f.g.entry, v));
    holds
  }

  ghost predicate IsLoad(code: Code, r: Reg) {
    exists b, i: nat :: DefinesAt(code, b, i, r) && code[b][i].Load?
  }

  /** The operand each slot holds and the operand each earlier load is replaced by. */
  datatype Sym = Sym(vals: map<Var, Operand>, sub: map<Reg, Operand>)

  function SubOp(o: Operand, sub: map<Reg, Operand>): Operand {
    if o.Use? && o.reg in sub then sub[o.reg] else o
  }

  function SubAll(os: seq<Operand>, sub: map<Reg, Operand>): (r: seq<Operand>)
    ensures |r| == |os| && forall i :: 0 <= i < |os| ==> r[i] == SubOp(os[i], sub)
  {
    seq(|os|, i requires 0 <= i < |os| => SubOp(os[i], sub))
  }

  function SubInstr(i: Instr, sub: map<Reg, Operand>): Instr {
    match i
    case Store(v, src) => Store(v, SubOp(src, sub))
    case Compute(d, op, args) => Compute(d, op, SubAll(args, sub))
    case _ => i
  }

  /** The instructions that stay, with their loads replaced. */
  function Promote(c: seq<Instr>, sub: map<Reg, Operand>): seq<Instr> {
    if c == [] then []
    else
      var last := c[|c| - 1];
      Promote(c[..|c| - 1], sub) + if last.Compute? then [SubInstr(last, sub)] else []
  }

  ghost function SymStep(i: Instr, s: Sym): Sym {
    match i
    case Alloca(_) => s
    case Load(d, v) => s.(sub := s.sub[d := if v in s.vals then s.vals[v] else Uncertain])
    case Store(v, src) => s.(vals := s.vals[v := SubOp(src, s.sub)])
    case Compute(_, _, _) => s
  }

  function PutPhis(phiAt: map<Var, set<Block>>, b: Block, vals: map<Var, Operand>): map<Var, Operand> {
    map v | v in vals :: if HasPhi(phiAt, b, v) then PhiOf(b, v) else vals[v]
  }

  /** The symbolic state before instruction i of block b. */
  ghost function At(f: Func, b: Block, i: nat): Sym
    requires Tree(f.t, f.id, f.g.entry) && f.code.Keys == f.t.Keys
    requires b in f.t && i <= |f.code[b]|
    decreases f.id[f.g.entry] - f.id[b], i
  {
    if i > 0 then SymStep(f.code[b][i - 1], At(f, b, i - 1))
    else if b == f.g.entry then Sym(map v | v in f.vars :: Uncertain, map[])
    else
      var s := At(f, f.t[b], |f.code[f.t[b]]|);
      s.(vals := PutPhis(f.phiAt, b, s.vals))
  }

  ghost function Out(f: Func, b: Block): Sym
    requires Tree(f.t, f.id, f.g.entry) && f.code.Keys == f.t.Keys && b in f.t
  {
    At(f, b, |f.code[b]|)
  }

  /** What an edge of a ready function guarantees. */
  lemma ReadyEdge(f: Func, p: Block, b: Block)
    requires Ready(f) && f.g.Edge(p, b)
    ensures p in f.t && b in f.t && b != f.g.entry && b in f.g.preds && p in f.g.preds[b]
    ensures f.t[b] in f.t && Above(f.t, f.id, f.g.entry, f.t[b], p)
  {
    assert b in f.g.succs[p];
    ParentAbovePred(f.g, f.id, f.post, f.t, b, p);
  }

  lemma AtStep(f: Func, b: Block, i: nat)
    requires Tree(f.t, f.id, f.g.entry) && f.code.Keys == f.t.Keys
    requires b in f.t && 0 < i <= |f.code[b]|
    ensures At(f, b, i) == SymStep(f.code[b][i - 1], At(f, b, i - 1))
  {
  }

  lemma AtStart(f: Func, b: Block)
    requires Tree(f.t, f.id, f.g.entry) && f.code.Keys == f.t.Keys && b in f.t
    ensures b == f.g.entry ==> At(f, b, 0) == Sym(map v | v in f.vars :: Uncertain, map[])
    ensures b != f.g.entry ==> f.t[b] in f.t && f.id[b] < f.id[f.t[b]] <= f.id[f.g.entry]
    ensures b != f.g.entry ==> At(f, b, 0) == Sym(PutPhis(f.phiAt, b, Out(f, f.t[b]).vals), Out(f, f.t[b]).sub)
  {
    assert b != f.g.entry ==> f.id[f.t[b]] <= f.id[f.g.entry];
  }

  lemma SlotInVars(f: Func, b: Block, i: nat)
    requires SsaForm(f) && b in f.code && i < |f.code[b]| && !f.code[b][i].Compute?
    ensures f.code[b][i].v in f.vars
  {
  }

  lemma {:induction false} AtKeys(f: Func, b: Block, i: nat)
    requires SsaForm(f) && Tree(f.t, f.id, f.g.entry) && f.code.Keys == f.t.Keys
    requires b in f.t && i <= |f.code[b]|
    ensures At(f, b, i).vals.Keys == f.vars
    decreases f.id[f.g.entry] - f.id[b], i
  {
    hide At, Tree, SsaForm;
    if i > 0 {
      AtKeys(f, b, i - 1);
      AtStep(f, b, i);
      if !f.code[b][i - 1].Compute? {
        SlotInVars(f, b, i - 1);
      }
    } else {
      AtStart(f, b);
      if b != f.g.entry {
        AtKeys(f, f.t[b], |f.code[f.t[b]]|);
      }
    }
  }

  /** A block that does not store v holds what it received. */
  lemma {:induction false} NoStoreKeeps(f: Func, b: Block, v: Var, i: nat)
    requires Tree(f.t, f.id, f.g.entry) && f.code.Keys == f.t.Keys
    requires b in f.t && i <= |f.code[b]| && !Stores(f.code[b], v)
    ensures v in At(f, b, i).vals <==> v in At(f, b, 0).vals
    ensures v in At(f, b, i).vals ==> At(f, b, i).vals[v] == At(f, b, 0).vals[v]
  {
    hide At, Tree;
    if i > 0 {
      NoStoreKeeps(f, b, v, i - 1);
      AtStep(f, b, i);
    }
  }

  /** Climbing from a predecessor of a block without a phi for v, the slot holds the same operand all the
      way to the immediate dominator. */
  lemma {:induction false} ChainAgrees(f: Func, p: Block, b: Block, v: Var, r: Block)
    requires Ready(f) && SsaForm(f) && Tree(f.t, f.id, f.g.entry) && f.code.Keys == f.t.Keys
    requires f.g.Edge(p, b) && v in f.vars && !HasPhi(f.phiAt, b, v)
    requires p in f.t && b in f.t && f.t[b] in f.t && r in f.t
    requires Above(f.t, f.id, f.g.entry, r, p) && Above(f.t, f.id, f.g.entry, f.t[b], r)
    ensures v in Out(f, r).vals && v in Out(f, f.t[b]).vals && Out(f, r).vals[v] == Out(f, f.t[b]).vals[v]
    decreases f.id[f.g.entry] - f.id[r]
  {
    hide Ready, SsaForm, At, Tree;
    AtKeys(f, r, |f.code[r]|);
    AtKeys(f, f.t[b], |f.code[f.t[b]]|);
    if r != f.t[b] {
      RunnerHasNoDef(f, p, b, v, r);
      NoStoreKeeps(f, r, v, |f.code[r]|);
      AtStart(f, r);
      RunnerClimbs(f.t, f.id, f.g.entry, r, p);
      ChainAgrees(f, p, b, v, f.t[r]);
    }
  }

  lemma RunnerHasNoDef(f: Func, p: Block, b: Block, v: Var, r: Block)
    requires Ready(f) && Tree(f.t, f.id, f.g.entry) && f.code.Keys == f.t.Keys
    requires f.g.Edge(p, b) && v in f.vars && !HasPhi(f.phiAt, b, v)
    requires p in f.t && b in f.t && f.t[b] in f.t && r in f.t && r != f.t[b]
    requires Above(f.t, f.id, f.g.entry, r, p) && Above(f.t, f.id, f.g.entry, f.t[b], r)
    ensures r != f.g.entry && !Stores(f.code[r], v) && !HasPhi(f.phiAt, r, v)
  {
    hide Above, Tree, OnRunner, Stopped, SsaForm;
    ReadyEdge(f, p, b);
    RunnerIsOnRunner(f.g, f.id, f.post, f.t, p, b, r);
  }

  /** Along every edge into a block without a phi for v, the slot holds the operand the block starts with. */
  lemma EdgeAgrees(f: Func, p: Block, b: Block, v: Var)
    requires Ready(f) && SsaForm(f) && Tree(f.t, f.id, f.g.entry) && f.code.Keys == f.t.Keys
    requires f.g.Edge(p, b) && v in f.vars && !HasPhi(f.phiAt, b, v)
    ensures p in f.t && b in f.t
    ensures v in Out(f, p).vals && v in At(f, b, 0).vals && Out(f, p).vals[v] == At(f, b, 0).vals[v]
  {
    hide Ready, SsaForm, At, Tree;
    ReadyEdge(f, p, b);
    ChainAgrees(f, p, b, v, p);
    AtStart(f, b);
  }
}
