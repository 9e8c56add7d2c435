/** Promotion preserves meaning: the function with loads, stores and slots replaced by phis and operands
    executes the same events on every run. */
module PromotionMeaning {
  import opened Cfg
  import opened IdomTree
  import opened PostOrder
  import opened IDomSolver
  import opened Frontier
  import opened Ssa
  import opened Promotion

  ghost predicate Shape(f: Func) {
    Tree(f.t, f.id, f.g.entry) && f.code.Keys == f.t.Keys && f.code.Keys == f.g.succs.Keys
  }

  lemma ReadyShape(f: Func)
    requires Ready(f)
    ensures Shape(f) && SsaForm(f)
  {
  }

  lemma AvailableStep(f: Func, b: Block, i: nat, r: Reg)
    requires b in f.code && i < |f.code[b]|
    ensures Available(f.g, f.code, b, i + 1, r) <==> Available(f.g, f.code, b, i, r) || DefinesAt(f.code, b, i, r)
  {
    hide Dom;
    if Available(f.g, f.code, b, i + 1, r) && !DefinesAt(f.code, b, i, r) {
      var c, j: nat :| DefinesAt(f.code, c, j, r) && if c == b then j < i + 1 else Dom(f.g, c, b);
      assert c == b ==> j < i;
    }
  }

  lemma DefinedIsFresh(f: Func, b: Block, i: nat, r: Reg)
    requires SsaForm(f) && DefinesAt(f.code, b, i, r)
    ensures !Available(f.g, f.code, b, i, r)
    ensures IsLoad(f.code, r) <==> f.code[b][i].Load?
  {
  }

  lemma NothingAvailableAtEntry(f: Func, r: Reg)
    ensures !Available(f.g, f.code, f.g.entry, 0, r)
  {
    assert PathTo(f.g, Begin, f.g.entry);
  }

  /** What reaches the start of a block is what reaches the end of its immediate dominator. */
  lemma AvailableStart(f: Func, b: Block, r: Reg)
    requires Ready(f) && b in f.t && b != f.g.entry && f.t[b] in f.code
    ensures Available(f.g, f.code, b, 0, r) <==> Available(f.g, f.code, f.t[b], |f.code[f.t[b]]|, r)
  {
    hide Ready, Dom, StrictDom;
    var d := f.t[b];
    forall c
      ensures StrictDom(f.g, c, b) <==> Dom(f.g, c, d)
      ensures c == b ==> !Dom(f.g, c, d)
      ensures StrictDom(f.g, c, b) <==> c != b && Dom(f.g, c, b)
      ensures Dom(f.g, d, d)
    {
      ParentDominators(f, b, c);
    }
  }

  lemma ParentDominators(f: Func, b: Block, c: Block)
    requires Ready(f) && b in f.t && b != f.g.entry && f.t[b] in f.code
    ensures StrictDom(f.g, c, b) <==> Dom(f.g, c, f.t[b])
    ensures c == b ==> !Dom(f.g, c, f.t[b])
    ensures StrictDom(f.g, c, b) <==> c != b && Dom(f.g, c, b)
    ensures Dom(f.g, f.t[b], f.t[b])
  {
    StrictDomIsAboveParent(f.g, f.id, f.post, f.t, c, b);
    AboveIsDom(f.g, f.id, f.post, f.t, c, f.t[b]);
  }

  /** The loads with a replacement at a point are the loads that reach it. */
  lemma {:induction false} SubKeys(f: Func, b: Block, i: nat, d: Reg)
    requires Ready(f) && SsaForm(f) && Shape(f) && b in f.t && i <= |f.code[b]|
    ensures d in At(f, b, i).sub <==> Available(f.g, f.code, b, i, d) && IsLoad(f.code, d)
    decreases f.id[f.g.entry] - f.id[b], i
  {
    hide Ready, SsaForm, At, Tree, Available, IsLoad;
    if i > 0 {
      SubKeys(f, b, i - 1, d);
      AtStep(f, b, i);
      AvailableStep(f, b, i - 1, d);
      if DefinesAt(f.code, b, i - 1, d) {
        DefinedIsFresh(f, b, i - 1, d);
      }
    } else {
      AtStart(f, b);
      if b == f.g.entry {
        NothingAvailableAtEntry(f, d);
      } else {
        SubKeys(f, f.t[b], |f.code[f.t[b]]|, d);
        AvailableStart(f, b, d);
      }
    }
  }

  /** An operand of the promoted function that still has its value at a point. */
  ghost predicate OperandOk(f: Func, b: Block, i: nat, o: Operand) {
    && (o.Use? ==> Available(f.g, f.code, b, i, o.reg) && !IsLoad(f.code, o.reg))
    && (o.PhiOf? ==> Dom(f.g, o.block, b))
  }

  ghost predicate SymOk(f: Func, b: Block, i: nat, s: Sym) {
    && (forall v :: v in s.vals ==> OperandOk(f, b, i, s.vals[v]))
    && (forall d :: d in s.sub ==> OperandOk(f, b, i, s.sub[d]))
  }

  lemma SourceOperand(f: Func, b: Block, i: nat, o: Operand)
    requires SsaForm(f) && b in f.code && i < |f.code[b]| && o in Operands(f.code[b][i])
    ensures !o.PhiOf? && (o.Use? ==> Available(f.g, f.code, b, i, o.reg))
  {
  }

  /** Replacing the loads in a source operand leaves an operand that has its value there. */
  lemma SubOperandOk(f: Func, b: Block, i: nat, o: Operand)
    requires Ready(f) && SsaForm(f) && Shape(f) && b in f.t && i < |f.code[b]| && o in Operands(f.code[b][i])
    requires SymOk(f, b, i, At(f, b, i))
    ensures OperandOk(f, b, i, SubOp(o, At(f, b, i).sub))
  {
    hide Ready, SsaForm, At, Tree, Available, IsLoad, Dom;
    SourceOperand(f, b, i, o);
    if o.Use? {
      SubKeys(f, b, i, o.reg);
    }
  }

  lemma OperandOkStep(f: Func, b: Block, i: nat, o: Operand)
    requires b in f.code && i < |f.code[b]| && OperandOk(f, b, i, o)
    ensures OperandOk(f, b, i + 1, o)
  {
    if o.Use? { AvailableStep(f, b, i, o.reg); }
  }

  lemma OperandOkStart(f: Func, b: Block, o: Operand)
    requires Ready(f) && b in f.t && b != f.g.entry && f.t[b] in f.code
    requires OperandOk(f, f.t[b], |f.code[f.t[b]]|, o)
    ensures OperandOk(f, b, 0, o)
    ensures o.PhiOf? ==> o.block != b
  {
    hide Ready, Available, IsLoad, Dom;
    if o.Use? { AvailableStart(f, b, o.reg); }
    if o.PhiOf? { ParentDominators(f, b, o.block); }
  }

  /** All operands held by slots and replacements are defined on every path to the point. */
  lemma {:induction false} OperandsOk(f: Func, b: Block, i: nat)
    requires Ready(f) && SsaForm(f) && Shape(f) && b in f.t && i <= |f.code[b]|
    ensures SymOk(f, b, i, At(f, b, i))
    decreases f.id[f.g.entry] - f.id[b], i
  {
    hide Ready, SsaForm, At, Tree, OperandOk;
    if i > 0 {
      OperandsOk(f, b, i - 1);
      AtStep(f, b, i);
      AtKeys(f, b, i - 1);
      var k := f.code[b][i - 1];
      if k.Store? {
        SubOperandOk(f, b, i - 1, k.src);
        OperandOkStep(f, b, i - 1, SubOp(k.src, At(f, b, i - 1).sub));
      } else if k.Load? {
        SlotInVars(f, b, i - 1);
      }
      forall o | OperandOk(f, b, i - 1, o)
        ensures OperandOk(f, b, i, o)
      {
        OperandOkStep(f, b, i - 1, o);
      }
    } else {
      AtStart(f, b);
      if b == f.g.entry {
        UncertainOk(f);
      } else {
        OperandsOk(f, f.t[b], |f.code[f.t[b]]|);
        forall o | OperandOk(f, f.t[b], |f.code[f.t[b]]|, o)
          ensures OperandOk(f, b, 0, o)
        {
          OperandOkStart(f, b, o);
        }
        forall v
          ensures OperandOk(f, b, 0, PhiOf(b, v))
        {
          OwnPhiOk(f, b, v);
        }
      }
    }
  }

  lemma UncertainOk(f: Func)
    ensures OperandOk(f, f.g.entry, 0, Uncertain)
  {
  }

  lemma OwnPhiOk(f: Func, b: Block, v: Var)
    ensures OperandOk(f, b, 0, PhiOf(b, v))
  {
  }

  /** Replacements are never taken back: along the chain of dominators they only grow. */
  ghost predicate Extends(s: map<Reg, Operand>, s': map<Reg, Operand>) {
    forall d :: d in s ==> d in s' && s'[d] == s[d]
  }

  lemma {:induction false} BlockExtends(f: Func, b: Block, i: nat)
    requires Ready(f) && SsaForm(f) && Shape(f) && b in f.t && i <= |f.code[b]|
    ensures Extends(At(f, b, 0).sub, At(f, b, i).sub)
  {
    hide Ready, SsaForm, At, Tree;
    if i > 0 {
      BlockExtends(f, b, i - 1);
      StepExtends(f, b, i - 1);
    }
  }

  lemma StepExtends(f: Func, b: Block, i: nat)
    requires Ready(f) && SsaForm(f) && Shape(f) && b in f.t && i < |f.code[b]|
    ensures Extends(At(f, b, i).sub, At(f, b, i + 1).sub)
  {
    hide Ready, SsaForm, At, Tree, Available;
    AtStep(f, b, i + 1);
    var k := f.code[b][i];
    if k.Load? {
      DefinedIsFresh(f, b, i, k.dst);
      SubKeys(f, b, i, k.dst);
    }
  }

  lemma {:induction false} ChainExtends(f: Func, a: Block, b: Block)
    requires Ready(f) && SsaForm(f) && Shape(f) && b in f.t && a in f.t && Above(f.t, f.id, f.g.entry, a, b)
    ensures Extends(Out(f, a).sub, Out(f, b).sub)
    decreases f.id[f.g.entry] - f.id[b]
  {
    hide Ready, SsaForm, At, Tree;
    if a != b {
      BlockExtends(f, b, |f.code[b]|);
      AtStart(f, b);
      ChainExtends(f, a, f.t[b]);
    }
  }

  /** The source run is in state s and the promoted run in state s' before instruction i of b. */
  ghost predicate Sim(f: Func, w: World, b: Block, i: nat, s: State, s': State)
    requires Shape(f) && b in f.t && i <= |f.code[b]|
  {
    var sym := At(f, b, i);
    var holds :=
      && s.trace == s'.trace
      && (forall r :: !IsLoad(f.code, r) ==> Get(s.regs, r, w) == Get(s'.regs, r, w))
      && (forall v :: v in sym.vals ==> Get(s.slots, v, w) == Eval(w, sym.vals[v], s'))
      && (forall d :: d in sym.sub ==> Get(s.regs, d, w) == Eval(w, sym.sub[d], s'));
    holds
  }

  lemma OperandValue(f: Func, w: World, b: Block, i: nat, s: State, s': State, o: Operand)
    requires Ready(f) && SsaForm(f) && Shape(f) && b in f.t && i < |f.code[b]| && o in Operands(f.code[b][i])
    requires Sim(f, w, b, i, s, s')
    ensures Eval(w, o, s) == Eval(w, SubOp(o, At(f, b, i).sub), s')
  {
    hide Ready, SsaForm, At, Tree, Available, IsLoad;
    SourceOperand(f, b, i, o);
    if o.Use? {
      SubKeys(f, b, i, o.reg);
    }
  }

  /** The operand written into the instruction is the one valid at its place. */
  lemma GlobalIsLocal(f: Func, b: Block, i: nat, o: Operand, sub: map<Reg, Operand>)
    requires Ready(f) && SsaForm(f) && Shape(f) && b in f.t && i < |f.code[b]| && o in Operands(f.code[b][i])
    requires (forall d :: d in sub ==> IsLoad(f.code, d)) && Extends(At(f, b, i).sub, sub)
    ensures SubOp(o, sub) == SubOp(o, At(f, b, i).sub)
  {
    hide Ready, SsaForm, At, Tree, Available, IsLoad;
    SourceOperand(f, b, i, o);
    if o.Use? {
      SubKeys(f, b, i, o.reg);
    }
  }

  /** Defining a register changes no operand that has its value at the definition. */
  lemma EvalKept(f: Func, w: World, b: Block, i: nat, o: Operand, d: Reg, s: State, s1: State)
    requires SsaForm(f) && DefinesAt(f.code, b, i, d) && OperandOk(f, b, i, o)
    requires forall r :: r != d ==> Get(s1.regs, r, w) == Get(s.regs, r, w)
    requires s1.phiVals == s.phiVals
    ensures Eval(w, o, s1) == Eval(w, o, s)
  {
    hide SsaForm, Available, IsLoad;
    DefinedIsFresh(f, b, i, d);
  }

  lemma LoadSim(f: Func, w: World, b: Block, i: nat, s: State, s': State)
    requires Ready(f) && SsaForm(f) && Shape(f) && b in f.t && i < |f.code[b]| && f.code[b][i].Load?
    requires Sim(f, w, b, i, s, s')
    ensures Sim(f, w, b, i + 1, Step(w, f.code[b][i], s), s')
  {
    hide Ready, SsaForm, At, Tree, Available, Dom, IsLoad;
    var k := f.code[b][i];
    AtStep(f, b, i + 1);
    AtKeys(f, b, i);
    SlotInVars(f, b, i);
    assert DefinesAt(f.code, b, i, k.dst);
    DefinedIsFresh(f, b, i, k.dst);
    SubKeys(f, b, i, k.dst);
  }

  lemma StoreSim(f: Func, w: World, b: Block, i: nat, s: State, s': State)
    requires Ready(f) && SsaForm(f) && Shape(f) && b in f.t && i < |f.code[b]| && f.code[b][i].Store?
    requires Sim(f, w, b, i, s, s')
    ensures Sim(f, w, b, i + 1, Step(w, f.code[b][i], s), s')
  {
    hide Ready, SsaForm, At, Tree, Available, Dom, IsLoad;
    AtStep(f, b, i + 1);
    OperandValue(f, w, b, i, s, s', f.code[b][i].src);
  }

  lemma ComputeSim(f: Func, w: World, b: Block, i: nat, s: State, s': State, sub: map<Reg, Operand>)
    requires Ready(f) && SsaForm(f) && Shape(f) && b in f.t && i < |f.code[b]| && f.code[b][i].Compute?
    requires (forall d :: d in sub ==> IsLoad(f.code, d)) && Extends(At(f, b, i).sub, sub)
    requires Sim(f, w, b, i, s, s')
    ensures Sim(f, w, b, i + 1, Step(w, f.code[b][i], s), Step(w, SubInstr(f.code[b][i], sub), s'))
  {
    hide Ready, SsaForm, At, Tree, Available, Dom, IsLoad, OperandOk;
    var k := f.code[b][i];
    AtStep(f, b, i + 1);
    OperandsOk(f, b, i);
    assert DefinesAt(f.code, b, i, k.dst);
    DefinedIsFresh(f, b, i, k.dst);
    forall j | 0 <= j < |k.args|
      ensures Eval(w, k.args[j], s) == Eval(w, SubAll(k.args, sub)[j], s')
    {
      OperandValue(f, w, b, i, s, s', k.args[j]);
      GlobalIsLocal(f, b, i, k.args[j], sub);
    }
    assert EvalAll(w, k.args, s) == EvalAll(w, SubAll(k.args, sub), s');
    var s1, s1' := Step(w, k, s), Step(w, SubInstr(k, sub), s');
    var sym := At(f, b, i);
    forall o | OperandOk(f, b, i, o)
      ensures Eval(w, o, s1') == Eval(w, o, s')
    {
      EvalKept(f, w, b, i, o, k.dst, s', s1');
    }
    forall d | d in sym.sub
      ensures Get(s1.regs, d, w) == Get(s.regs, d, w)
    {
      SubKeys(f, b, i, d);
    }
  }

  /** Running a prefix of a block on both sides keeps the states related. */
  lemma {:induction false} BlockSim(f: Func, w: World, b: Block, i: nat, s: State, s': State, sub: map<Reg, Operand>)
    requires Ready(f) && SsaForm(f) && Shape(f) && b in f.t && i <= |f.code[b]|
    requires (forall d :: d in sub ==> IsLoad(f.code, d)) && Extends(At(f, b, i).sub, sub)
    requires Sim(f, w, b, 0, s, s')
    ensures Sim(f, w, b, i, Exec(w, f.code[b][..i], s), Exec(w, Promote(f.code[b][..i], sub), s'))
  {
    hide Ready, SsaForm, At, Tree, IsLoad, Sim, Step, SubInstr;
    if i > 0 {
      var c, k := f.code[b][..i], f.code[b][i - 1];
      assert c[..i - 1] == f.code[b][..i - 1] && c[i - 1] == k;
      StepExtends(f, b, i - 1);
      BlockSim(f, w, b, i - 1, s, s', sub);
      var s1, s1' := Exec(w, f.code[b][..i - 1], s), Exec(w, Promote(f.code[b][..i - 1], sub), s');
      var pre := Promote(f.code[b][..i - 1], sub);
      assert pre + [] == pre;
      match k {
        case Alloca(_) => AllocaSim(f, w, b, i - 1, s1, s1');
        case Load(_, _) => LoadSim(f, w, b, i - 1, s1, s1');
        case Store(_, _) => StoreSim(f, w, b, i - 1, s1, s1');
        case Compute(_, _, _) =>
          ComputeSim(f, w, b, i - 1, s1, s1', sub);
          assert (pre + [SubInstr(k, sub)])[..|pre|] == pre;
      }
    }
  }

  lemma AllocaSim(f: Func, w: World, b: Block, i: nat, s: State, s': State)
    requires Shape(f) && b in f.t && i < |f.code[b]| && f.code[b][i].Alloca? && Sim(f, w, b, i, s, s')
    ensures Sim(f, w, b, i + 1, Step(w, f.code[b][i], s), s')
  {
    hide At, Tree, IsLoad;
    AtStep(f, b, i + 1);
  }

  /** Every inserted phi of b has, for the edge from p, the operand its slot holds at the end of p. */
  ghost predicate PhisFilled(f: Func, phis: Phis)
    requires Shape(f)
  {
    && (forall b {:trigger phis[b]} :: b in phis ==>
          b in f.t && forall v :: v in phis[b] <==> v in f.vars && HasPhi(f.phiAt, b, v))
    && (forall b, v {:trigger HasPhi(f.phiAt, b, v)} :: b in f.t && v in f.vars && HasPhi(f.phiAt, b, v) ==> b in phis)
    && (forall p, b, v :: f.g.Edge(p, b) && p in f.t && b in phis && v in phis[b] && v in Out(f, p).vals ==>
                            Choose(phis[b][v], p) == Out(f, p).vals[v])
  }

  lemma EnterKept(f: Func, w: World, phis: Phis, p: Block, b: Block, o: Operand, s: State)
    requires Ready(f) && Shape(f) && b in f.t && b != f.g.entry && f.t[b] in f.t
    requires OperandOk(f, f.t[b], |f.code[f.t[b]]|, o)
    ensures Eval(w, o, Enter(w, phis, p, b, s)) == Eval(w, o, s)
  {
    hide Ready, Available, IsLoad;
    OperandOkStart(f, b, o);
  }

  /** Crossing an edge: the phis of the target pick up exactly the values of their slots. */
  lemma EdgeSim(f: Func, w: World, phis: Phis, p: Block, b: Block, s: State, s': State)
    requires Ready(f) && SsaForm(f) && Shape(f) && f.g.Edge(p, b) && PhisFilled(f, phis)
    requires p in f.t && Sim(f, w, p, |f.code[p]|, s, s')
    ensures b in f.t && Sim(f, w, b, 0, s, Enter(w, phis, p, b, s'))
  {
    hide Ready, SsaForm, At, Tree, IsLoad, OperandOk;
    ReadyEdge(f, p, b);
    AtStart(f, b);
    var d := f.t[b];
    var symP, symB, symD := Out(f, p), At(f, b, 0), Out(f, d);
    var s1 := Enter(w, phis, p, b, s');
    ChainExtends(f, d, p);
    OperandsOk(f, d, |f.code[d]|);
    AtKeys(f, p, |f.code[p]|);
    AtKeys(f, d, |f.code[d]|);
    forall r | r in symB.sub
      ensures Get(s.regs, r, w) == Eval(w, symB.sub[r], s1)
    {
      EnterKept(f, w, phis, p, b, symB.sub[r], s');
    }
    forall v | v in symB.vals
      ensures Get(s.slots, v, w) == Eval(w, symB.vals[v], s1)
    {
      if HasPhi(f.phiAt, b, v) {
        assert v in phis[b];
      } else {
        EdgeAgrees(f, p, b, v);
        EnterKept(f, w, phis, p, b, symD.vals[v], s');
      }
    }
  }

  /** The promoted function. */
  ghost predicate Promoted(f: Func, code: Code, phis: Phis, sub: map<Reg, Operand>)
    requires Shape(f)
  {
    var holds :=
      && PhisFilled(f, phis)
      && (forall d :: d in sub ==> IsLoad(f.code, d))
      && (forall b {:trigger Out(f, b)} :: b in f.t ==> Extends(Out(f, b).sub, sub))
      && code == map b | b in f.code :: Promote(f.code[b], sub);
    holds
  }

  /** Both runs are at the same block with related states, or both have halted with the same events. */
  ghost predicate SameConfig(f: Func, w: World, c: Config, c': Config)
    requires Shape(f)
  {
    match (c, c')
    case (Running(b, s), Running(b', s')) => b == b' && b in f.t && Sim(f, w, b, 0, s, s')
    case (Halted(s), Halted(s')) => s.trace == s'.trace
    case _ => false
  }

  lemma StartSim(f: Func, w: World)
    requires Ready(f) && Shape(f)
    ensures f.g.entry in f.t
    ensures var s := State(map[], map[], map[], []); Sim(f, w, f.g.entry, 0, s, s)
  {
    AtStart(f, f.g.entry);
  }

  lemma FullBlockSim(f: Func, w: World, code: Code, phis: Phis, sub: map<Reg, Operand>, b: Block, s: State, s': State)
    requires Ready(f) && SsaForm(f) && Shape(f) && Promoted(f, code, phis, sub) && b in f.t
    requires Sim(f, w, b, 0, s, s')
    ensures b in code && Sim(f, w, b, |f.code[b]|, Exec(w, f.code[b], s), Exec(w, code[b], s'))
  {
    hide Ready, SsaForm, At, Tree, IsLoad, Sim, PhisFilled;
    assert f.code[b][..|f.code[b]|] == f.code[b];
    assert Extends(Out(f, b).sub, sub);
    BlockSim(f, w, b, |f.code[b]|, s, s', sub);
  }

  /** After any number of blocks, in any world, the function and its promoted form are at the same place. */
  lemma {:induction false} RunsAgree(f: Func, w: World, code: Code, phis: Phis, sub: map<Reg, Operand>, n: nat)
    requires Ready(f) && SsaForm(f) && Shape(f) && Promoted(f, code, phis, sub)
    ensures SameConfig(f, w, Run(Program(f.g, f.code, map[]), w, n), Run(Program(f.g, code, phis), w, n))
  {
    hide Ready, SsaForm, At, Tree, IsLoad, Sim, PhisFilled, Exec, Enter, Promoted;
    if n == 0 {
      StartSim(f, w);
    } else {
      RunsAgree(f, w, code, phis, sub, n - 1);
      var c, c' := Run(Program(f.g, f.code, map[]), w, n - 1), Run(Program(f.g, code, phis), w, n - 1);
      if c.Running? {
        var b, s, s' := c.block, c.state, c'.state;
        FullBlockSim(f, w, code, phis, sub, b, s, s');
        var s1, s1' := Exec(w, f.code[b], s), Exec(w, code[b], s');
        SimTrace(f, w, b, |f.code[b]|, s1, s1');
        var k := w.branch(b, s1.trace);
        if k < |f.g.succs[b]| {
          var to := f.g.succs[b][k];
          assert f.g.Edge(b, to);
          PromotedPhis(f, code, phis, sub);
          EdgeSim(f, w, phis, b, to, s1, s1');
          assert Enter(w, map[], b, to, s1) == s1 by { EnterNoPhis(w, b, to, s1); }
        }
      }
    }
  }

  lemma EnterNoPhis(w: World, p: Block, b: Block, s: State)
    ensures Enter(w, map[], p, b, s) == s
  {
  }

  lemma SimTrace(f: Func, w: World, b: Block, i: nat, s: State, s': State)
    requires Shape(f) && b in f.t && i <= |f.code[b]| && Sim(f, w, b, i, s, s')
    ensures s.trace == s'.trace
  {
  }

  lemma PromotedPhis(f: Func, code: Code, phis: Phis, sub: map<Reg, Operand>)
    requires Shape(f) && Promoted(f, code, phis, sub)
    ensures PhisFilled(f, phis)
  {
  }

  ghost function Events(c: Config): seq<Event> {
    c.state.trace
  }

  /** Promotion preserves meaning: on every run both functions execute the same events with the same
      argument values, visit the same blocks and halt together. */
  lemma MeaningPreserved(f: Func, w: World, code: Code, phis: Phis, sub: map<Reg, Operand>, n: nat)
    requires Ready(f) && Shape(f) && Promoted(f, code, phis, sub)
    ensures var c, c' := Run(Program(f.g, f.code, map[]), w, n), Run(Program(f.g, code, phis), w, n);
            && Events(c) == Events(c')
            && (c.Running? <==> c'.Running?)
            && (c.Running? ==> c.block == c'.block)
  {
    ReadyShape(f);
    RunsAgree(f, w, code, phis, sub, n);
    var c, c' := Run(Program(f.g, f.code, map[]), w, n), Run(Program(f.g, code, phis), w, n);
    if c.Running? {
      SimTrace(f, w, c.block, 0, c.state, c'.state);
    }
  }
}
