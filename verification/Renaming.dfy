/** What the renaming walk over the control-flow edges keeps: the instruction lists rewritten so far, the
    operands carried along each edge, and the entries received by every phi. */
module Renaming {
  import opened Cfg
  import opened IdomTree
  import opened PostOrder
  import opened IDomSolver
  import opened Frontier
  import opened Ssa
  import opened Promotion
  import opened PromotionMeaning
  import opened Wrappers

  /** A block to visit, the block it is reached from, and the operands the slots hold on that edge. */
  datatype RenameData = RenameData(block: Block, pred: Option<Block>, values: map<Var, Operand>)

  function ReplaceIn(c: seq<Instr>, d: Reg, x: Operand): seq<Instr> {
    seq(|c|, i requires 0 <= i < |c| => SubInstr(c[i], map[d := x]))
  }

  function SubCode(c: seq<Instr>, sub: map<Reg, Operand>): (r: seq<Instr>)
    ensures |r| == |c| && forall i :: 0 <= i < |c| ==> r[i] == SubInstr(c[i], sub)
  {
    seq(|c|, i requires 0 <= i < |c| => SubInstr(c[i], sub))
  }

  /** Deletes the slot accesses of a block. */
  function WithoutAccesses(c: seq<Instr>): seq<Instr> {
    if c == [] then []
    else WithoutAccesses(c[..|c| - 1]) + if c[|c| - 1].Compute? then [c[|c| - 1]] else []
  }

  /** No replacement operand is itself a replaced load. */
  ghost predicate Flat(code: Code, sub: map<Reg, Operand>) {
    forall d :: d in sub ==> IsLoad(code, d) && (sub[d].Use? ==> !IsLoad(code, sub[d].reg))
  }

  lemma ReplaceSub(code: Code, o: Operand, sub: map<Reg, Operand>, d: Reg, x: Operand)
    requires Flat(code, sub) && IsLoad(code, d) && d !in sub
    ensures SubOp(SubOp(o, sub), map[d := x]) == SubOp(o, sub[d := x])
  {
  }

  lemma ReplaceSubInstr(code: Code, i: Instr, sub: map<Reg, Operand>, d: Reg, x: Operand)
    requires Flat(code, sub) && IsLoad(code, d) && d !in sub
    ensures SubInstr(SubInstr(i, sub), map[d := x]) == SubInstr(i, sub[d := x])
  {
    hide IsLoad, Flat;
    if i.Store? {
      ReplaceSub(code, i.src, sub, d, x);
    } else if i.Compute? {
      forall k | 0 <= k < |i.args|
        ensures SubAll(SubAll(i.args, sub), map[d := x])[k] == SubAll(i.args, sub[d := x])[k]
      {
        ReplaceSub(code, i.args[k], sub, d, x);
      }
      assert SubAll(SubAll(i.args, sub), map[d := x]) == SubAll(i.args, sub[d := x]);
    }
  }

  lemma ReplaceSubCode(code: Code, c: seq<Instr>, sub: map<Reg, Operand>, d: Reg, x: Operand)
    requires Flat(code, sub) && IsLoad(code, d) && d !in sub
    ensures ReplaceIn(SubCode(c, sub), d, x) == SubCode(c, sub[d := x])
  {
    hide IsLoad, Flat, SubInstr;
    forall k | 0 <= k < |c|
      ensures ReplaceIn(SubCode(c, sub), d, x)[k] == SubCode(c, sub[d := x])[k]
    {
      ReplaceSubInstr(code, c[k], sub, d, x);
    }
  }

  lemma {:induction false} PromoteIsSubThenDelete(c: seq<Instr>, sub: map<Reg, Operand>)
    ensures Promote(c, sub) == WithoutAccesses(SubCode(c, sub))
  {
    if c != [] {
      var front := c[..|c| - 1];
      PromoteIsSubThenDelete(front, sub);
      assert SubCode(c, sub)[..|c| - 1] == SubCode(front, sub);
    }
  }

  lemma {:induction false} ReplacePromoted(code: Code, c: seq<Instr>, sub: map<Reg, Operand>, d: Reg, x: Operand)
    requires Flat(code, sub) && IsLoad(code, d) && d !in sub
    ensures ReplaceIn(Promote(c, sub), d, x) == Promote(c, sub[d := x])
  {
    hide IsLoad, Flat, SubInstr;
    if c != [] {
      var front, last := c[..|c| - 1], c[|c| - 1];
      ReplacePromoted(code, front, sub, d, x);
      if last.Compute? {
        ReplaceSubInstr(code, last, sub, d, x);
        assert ReplaceIn(Promote(front, sub) + [SubInstr(last, sub)], d, x)
            == ReplaceIn(Promote(front, sub), d, x) + [SubInstr(SubInstr(last, sub), map[d := x])];
      } else {
        assert Promote(front, sub) + [] == Promote(front, sub);
        assert Promote(front, sub[d := x]) + [] == Promote(front, sub[d := x]);
      }
    }
  }

  /** The instruction lists when the blocks in done have been renamed and the loads in sub replaced. */
  ghost function Rewritten(code: Code, sub: map<Reg, Operand>, done: set<Block>): Code {
    map b | b in code :: if b in done then Promote(code[b], sub) else SubCode(code[b], sub)
  }

  /** Replacing one more load everywhere. */
  function ReplaceAllUse(code: Code, d: Reg, x: Operand): Code {
    map b | b in code :: ReplaceIn(code[b], d, x)
  }

  lemma ReplaceRewritten(code: Code, sub: map<Reg, Operand>, done: set<Block>, d: Reg, x: Operand)
    requires Flat(code, sub) && IsLoad(code, d) && d !in sub
    ensures ReplaceAllUse(Rewritten(code, sub, done), d, x) == Rewritten(code, sub[d := x], done)
  {
    hide IsLoad, Flat, Promote, SubInstr, ReplaceIn;
    forall b | b in code
      ensures ReplaceAllUse(Rewritten(code, sub, done), d, x)[b] == Rewritten(code, sub[d := x], done)[b]
    {
      ReplacePromoted(code, code[b], sub, d, x);
      ReplaceSubCode(code, code[b], sub, d, x);
    }
  }

  lemma FinishRewritten(code: Code, sub: map<Reg, Operand>, done: set<Block>, b: Block)
    requires b in code && b !in done
    ensures Rewritten(code, sub, done)[b := WithoutAccesses(Rewritten(code, sub, done)[b])] == Rewritten(code, sub,
            done + {b})
  {
    PromoteIsSubThenDelete(code[b], sub);
  }

  /** Every replaced load is defined in a renamed block, or in b before instruction i. */
  ghost predicate SubFrom(f: Func, sub: map<Reg, Operand>, done: set<Block>, b: Block, i: nat) {
    forall d :: d in sub ==> exists c, j: nat :: DefinesAt(f.code, c, j, d) && (c in done || (c == b && j < i))
  }

  /** The walk is at instruction i of b, having renamed the blocks in done. */
  ghost predicate InBlock(f: Func, code: Code, sub: map<Reg, Operand>, done: set<Block>, b: Block, i: nat)
    requires Shape(f) && b in f.t && i <= |f.code[b]|
  {
    var holds :=
      && code == Rewritten(f.code, sub, done) && b !in done && done <= f.t.Keys
      && Flat(f.code, sub) && SubFrom(f, sub, done, b, i)
      && Extends(At(f, b, i).sub, sub)
      && (forall c :: c in done ==> Extends(Out(f, c).sub, sub));
    holds
  }

  /** Instruction i as the walk sees it: its loads replaced. */
  lemma SeenInstr(f: Func, code: Code, sub: map<Reg, Operand>, done: set<Block>, b: Block, i: nat)
    requires Ready(f) && SsaForm(f) && Shape(f) && b in f.t && i < |f.code[b]|
    requires InBlock(f, code, sub, done, b, i)
    ensures b in code && |code[b]| == |f.code[b]|
    ensures code[b][i] == SubInstr(f.code[b][i], sub)
    ensures f.code[b][i].Store? ==> code[b][i].src == SubOp(f.code[b][i].src, At(f, b, i).sub)
  {
    hide Ready, SsaForm, At, Tree, IsLoad, SubFrom;
    if f.code[b][i].Store? {
      assert f.code[b][i].src in Operands(f.code[b][i]);
      GlobalIsLocal(f, b, i, f.code[b][i].src, sub);
    }
  }

  lemma LoadIsNew(f: Func, sub: map<Reg, Operand>, done: set<Block>, b: Block, i: nat)
    requires SsaForm(f) && b in f.code && i < |f.code[b]| && f.code[b][i].Load? && b !in done
    requires SubFrom(f, sub, done, b, i)
    ensures f.code[b][i].dst !in sub && IsLoad(f.code, f.code[b][i].dst)
  {
    var d := f.code[b][i].dst;
    assert DefinesAt(f.code, b, i, d);
    if d in sub {
      var c, j: nat :| DefinesAt(f.code, c, j, d) && (c in done || (c == b && j < i));
    }
  }

  lemma SubFromStep(f: Func, sub: map<Reg, Operand>, done: set<Block>, b: Block, i: nat)
    requires SubFrom(f, sub, done, b, i)
    ensures SubFrom(f, sub, done, b, i + 1)
  {
    forall d | d in sub
      ensures exists c, j: nat :: DefinesAt(f.code, c, j, d) && (c in done || (c == b && j < i + 1))
    {
      var c, j: nat :| DefinesAt(f.code, c, j, d) && (c in done || (c == b && j < i));
    }
  }

  lemma SubFromLoad(f: Func, sub: map<Reg, Operand>, done: set<Block>, b: Block, i: nat, x: Operand)
    requires SubFrom(f, sub, done, b, i) && b in f.code && i < |f.code[b]| && f.code[b][i].Load?
    ensures SubFrom(f, sub[f.code[b][i].dst := x], done, b, i + 1)
  {
    SubFromStep(f, sub, done, b, i);
    assert DefinesAt(f.code, b, i, f.code[b][i].dst);
  }

  /** The walk passes a load: all uses of it are replaced by the operand of its slot. */
  lemma PassLoad(f: Func, code: Code, sub: map<Reg, Operand>, done: set<Block>, b: Block, i: nat)
    requires Ready(f) && SsaForm(f) && Shape(f) && b in f.t && i < |f.code[b]| && f.code[b][i].Load?
    requires InBlock(f, code, sub, done, b, i)
    ensures f.code[b][i].v in At(f, b, i).vals
    ensures var d, x := f.code[b][i].dst, At(f, b, i).vals[f.code[b][i].v];
            InBlock(f, ReplaceAllUse(code, d, x), sub[d := x], done, b, i + 1)
  {
    hide Ready, SsaForm, At, Tree, IsLoad, SubFrom, Rewritten, ReplaceAllUse, Available, Dom;
    AtKeys(f, b, i);
    SlotInVars(f, b, i);
    var d, x := f.code[b][i].dst, At(f, b, i).vals[f.code[b][i].v];
    LoadIsNew(f, sub, done, b, i);
    OperandsOk(f, b, i);
    ReplaceRewritten(f.code, sub, done, d, x);
    SubFromLoad(f, sub, done, b, i, x);
    AtStep(f, b, i + 1);
  }

  lemma PassOther(f: Func, code: Code, sub: map<Reg, Operand>, done: set<Block>, b: Block, i: nat)
    requires Ready(f) && SsaForm(f) && Shape(f) && b in f.t && i < |f.code[b]| && !f.code[b][i].Load?
    requires InBlock(f, code, sub, done, b, i)
    ensures InBlock(f, code, sub, done, b, i + 1)
  {
    hide Ready, SsaForm, At, Tree, IsLoad, SubFrom, Rewritten;
    SubFromStep(f, sub, done, b, i);
    AtStep(f, b, i + 1);
  }

  lemma BlockInCode(f: Func, code: Code, sub: map<Reg, Operand>, done: set<Block>, b: Block, i: nat)
    requires Shape(f) && b in f.t && i <= |f.code[b]| && InBlock(f, code, sub, done, b, i)
    ensures b in code && |code[b]| == |f.code[b]|
  {
    hide At, Tree, Flat, SubFrom;
  }
}
