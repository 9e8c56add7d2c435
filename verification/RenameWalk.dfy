/** The stack of edges still to be walked during renaming, and what it guarantees about the phis. */
module RenameWalk {
  import opened Cfg
  import opened IdomTree
  import opened PostOrder
  import opened IDomSolver
  import opened Frontier
  import opened Ssa
  import opened Promotion
  import opened PromotionMeaning
  import opened Renaming
  import opened Wrappers

  ghost function CountIn(s: seq<Block>, b: Block): nat {
    if s == [] then 0 else CountIn(s[..|s| - 1], b) + if s[|s| - 1] == b then 1 else 0
  }

  ghost function CountEntries(es: seq<Incoming>, p: Block): nat {
    if es == [] then 0 else CountEntries(es[..|es| - 1], p) + if es[|es| - 1].pred == p then 1 else 0
  }

  /** The stacked visits of b along the edge from p. */
  ghost function CountStack(stack: seq<RenameData>, p: Block, b: Block): nat {
    if stack == [] then 0
    else
      var e := stack[|stack| - 1];
      CountStack(stack[..|stack| - 1], p, b) + if e.block == b && e.pred == Some(p) then 1 else 0
  }

  ghost predicate OnStack(stack: seq<RenameData>, b: Block) {
    exists k :: 0 <= k < |stack| && stack[k].block == b
  }

  /** A stacked visit carries the operands that the slots hold on its edge. */
  ghost predicate EntryOk(f: Func, done: set<Block>, e: RenameData)
    requires Shape(f)
  {
    && e.block in f.t
    && match e.pred
       case None => e.block == f.g.entry && f.g.entry !in done && e.values == At(f, f.g.entry, 0).vals
       case Some(p) => p in done && p in f.t && f.g.Edge(p, e.block) && e.values == Out(f, p).vals
  }

  ghost predicate ParentIn(f: Func, done: set<Block>, b: Block) {
    b in f.t && f.t[b] in done
  }

  ghost predicate StackOk(f: Func, done: set<Block>, stack: seq<RenameData>)
    requires Shape(f)
  {
    var holds :=
      && (forall k :: 0 <= k < |stack| ==> EntryOk(f, done, stack[k]))
      && (forall p, b :: p in done && f.g.Edge(p, b) ==> b in done || OnStack(stack, b))
      && (f.g.entry in done || OnStack(stack, f.g.entry))
      && (forall b {:trigger ParentIn(f, done, b)} :: b in done && b != f.g.entry ==> ParentIn(f, done, b));
    holds
  }

  /** Every phi entry received so far is the operand of its slot at the end of the entry's predecessor. */
  ghost predicate EntryTrue(f: Func, done: set<Block>, b: Block, v: Var, e: Incoming)
    requires Shape(f)
  {
    e.pred in done && e.pred in f.t && f.g.Edge(e.pred, b) && v in Out(f, e.pred).vals &&
        e.value == Out(f, e.pred).vals[v]
  }

  ghost predicate PhiKeys(f: Func, phis: Phis) {
    && (forall b {:trigger phis[b]} :: b in phis ==>
          b in f.t && b != f.g.entry && forall v :: v in phis[b] <==> v in f.vars && HasPhi(f.phiAt, b, v))
    && (forall b, v {:trigger HasPhi(f.phiAt, b, v)} :: b in f.t && v in f.vars && HasPhi(f.phiAt, b, v) ==> b in phis)
  }

  ghost predicate PhiOk(f: Func, done: set<Block>, stack: seq<RenameData>, b: Block, v: Var, es: seq<Incoming>)
    requires Shape(f)
  {
    && (forall k :: 0 <= k < |es| ==> EntryTrue(f, done, b, v, es[k]))
    && (forall p :: CountEntries(es, p) + CountStack(stack, p, b) == if p in done &&
                    p in f.g.succs then CountIn(f.g.succs[p], b) else 0)
  }

  ghost predicate PhisOk(f: Func, phis: Phis, done: set<Block>, stack: seq<RenameData>)
    requires Shape(f)
  {
    var holds :=
      && PhiKeys(f, phis)
      && (forall b, v :: b in phis && v in phis[b] ==> PhiOk(f, done, stack, b, v, phis[b][v]));
    holds
  }

  /** The instruction lists between two visits. */
  ghost predicate CodeOk(f: Func, code: Code, sub: map<Reg, Operand>, done: set<Block>)
    requires Shape(f)
  {
    var holds :=
      && code == Rewritten(f.code, sub, done) && done <= f.t.Keys
      && Flat(f.code, sub) && SubFrom(f, sub, done, f.g.entry, 0)
      && (forall c :: c in done ==> Extends(Out(f, c).sub, sub));
    holds
  }

  /** The phis of e.block take one entry each. */
  function AddEntries(phis: Phis, b: Block, p: Block, values: map<Var, Operand>): Phis {
    if b in phis then
      phis[b := map v | v in phis[b] :: if v in values then phis[b][v] + [Incoming(values[v], p)] else phis[b][v]]
    else phis
  }

  lemma CountStackTop(stack: seq<RenameData>, e: RenameData, p: Block, b: Block)
    ensures CountStack(stack + [e], p, b) ==
            CountStack(stack, p, b) + if e.block == b && e.pred == Some(p) then 1 else 0
  {
    assert (stack + [e])[..|stack|] == stack;
  }

  lemma CountEntriesAdd(es: seq<Incoming>, e: Incoming, p: Block)
    ensures CountEntries(es + [e], p) == CountEntries(es, p) + if e.pred == p then 1 else 0
  {
    assert (es + [e])[..|es|] == es;
  }

  /** Popping a visit and giving the phis of its block their entries keeps every phi in order. */
  lemma PopKeepsPhis(f: Func, phis: Phis, done: set<Block>, stack: seq<RenameData>, e: RenameData, p: Block)
    requires Ready(f) && SsaForm(f) && Shape(f) && PhisOk(f, phis, done, stack + [e]) && EntryOk(f, done, e)
    requires e.pred == Some(p)
    ensures PhisOk(f, AddEntries(phis, e.block, p, e.values), done, stack)
  {
    hide Ready, SsaForm, At, Tree, HasPhi, PhiOk;
    var phis' := AddEntries(phis, e.block, p, e.values);
    AtKeys(f, p, |f.code[p]|);
    forall b, v | b in phis' && v in phis'[b]
      ensures PhiOk(f, done, stack, b, v, phis'[b][v])
    {
      assert PhiOk(f, done, stack + [e], b, v, phis[b][v]);
      if b == e.block {
        PhiTakesEntry(f, done, stack, e, p, v, phis[b][v]);
      } else {
        PhiUntouched(f, done, stack, e, b, v, phis[b][v]);
      }
    }
  }

  lemma PhiUntouched(f: Func, done: set<Block>, stack: seq<RenameData>, e: RenameData, b: Block, v: Var,
      es: seq<Incoming>)
    requires Shape(f) && PhiOk(f, done, stack + [e], b, v, es) && (b != e.block || e.pred == None)
    ensures PhiOk(f, done, stack, b, v, es)
  {
    hide At, Tree;
    forall q ensures CountStack(stack + [e], q, b) == CountStack(stack, q, b) {
      CountStackTop(stack, e, q, b);
    }
  }

  lemma PhiTakesEntry(f: Func, done: set<Block>, stack: seq<RenameData>, e: RenameData, p: Block, v: Var,
      es: seq<Incoming>)
    requires Shape(f) && EntryOk(f, done, e) && e.pred == Some(p) && v in e.values
    requires PhiOk(f, done, stack + [e], e.block, v, es)
    ensures PhiOk(f, done, stack, e.block, v, es + [Incoming(e.values[v], p)])
  {
    hide At, Tree;
    forall q
      ensures CountStack(stack + [e], q, e.block) == CountStack(stack, q, e.block) + if q == p then 1 else 0
      ensures CountEntries(es + [Incoming(e.values[v], p)], q) == CountEntries(es, q) + if q == p then 1 else 0
    {
      CountStackTop(stack, e, q, e.block);
      CountEntriesAdd(es, Incoming(e.values[v], p), q);
    }
  }

  /** The first visit, of the entry, gives no phi an entry. */
  lemma PopEntryKeepsPhis(f: Func, phis: Phis, done: set<Block>, stack: seq<RenameData>, e: RenameData)
    requires Shape(f) && PhisOk(f, phis, done, stack + [e]) && e.pred == None
    ensures PhisOk(f, phis, done, stack)
  {
    hide At, Tree, HasPhi, PhiOk;
    forall b, v | b in phis && v in phis[b]
      ensures PhiOk(f, done, stack, b, v, phis[b][v])
    {
      PhiUntouched(f, done, stack, e, b, v, phis[b][v]);
    }
  }

  /** A block whose visit comes second is only popped. */
  lemma PopKeepsStack(f: Func, done: set<Block>, stack: seq<RenameData>, e: RenameData)
    requires Shape(f) && StackOk(f, done, stack + [e]) && e.block in done
    ensures StackOk(f, done, stack) && EntryOk(f, done, e)
  {
    hide At, Tree, EntryOk;
    var all := stack + [e];
    assert EntryOk(f, done, all[|stack|]);
    forall k | 0 <= k < |stack| ensures EntryOk(f, done, stack[k]) { assert EntryOk(f, done, all[k]); }
    forall b | OnStack(all, b) && b != e.block
      ensures OnStack(stack, b)
    {
      var k :| 0 <= k < |all| && all[k].block == b;
      assert stack[k] == all[k];
    }
  }

  /** The visits pushed after b has been renamed. */
  function Pushed(b: Block, values: map<Var, Operand>, succs: seq<Block>): seq<RenameData> {
    seq(|succs|, k requires 0 <= k < |succs| => RenameData(succs[k], Some(b), values))
  }

  lemma {:induction false} CountPushed(stack: seq<RenameData>, b: Block, values: map<Var, Operand>, succs: seq<Block>,
      p: Block, c: Block)
    ensures CountStack(stack + Pushed(b, values, succs), p, c) ==
              CountStack(stack, p, c) + if p == b then CountIn(succs, c) else 0
  {
    if succs == [] {
      assert stack + Pushed(b, values, succs) == stack;
    } else {
      var front, last := succs[..|succs| - 1], succs[|succs| - 1];
      CountPushed(stack, b, values, front, p, c);
      assert stack + Pushed(b, values,
          succs) == (stack + Pushed(b, values, front)) + [RenameData(last, Some(b), values)];
      CountStackTop(stack + Pushed(b, values, front), RenameData(last, Some(b), values), p, c);
    }
  }

  /** The immediate dominator of a block about to be visited has been renamed. */
  lemma {:induction false} DoneAbove(f: Func, done: set<Block>, stack: seq<RenameData>, a: Block, p: Block)
    requires Shape(f) && StackOk(f, done, stack) && p in done && p in f.t && Above(f.t, f.id, f.g.entry, a, p)
    ensures a in done
    decreases f.id[f.g.entry] - f.id[p]
  {
    if a != p {
      assert ParentIn(f, done, p);
      DoneAbove(f, done, stack, a, f.t[p]);
    }
  }

  lemma ParentDone(f: Func, done: set<Block>, stack: seq<RenameData>, e: RenameData)
    requires Ready(f) && Shape(f) && StackOk(f, done, stack) && EntryOk(f, done, e) && e.block != f.g.entry
    ensures f.t[e.block] in done && f.t[e.block] in f.t
  {
    hide Ready, StackOk, At, Tree;
    ReadyEdge(f, e.pred.value, e.block);
    DoneAbove(f, done, stack, f.t[e.block], e.pred.value);
  }

  /** The operands carried to a block, with its own phis put in, are those it starts with. */
  lemma StartValues(f: Func, done: set<Block>, e: RenameData)
    requires Ready(f) && SsaForm(f) && Shape(f) && EntryOk(f, done, e)
    ensures PutPhis(f.phiAt, e.block, e.values) == At(f, e.block, 0).vals
  {
    hide Ready, SsaForm, At, Tree, HasPhi;
    AtStart(f, e.block);
    AtKeys(f, e.block, 0);
    if e.pred.Some? {
      var p, b := e.pred.value, e.block;
      ReadyEdge(f, p, b);
      AtKeys(f, p, |f.code[p]|);
      forall v | v in f.vars
        ensures PutPhis(f.phiAt, b, e.values)[v] == At(f, b, 0).vals[v]
      {
        AtKeys(f, f.t[b], |f.code[f.t[b]]|);
        if !HasPhi(f.phiAt, b, v) {
          EdgeAgrees(f, p, b, v);
        }
      }
    } else {
      EntryHasNoPhi(f);
    }
  }

  lemma EntryHasNoPhi(f: Func)
    requires Ready(f)
    ensures forall v :: v in f.vars ==> !HasPhi(f.phiAt, f.g.entry, v)
  {
  }

  /** Entering the block on top of the stack. */
  lemma BeginBlock(f: Func, code: Code, sub: map<Reg, Operand>, done: set<Block>, stack: seq<RenameData>, e: RenameData)
    requires Ready(f) && SsaForm(f) && Shape(f) && StackOk(f, done, stack) && EntryOk(f, done, e)
    requires CodeOk(f, code, sub, done) && e.block !in done
    ensures InBlock(f, code, sub, done, e.block, 0)
    ensures PutPhis(f.phiAt, e.block, e.values) == At(f, e.block, 0).vals
  {
    hide Ready, SsaForm, At, Tree, StackOk, EntryOk, Rewritten, Flat, PutPhis;
    StartValues(f, done, e);
    EntryInTree(f, done, e);
    AtStart(f, e.block);
    if e.block != f.g.entry {
      ParentDone(f, done, stack, e);
    }
  }

  lemma EntryInTree(f: Func, done: set<Block>, e: RenameData)
    requires Shape(f) && EntryOk(f, done, e)
    ensures e.block in f.t
  {
  }

  /** Leaving a renamed block: its accesses are deleted. */
  lemma EndBlock(f: Func, code: Code, sub: map<Reg, Operand>, done: set<Block>, b: Block)
    requires Shape(f) && b in f.t && InBlock(f, code, sub, done, b, |f.code[b]|)
    ensures b in code && CodeOk(f, code[b := WithoutAccesses(code[b])], sub, done + {b})
  {
    hide At, Tree, Flat, Rewritten, WithoutAccesses;
    FinishRewritten(f.code, sub, done, b);
    assert b in code by { RewrittenKeys(f.code, sub, done); }
    forall d | d in sub
      ensures exists c, j: nat :: DefinesAt(f.code, c, j, d) && (c in done + {b} || (c == f.g.entry && j < 0))
    {
      var c, j: nat :| DefinesAt(f.code, c, j, d) && (c in done || (c == b && j < |f.code[b]|));
    }
  }

  lemma RewrittenKeys(code: Code, sub: map<Reg, Operand>, done: set<Block>)
    ensures Rewritten(code, sub, done).Keys == code.Keys
  {
  }

  /** Pushing the successors of a renamed block keeps the stack in order. */
  lemma PushKeepsStack(f: Func, done: set<Block>, stack: seq<RenameData>, e: RenameData)
    requires Ready(f) && Shape(f) && StackOk(f, done, stack + [e]) && EntryOk(f, done, e) && e.block !in done
    requires e.block != f.g.entry ==> f.t[e.block] in done
    requires forall k :: 0 <= k < |stack| ==> stack[k].pred != None
    ensures e.block in f.g.succs
    ensures StackOk(f, done + {e.block}, stack + Pushed(e.block, Out(f, e.block).vals, f.g.succs[e.block]))
  {
    hide Ready, At, Tree;
    var b, succs, before := e.block, f.g.succs[e.block], stack + [e];
    var values := Out(f, b).vals;
    var after := stack + Pushed(b, values, succs);
    forall k | 0 <= k < |after|
      ensures EntryOk(f, done + {b}, after[k])
    {
      if k < |stack| {
        assert before[k] == stack[k] == after[k];
        assert EntryOk(f, done, before[k]);
      } else {
        assert after[k] == RenameData(succs[k - |stack|], Some(b), values);
        ReadyEdge(f, b, succs[k - |stack|]);
      }
    }
    forall c | c in done + {b} && c != f.g.entry
      ensures ParentIn(f, done + {b}, c)
    {
      assert c != b ==> ParentIn(f, done, c);
    }
    forall c | c != b && OnStack(before, c)
      ensures OnStack(after, c)
    {
      var k :| 0 <= k < |before| && before[k].block == c;
      assert after[k] == before[k];
    }
    forall c | f.g.Edge(b, c)
      ensures OnStack(after, c)
    {
      var k :| 0 <= k < |succs| && succs[k] == c;
      assert after[|stack| + k].block == c;
    }
  }

  /** Pushing the successors of a renamed block keeps the count of every phi in order. */
  lemma PushKeepsPhis(f: Func, phis: Phis, done: set<Block>, stack: seq<RenameData>, b: Block,
      values: map<Var, Operand>)
    requires Shape(f) && PhisOk(f, phis, done, stack) && b in f.g.succs && b !in done
    ensures PhisOk(f, phis, done + {b}, stack + Pushed(b, values, f.g.succs[b]))
  {
    hide At, Tree, HasPhi, Pushed;
    var after := stack + Pushed(b, values, f.g.succs[b]);
    forall c, v | c in phis && v in phis[c]
      ensures PhiOk(f, done + {b}, after, c, v, phis[c][v])
    {
      assert PhiOk(f, done, stack, c, v, phis[c][v]);
      forall p
        ensures CountStack(after, p, c) == CountStack(stack, p, c) + if p == b then CountIn(f.g.succs[b], c) else 0
      {
        CountPushed(stack, b, values, f.g.succs[b], p, c);
      }
    }
  }

  /** The walk has ended: every block has been renamed. */
  lemma {:induction false} AllDone(f: Func, done: set<Block>, p: Path)
    requires Shape(f) && StackOk(f, done, []) && IsPath(f.g, p)
    ensures End(f.g, p) in done
  {
    if p.Then? { AllDone(f, done, p.front); }
  }

  /** A phi that received an entry for p takes the operand of its slot at the end of p. */
  lemma {:induction false} ChooseTrue(f: Func, done: set<Block>, b: Block, v: Var, es: seq<Incoming>, p: Block)
    requires Shape(f) && p in f.t && v in Out(f, p).vals
    requires forall k :: 0 <= k < |es| ==> EntryTrue(f, done, b, v, es[k])
    requires exists k :: 0 <= k < |es| && es[k].pred == p
    ensures Choose(es, p) == Out(f, p).vals[v]
  {
    hide At, Tree;
    if es[0].pred != p {
      var k :| 0 <= k < |es| && es[k].pred == p;
      assert es[1..][k - 1] == es[k];
      ChooseTrue(f, done, b, v, es[1..], p);
    }
  }

  lemma {:induction false} CountedEntry(es: seq<Incoming>, p: Block)
    requires CountEntries(es, p) > 0
    ensures exists k :: 0 <= k < |es| && es[k].pred == p
  {
    if es[|es| - 1].pred != p {
      CountedEntry(es[..|es| - 1], p);
      var k :| 0 <= k < |es| - 1 && es[..|es| - 1][k].pred == p;
      assert es[k].pred == p;
    }
  }

  lemma {:induction false} CountedEdge(s: seq<Block>, b: Block)
    requires b in s
    ensures CountIn(s, b) > 0
  {
    if s[|s| - 1] != b {
      CountedEdge(s[..|s| - 1], b);
    }
  }

  lemma PhiComplete(f: Func, done: set<Block>, b: Block, v: Var, es: seq<Incoming>, p: Block)
    requires Shape(f) && PhiOk(f, done, [], b, v, es) && done == f.t.Keys
    ensures CountEntries(es, p) == if p in f.g.succs then CountIn(f.g.succs[p], b) else 0
    ensures f.g.Edge(p, b) && v in Out(f, p).vals ==> Choose(es, p) == Out(f, p).vals[v]
  {
    hide At, Tree, EntryTrue;
    assert CountStack([], p, b) == 0;
    if f.g.Edge(p, b) && v in Out(f, p).vals {
      CountedEdge(f.g.succs[p], b);
      CountedEntry(es, p);
      ChooseTrue(f, done, b, v, es, p);
    }
  }

  /** When the walk has ended every phi is filled and has exactly one entry for each edge. */
  lemma WalkEnds(f: Func, phis: Phis, done: set<Block>)
    requires Ready(f) && Shape(f) && StackOk(f, done, []) && PhisOk(f, phis, done, []) && done <= f.t.Keys
    ensures done == f.t.Keys
    ensures PhisFilled(f, phis)
    ensures forall b, v, p :: b in phis && v in phis[b] ==>
              CountEntries(phis[b][v], p) == if p in f.g.succs then CountIn(f.g.succs[p], b) else 0
  {
    hide Ready, Shape, StackOk, PhisOk, PhisFilled, CountEntries, CountIn;
    forall b | b in f.t
      ensures b in done
    {
      BlockDone(f, done, b);
    }
    PhisEnd(f, phis, done);
  }

  lemma PhisEnd(f: Func, phis: Phis, done: set<Block>)
    requires Ready(f) && Shape(f) && StackOk(f, done, []) && PhisOk(f, phis, done, []) && done == f.t.Keys
    ensures PhisFilled(f, phis)
    ensures forall b, v, p :: b in phis && v in phis[b] ==>
              CountEntries(phis[b][v], p) == if p in f.g.succs then CountIn(f.g.succs[p], b) else 0
  {
    hide Ready, At, Tree, StackOk, HasPhi, PhiOk, Reachable, CountEntries, CountIn, Choose;
    forall b, v, p | b in phis && v in phis[b]
      ensures CountEntries(phis[b][v], p) == if p in f.g.succs then CountIn(f.g.succs[p], b) else 0
      ensures f.g.Edge(p, b) && v in Out(f, p).vals ==> Choose(phis[b][v], p) == Out(f, p).vals[v]
    {
      PhiComplete(f, done, b, v, phis[b][v], p);
    }
  }

  lemma BlockDone(f: Func, done: set<Block>, b: Block)
    requires Ready(f) && Shape(f) && StackOk(f, done, []) && b in f.t
    ensures b in done
  {
    EveryBlockReachable(f, b);
    var p :| PathTo(f.g, p, b);
    AllDone(f, done, p);
  }

  lemma EveryBlockReachable(f: Func, b: Block)
    requires Ready(f) && b in f.t
    ensures Reachable(f.g, b)
  {
    StoppedMeaning(f.g, f.id, f.post, f.t);
  }

  lemma WalkBegins(f: Func, code: Code, phis: Phis, stack: seq<RenameData>)
    requires Ready(f) && Shape(f) && code == f.code && PhiKeys(f, phis)
    requires forall b, v :: b in phis && v in phis[b] ==> phis[b][v] == []
    requires stack == [RenameData(f.g.entry, None, map v | v in f.vars :: Uncertain)]
    ensures CodeOk(f, code, map[], {}) && StackOk(f, {}, stack) && PhisOk(f, phis, {}, stack)
  {
    hide Ready, At, Tree, HasPhi;
    EntryInF(f);
    AtStart(f, f.g.entry);
    assert stack[0].block == f.g.entry;
    forall b | b in code
      ensures code[b] == SubCode(code[b], map[])
    {
      forall i | 0 <= i < |code[b]| ensures SubInstr(code[b][i], map[]) == code[b][i] {
        if code[b][i].Compute? { assert SubAll(code[b][i].args, map[]) == code[b][i].args; }
      }
    }
    assert code == Rewritten(f.code, map[], {});
    forall b, v | b in phis && v in phis[b]
      ensures PhiOk(f, {}, stack, b, v, phis[b][v])
    {
      forall p ensures CountStack(stack, p, b) == 0 {
        CountStackTop([], stack[0], p, b);
        assert stack == [] + [stack[0]];
      }
    }
  }

  lemma EntryInF(f: Func)
    requires Ready(f)
    ensures f.g.entry in f.t
  {
  }

  lemma TopOk(f: Func, done: set<Block>, stack: seq<RenameData>, e: RenameData)
    requires Shape(f) && StackOk(f, done, stack + [e])
    ensures EntryOk(f, done, e) && e.block in f.t
  {
    hide At, Tree;
    assert EntryOk(f, done, (stack + [e])[|stack|]);
  }

  /** The phis found at the start of the block are the ones placed there. */
  lemma OwnPhis(f: Func, phis: Phis, done: set<Block>, stack: seq<RenameData>, e: RenameData)
    requires Ready(f) && SsaForm(f) && Shape(f) && PhisOk(f, phis, done, stack) && EntryOk(f, done, e)
    ensures PutPhis(f.phiAt, e.block, e.values) ==
              map v | v in e.values :: if e.block in phis && v in phis[e.block] then PhiOf(e.block, v) else e.values[v]
  {
    hide Ready, SsaForm, At, Tree, HasPhi, PhiOk;
    if e.pred.Some? {
      AtKeys(f, e.pred.value, |f.code[e.pred.value]|);
    } else {
      AtKeys(f, f.g.entry, 0);
    }
  }

  /** When a block is renamed, no visit without a predecessor waits below it. */
  lemma PushReady(f: Func, done: set<Block>, stack: seq<RenameData>, e: RenameData)
    requires Ready(f) && Shape(f) && StackOk(f, done, stack + [e]) && EntryOk(f, done, e)
    requires f.g.entry !in done ==> |stack| == 0
    ensures e.block != f.g.entry ==> f.t[e.block] in done
    ensures forall k :: 0 <= k < |stack| ==> stack[k].pred != None
    ensures f.g.entry in done || e.block == f.g.entry
  {
    hide Ready, At, Tree;
    forall k | 0 <= k < |stack|
      ensures stack[k].pred != None
    {
      assert EntryOk(f, done, (stack + [e])[k]);
    }
    if e.block != f.g.entry {
      ParentDone(f, done, stack + [e], e);
    }
    if f.g.entry !in done {
      var k :| 0 <= k < |stack + [e]| && (stack + [e])[k].block == f.g.entry;
    }
  }

  lemma CodeOkDone(f: Func, code: Code, sub: map<Reg, Operand>, done: set<Block>)
    requires Shape(f) && CodeOk(f, code, sub, done)
    ensures done <= f.t.Keys
  {
  }

  lemma PhisOkKeys(f: Func, phis: Phis, done: set<Block>, stack: seq<RenameData>)
    requires Shape(f) && PhisOk(f, phis, done, stack)
    ensures PhiKeys(f, phis)
  {
  }

  lemma PushedStep(b: Block, values: map<Var, Operand>, succs: seq<Block>, j: nat)
    requires j < |succs|
    ensures Pushed(b, values, succs[..j + 1]) == Pushed(b, values, succs[..j]) + [RenameData(succs[j], Some(b), values)]
  {
  }

  lemma WalkPromotes(f: Func, code: Code, phis: Phis, sub: map<Reg, Operand>, done: set<Block>)
    requires Shape(f) && CodeOk(f, code, sub, done) && done == f.t.Keys && PhisFilled(f, phis)
    ensures Promoted(f, code, phis, sub)
  {
    hide At, Tree, IsLoad, SubFrom, PhisFilled;
    assert Rewritten(f.code, sub, done) == map b | b in f.code :: Promote(f.code[b], sub);
  }
}
