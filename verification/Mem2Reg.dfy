/** Promotion of scalar stack slots: finds the storing blocks, places phis on iterated dominance frontiers,
    and renames by walking the control-flow edges with a stack. */
module Mem2Reg {
  import opened Cfg
  import opened IdomTree
  import opened PostOrder
  import opened IDomSolver
  import opened Frontier
  import opened Ssa
  import opened Promotion
  import opened PromotionMeaning
  import opened Renaming
  import opened RenameWalk
  import D = Dominators
  import opened Wrappers

  /** S holds the frontier of every block of defs and of every block of S. */
  ghost predicate FrontierClosed(f: Frontiers, defs: set<Block>, S: set<Block>) {
    forall x, y :: (x in defs || x in S) && Marked(f, x, y) ==> y in S
  }

  /** S is the iterated dominance frontier of defs: the least set closed under frontiers. */
  ghost predicate IsIteratedFrontier(f: Frontiers, defs: set<Block>, S: set<Block>) {
    FrontierClosed(f, defs, S) && forall T :: FrontierClosed(f, defs, T) ==> S <= T
  }

  ghost function Elements(s: seq<Block>): set<Block> {
    set b | b in s
  }

  function FrontierOf(f: Frontiers, b: Block): set<Block> {
    if b in f then f[b] else {}
  }

  ghost function AllTargets(f: Frontiers): set<Block> {
    set x, y | x in f && y in f[x] :: y
  }

  /** The phi worklist of one slot: a queue seeded with the storing blocks. */
  method PlacePhis(frontier: Frontiers, defs: seq<Block>) returns (visited: set<Block>)
    ensures IsIteratedFrontier(frontier, Elements(defs), visited)
  {
    ghost var defSet := Elements(defs);
    visited := {};
    var W := defs;
    while W != []
      invariant forall b :: b in W ==> b in defs || b in visited
      invariant forall x, y :: (x in defs || x in visited) && x !in W && Marked(frontier, x, y) ==> y in visited
      invariant forall T :: FrontierClosed(frontier, defSet, T) ==> visited <= T
      invariant visited <= AllTargets(frontier)
      decreases AllTargets(frontier) - visited, |W|
    {
      var bb := W[0];
      W := W[1..];
      var todo := FrontierOf(frontier, bb);
      ghost var seen := {};
      ghost var before, W0 := visited, W;
      while todo != {}
        invariant todo !! seen && todo + seen == FrontierOf(frontier, bb)
        invariant before <= visited && seen <= visited && visited <= before + seen
        invariant forall b :: b in W ==> b in defs || b in visited
        invariant forall b :: b in W0 ==> b in W
        invariant forall b :: b in visited && b !in before && b !in defs ==> b in W
        invariant visited == before ==> W == W0
        invariant visited <= AllTargets(frontier)
        decreases todo
      {
        var y :| y in todo;
        todo := todo - {y};
        seen := seen + {y};
        if y !in visited {
          visited := visited + {y};
          if y !in defs {
            W := W + [y];
          }
        }
      }
      forall T | FrontierClosed(frontier, defSet, T)
        ensures visited <= T
      {
        assert bb in defSet || bb in before;
        forall y | y in seen ensures y in T { assert Marked(frontier, bb, y); }
      }
      assert visited == before || AllTargets(frontier) - visited < AllTargets(frontier) - before;
    }
  }

  /** The first k instructions of the first block are allocas, and they make every slot that is accessed. */
  ghost predicate Prologue(code: Code, blocks: seq<Block>, k: nat) {
    && blocks != [] && (forall b :: b in blocks ==> b in code)
    && k <= |code[blocks[0]]|
    && (forall i :: 0 <= i < k ==> code[blocks[0]][i].Alloca?)
    && (forall b, i :: b in blocks && 0 <= i < |code[b]| && !code[b][i].Compute? ==>
                         Declares(code[blocks[0]], k, code[b][i].v))
  }

  ghost predicate AllocasFirst(code: Code, blocks: seq<Block>) {
    exists k: nat :: Prologue(code, blocks, k)
  }

  ghost predicate Declares(c: seq<Instr>, k: nat, v: Var) {
    exists j :: 0 <= j < k && j < |c| && c[j].Alloca? && c[j].v == v
  }

  ghost predicate Accesses(code: Code, blocks: seq<Block>, v: Var) {
    exists b, i :: b in blocks && b in code && 0 <= i < |code[b]| && !code[b][i].Compute? && code[b][i].v == v
  }

  /** The slots and storing blocks known before instruction i of block number n. */
  ghost predicate Scanned(code: Code, blocks: seq<Block>, k: nat, n: nat, i: nat, defBlocks: map<Var, seq<Block>>)
    requires Prologue(code, blocks, k) && n < |blocks| && i <= |code[blocks[n]]|
  {
    && (forall v :: v in defBlocks <==> Declares(code[blocks[0]], if n == 0 && i < k then i else k, v))
    && (forall v, b :: v in defBlocks ==> (b in defBlocks[v] <==>
          (b in blocks[..n] && Stores(code[b], v)) || (b == blocks[n] && Stores(code[b][..i], v))))
  }

  lemma StoresStep(c: seq<Instr>, i: nat, v: Var)
    requires i < |c|
    ensures Stores(c[..i + 1], v) <==> Stores(c[..i], v) || (c[i].Store? && c[i].v == v)
  {
    if c[i].Store? && c[i].v == v {
      assert c[..i + 1][i] == c[i];
    }
    if Stores(c[..i + 1], v) {
      var j :| 0 <= j < i + 1 && c[..i + 1][j].Store? && c[..i + 1][j].v == v;
      assert j < i ==> c[..i][j] == c[j];
    }
    if Stores(c[..i], v) {
      var j :| 0 <= j < i && c[..i][j].Store? && c[..i][j].v == v;
      assert c[..i + 1][j] == c[j];
    }
  }

  lemma DeclaresStep(c: seq<Instr>, i: nat, v: Var)
    requires i < |c|
    ensures Declares(c, i + 1, v) <==> Declares(c, i, v) || (c[i].Alloca? && c[i].v == v)
  {
  }

  /** The scan passes one instruction. */
  lemma ScanStep(code: Code, blocks: seq<Block>, k: nat, n: nat, i: nat, defBlocks: map<Var, seq<Block>>,
      after: map<Var, seq<Block>>)
    requires Prologue(code, blocks, k) && n < |blocks| && i < |code[blocks[n]]|
    requires Scanned(code, blocks, k, n, i, defBlocks)
    requires var x, bb := code[blocks[n]][i], blocks[n];
             after == if x.Alloca? && x.v !in defBlocks then defBlocks[x.v := []]
                      else if x.Store? && x.v in defBlocks then defBlocks[x.v := defBlocks[x.v] + [bb]]
                      else defBlocks
    ensures Scanned(code, blocks, k, n, i + 1, after)
  {
    hide Stores, Declares;
    var bb := blocks[n];
    var c := code[bb];
    var x := c[i];
    forall v
      ensures v in after <==> Declares(code[blocks[0]], if n == 0 && i + 1 < k then i + 1 else k, v)
    {
      if n == 0 && i < k {
        assert bb == blocks[0] && c[i].Alloca?;
        DeclaresStep(c, i, v);
      }
      if !x.Compute? {
        assert bb in blocks && Declares(code[blocks[0]], k, c[i].v);
      }
    }
    if n == 0 && i < k {
      assert x.Alloca?;
    } else if x.Store? {
      assert bb in blocks && Declares(code[blocks[0]], k, c[i].v);
      assert x.v in defBlocks;
    }
    forall v, b | v in after
      ensures b in after[v] <==>
                (b in blocks[..n] && Stores(code[b], v)) || (b == bb && Stores(c[..i + 1], v))
    {
      StoresStep(c, i, v);
      if n == 0 && i < k {
        PrologueStoresNothing(code, blocks, k, i + 1, v);
      }
    }
  }

  lemma PrologueStoresNothing(code: Code, blocks: seq<Block>, k: nat, i: nat, v: Var)
    requires Prologue(code, blocks, k) && i <= k
    ensures !Stores(code[blocks[0]][..i], v)
  {
  }

  lemma ScanBegins(code: Code, blocks: seq<Block>, k: nat)
    requires Prologue(code, blocks, k)
    ensures blocks != [] && (forall b :: b in blocks ==> b in code)
    ensures Scanned(code, blocks, k, 0, 0, map[])
  {
  }

  lemma ScanNext(code: Code, blocks: seq<Block>, k: nat, n: nat, defBlocks: map<Var, seq<Block>>)
    requires Prologue(code, blocks, k) && n < |blocks| && Scanned(code, blocks, k, n, |code[blocks[n]]|, defBlocks)
    ensures n + 1 < |blocks| ==> Scanned(code, blocks, k, n + 1, 0, defBlocks)
  {
    hide Declares;
    assert blocks[..n + 1] == blocks[..n] + [blocks[n]];
    assert code[blocks[n]][..|code[blocks[n]]|] == code[blocks[n]];
  }

  lemma ScanDone(code: Code, blocks: seq<Block>, k: nat, defBlocks: map<Var, seq<Block>>)
    requires Prologue(code, blocks, k)
    requires var n := |blocks| - 1; Scanned(code, blocks, k, n, |code[blocks[n]]|, defBlocks)
    ensures forall v :: v in defBlocks <==> Accesses(code, blocks, v)
    ensures forall v, b :: v in defBlocks ==> (b in defBlocks[v] <==> b in blocks && Stores(code[b], v))
  {
    var n := |blocks| - 1;
    assert blocks == blocks[..n] + [blocks[n]];
    assert code[blocks[n]][..|code[blocks[n]]|] == code[blocks[n]];
    forall v
      ensures Declares(code[blocks[0]], k, v) <==> Accesses(code, blocks, v)
    {
      if Declares(code[blocks[0]], k, v) {
        var j :| 0 <= j < k && code[blocks[0]][j].Alloca? && code[blocks[0]][j].v == v;
        assert blocks[0] in blocks;
      }
    }
  }

  /** The phis placed for every slot, none of which has received an entry. */
  ghost predicate EmptyPhis(phis: Phis, phiAt: map<Var, set<Block>>) {
    && (forall b, v :: b in phis && v in phis[b] ==> v in phiAt && b in phiAt[v] && phis[b][v] == [])
    && (forall b, v :: v in phiAt && b in phiAt[v] ==> b in phis && v in phis[b])
    && (forall b :: b in phis ==> exists v :: v in phis[b])
  }

  function AddPhi(phis: Phis, placed: set<Block>, v: Var): Phis {
    map b | b in phis.Keys + placed ::
      (if b in phis then phis[b] else map[]) + (if b in placed then map[v := []] else map[])
  }

  lemma AddPhiKeepsEmpty(phis: Phis, phiAt: map<Var, set<Block>>, placed: set<Block>, v: Var)
    requires EmptyPhis(phis, phiAt) && v !in phiAt
    ensures EmptyPhis(AddPhi(phis, placed, v), phiAt[v := placed])
  {
    var phis' := AddPhi(phis, placed, v);
    forall b | b in phis'
      ensures exists u :: u in phis'[b]
    {
      if b in placed {
        assert v in phis'[b];
      } else {
        var u :| u in phis[b];
        assert u in phis'[b];
      }
    }
  }

  lemma NoPhiIsEmpty()
    ensures EmptyPhis(map[], map[])
  {
  }

  /** One visit for every successor, each carrying the operands at the end of b. */
  method PushSuccs(stack: seq<RenameData>, b: Block, values: map<Var, Operand>,
      succs: seq<Block>) returns (pushed: seq<RenameData>)
    ensures pushed == stack + Pushed(b, values, succs)
  {
    pushed := stack;
    for j := 0 to |succs|
      invariant pushed == stack + Pushed(b, values, succs[..j])
    {
      PushedStep(b, values, succs, j);
      pushed := pushed + [RenameData(succs[j], Some(b), values)];
    }
    assert succs[..|succs|] == succs;
  }

  /** In every world the two functions execute the same events, block by block, and halt together. */
  ghost predicate SameRuns(g: Graph, code: Code, code': Code, phis: Phis) {
    forall w, n: nat :: SameRun(w, Run(Program(g, code, map[]), w, n), Run(Program(g, code', phis), w, n))
  }

  ghost predicate SameRun(w: World, c: Config, c': Config) {
    Events(c) == Events(c') && (c.Running? <==> c'.Running?) && (c.Running? ==> c.block == c'.block)
  }

  ghost predicate NoAccessLeft(code: Code) {
    forall b, i :: b in code && 0 <= i < |code[b]| ==> code[b][i].Compute?
  }

  ghost function StoringBlocks(code: Code, v: Var): set<Block> {
    set b | b in code && Stores(code[b], v)
  }

  ghost function PhiBlocks(phis: Phis, v: Var): set<Block> {
    set b | b in phis && v in phis[b]
  }

  /** Frontiers only lead to blocks of the function other than its entry. */
  lemma PlacedInFunction(g: Graph, id: Numbers, t: Parents, frontier: Frontiers, defs: set<Block>, placed: set<Block>)
    requires Tree(t, id, g.entry) && g.preds.Keys == t.Keys && g.entry in g.preds && g.preds[g.entry] == []
    requires forall x, y :: Marked(frontier, x, y) <==> OnRunner(g, id, t, x, y)
    requires IsIteratedFrontier(frontier, defs, placed)
    ensures placed <= t.Keys - {g.entry}
  {
    assert FrontierClosed(frontier, defs, t.Keys - {g.entry});
  }

  /** After phi placement the function meets everything the renaming walk relies on. */
  lemma PlacedIsReady(f: Func, blocks: seq<Block>, frontier: Frontiers, defBlocks: map<Var, seq<Block>>, phis: Phis)
    requires Stopped(f.g, f.id, f.post, f.t) && AllReachable(f.g, f.t) && f.g.preds[f.g.entry] == []
    requires f.code.Keys == f.g.succs.Keys && (forall b :: b in blocks <==> b in f.code)
    requires SingleAssignment(f.g, f.code) && f.vars == defBlocks.Keys && f.phiAt.Keys == defBlocks.Keys
    requires forall x, y :: Marked(frontier, x, y) <==> OnRunner(f.g, f.id, f.t, x, y)
    requires forall v :: v in defBlocks <==> Accesses(f.code, blocks, v)
    requires forall v, b :: v in defBlocks ==> (b in defBlocks[v] <==> b in blocks && Stores(f.code[b], v))
    requires forall v :: v in defBlocks ==> IsIteratedFrontier(frontier, Elements(defBlocks[v]), f.phiAt[v])
    requires EmptyPhis(phis, f.phiAt)
    ensures Ready(f) && SsaForm(f) && Shape(f) && PhiKeys(f, phis)
    ensures forall b, v :: b in phis && v in phis[b] ==> phis[b][v] == []
    ensures forall v :: v in f.vars ==> f.phiAt[v] <= f.t.Keys
  {
    hide Stopped, AllReachable, Tree, Marked, OnRunner, IsIteratedFrontier, SsaForm, SingleAssignment, Ready, Shape,
         EmptyPhis, PhiKeys, Accesses, Stores, PhisClosed;
    StoppedTree(f);
    SlotsAreVars(f, blocks, defBlocks);
    PlacedIsClosed(f, blocks, frontier, defBlocks);
    forall v | v in f.vars
      ensures f.phiAt[v] <= f.t.Keys - {f.g.entry}
    {
      PlacedInFunction(f.g, f.id, f.t, frontier, Elements(defBlocks[v]), f.phiAt[v]);
    }
    EmptyPhisKeys(f, phis);
    ReadyFromParts(f);
  }

  lemma StoppedTree(f: Func)
    requires Stopped(f.g, f.id, f.post, f.t) && AllReachable(f.g, f.t)
    ensures Tree(f.t, f.id, f.g.entry) && f.g.preds.Keys == f.t.Keys && f.g.succs.Keys == f.t.Keys
    ensures f.g.entry in f.g.preds
  {
  }

  lemma SlotsAreVars(f: Func, blocks: seq<Block>, defBlocks: map<Var, seq<Block>>)
    requires (forall b :: b in blocks <==> b in f.code) && f.vars == defBlocks.Keys && SingleAssignment(f.g, f.code)
    requires forall v :: v in defBlocks <==> Accesses(f.code, blocks, v)
    ensures SsaForm(f)
  {
    hide SingleAssignment;
    forall b, i | b in f.code && 0 <= i < |f.code[b]| && !f.code[b][i].Compute?
      ensures f.code[b][i].v in f.vars
    {
      assert b in blocks && Accesses(f.code, blocks, f.code[b][i].v);
    }
  }

  lemma PlacedIsClosed(f: Func, blocks: seq<Block>, frontier: Frontiers, defBlocks: map<Var, seq<Block>>)
    requires (forall b :: b in blocks <==> b in f.code) && f.vars == defBlocks.Keys && f.phiAt.Keys == defBlocks.Keys
    requires forall x, y :: Marked(frontier, x, y) <==> OnRunner(f.g, f.id, f.t, x, y)
    requires forall v, b :: v in defBlocks ==> (b in defBlocks[v] <==> b in blocks && Stores(f.code[b], v))
    requires forall v :: v in defBlocks ==> IsIteratedFrontier(frontier, Elements(defBlocks[v]), f.phiAt[v])
    ensures PhisClosed(f)
  {
    hide OnRunner, Stores, Marked;
    forall v, x, y | v in f.vars && x in f.code && (Stores(f.code[x], v) || HasPhi(f.phiAt, x, v)) &&
        OnRunner(f.g, f.id, f.t, x, y)
      ensures HasPhi(f.phiAt, y, v)
    {
      assert FrontierClosed(frontier, Elements(defBlocks[v]), f.phiAt[v]);
      assert Marked(frontier, x, y);
      assert x in Elements(defBlocks[v]) || x in f.phiAt[v];
    }
  }

  lemma EmptyPhisKeys(f: Func, phis: Phis)
    requires EmptyPhis(phis, f.phiAt) && f.phiAt.Keys == f.vars
    requires forall v :: v in f.vars ==> f.phiAt[v] <= f.t.Keys - {f.g.entry}
    ensures PhiKeys(f, phis)
    ensures forall b, v :: b in phis && v in phis[b] ==> phis[b][v] == []
  {
    forall b | b in phis
      ensures b in f.t && b != f.g.entry
    {
      var v :| v in phis[b];
      assert b in f.phiAt[v];
    }
  }

  lemma ReadyFromParts(f: Func)
    requires Stopped(f.g, f.id, f.post, f.t) && AllReachable(f.g, f.t) && f.g.preds[f.g.entry] == []
    requires f.code.Keys == f.g.succs.Keys && PhisClosed(f) && SsaForm(f) && f.phiAt.Keys == f.vars
    requires forall v :: v in f.vars ==> f.phiAt[v] <= f.t.Keys - {f.g.entry}
    ensures Ready(f) && Shape(f)
  {
    hide PhisClosed, SsaForm;
  }

  lemma RunsSame(f: Func, w: World, code: Code, phis: Phis, sub: map<Reg, Operand>, n: nat)
    requires Ready(f) && Shape(f) && Promoted(f, code, phis, sub)
    ensures SameRun(w, Run(Program(f.g, f.code, map[]), w, n), Run(Program(f.g, code, phis), w, n))
  {
    hide Ready, Shape, Promoted, Run;
    MeaningPreserved(f, w, code, phis, sub, n);
  }

  lemma {:induction false} PromoteKeepsComputes(c: seq<Instr>, sub: map<Reg, Operand>, i: nat)
    requires i < |Promote(c, sub)|
    ensures Promote(c, sub)[i].Compute?
  {
    if c != [] && i < |Promote(c[..|c| - 1], sub)| {
      PromoteKeepsComputes(c[..|c| - 1], sub, i);
    }
  }

  /** The phis of the promoted function stand exactly on the iterated frontier of the storing blocks. */
  lemma PhiBlocksPlaced(f: Func, blocks: seq<Block>, frontier: Frontiers, defBlocks: map<Var, seq<Block>>, phis: Phis)
    requires (forall b :: b in blocks <==> b in f.code) && f.vars == defBlocks.Keys && f.phiAt.Keys == defBlocks.Keys
    requires PhiKeys(f, phis) && forall v :: v in f.vars ==> f.phiAt[v] <= f.t.Keys
    requires forall v :: v in defBlocks <==> Accesses(f.code, blocks, v)
    requires forall v, b :: v in defBlocks ==> (b in defBlocks[v] <==> b in blocks && Stores(f.code[b], v))
    requires forall v :: v in defBlocks ==> IsIteratedFrontier(frontier, Elements(defBlocks[v]), f.phiAt[v])
    ensures forall v :: Accesses(f.code, blocks, v) ==>
              IsIteratedFrontier(frontier, StoringBlocks(f.code, v), PhiBlocks(phis, v))
  {
    hide IsIteratedFrontier, Stores, Accesses;
    forall v | Accesses(f.code, blocks, v)
      ensures IsIteratedFrontier(frontier, StoringBlocks(f.code, v), PhiBlocks(phis, v))
    {
      assert StoringBlocks(f.code, v) == Elements(defBlocks[v]);
      forall b ensures b in PhiBlocks(phis, v) <==> b in f.phiAt[v] {
        assert b in f.phiAt[v] ==> HasPhi(f.phiAt, b, v);
      }
      assert PhiBlocks(phis, v) == f.phiAt[v];
    }
  }

  lemma PromotedRuns(f: Func, code: Code, phis: Phis, sub: map<Reg, Operand>)
    requires Ready(f) && Shape(f) && Promoted(f, code, phis, sub)
    ensures SameRuns(f.g, f.code, code, phis) && NoAccessLeft(code)
  {
    hide Ready, PhisFilled, Run, IsLoad, Extends;
    forall w, n: nat
      ensures SameRun(w, Run(Program(f.g, f.code, map[]), w, n), Run(Program(f.g, code, phis), w, n))
    {
      RunsSame(f, w, code, phis, sub, n);
    }
    forall b, i | b in code && 0 <= i < |code[b]|
      ensures code[b][i].Compute?
    {
      PromoteKeepsComputes(f.code[b], sub, i);
    }
  }

  class Mem2Reg {
    /** `_instructions` of every block. */
    var code: Code
    /** The phis at the start of every block, with the (value, block) pairs they have received. */
    var phis: Phis

    constructor (code: Code)
      ensures this.code == code && phis == map[]
    {
      this.code, phis := code, map[];
    }

    /** Finds the slots and, for each of them, the blocks that store to it. A store seen before the alloca of
        its slot is not recorded. */
    method CollectDefs(blocks: seq<Block>) returns (defBlocks: map<Var, seq<Block>>)
      requires AllocasFirst(code, blocks)
      ensures forall v :: v in defBlocks <==> Accesses(code, blocks, v)
      ensures forall v, b :: v in defBlocks ==> (b in defBlocks[v] <==> b in blocks && Stores(code[b], v))
    {
      hide Scanned, Prologue, Declares, Accesses, Stores;
      defBlocks := map[];
      ghost var k: nat :| Prologue(code, blocks, k);
      ScanBegins(code, blocks, k);
      for n := 0 to |blocks|
        invariant forall b :: b in blocks ==> b in code
        invariant blocks != []
        invariant n < |blocks| ==> Scanned(code, blocks, k, n, 0, defBlocks)
        invariant n == |blocks| ==> Scanned(code, blocks, k, n - 1, |code[blocks[n - 1]]|, defBlocks)
      {
        var bb := blocks[n];
        for i := 0 to |code[bb]|
          invariant Scanned(code, blocks, k, n, i, defBlocks)
        {
          var x := code[bb][i];
          ghost var before := defBlocks;
          if x.Alloca? {
            if x.v !in defBlocks {
              defBlocks := defBlocks[x.v := []];
            }
          } else if x.Store? {
            if x.v in defBlocks {
              defBlocks := defBlocks[x.v := defBlocks[x.v] + [bb]];
            }
          }
          ScanStep(code, blocks, k, n, i, before, defBlocks);
        }
        ScanNext(code, blocks, k, n, defBlocks);
      }
      ScanDone(code, blocks, k, defBlocks);
    }

    /** Creates the empty phis of every slot. */
    method InsertPhis(frontier: Frontiers, defBlocks: map<Var, seq<Block>>) returns (phiAt: map<Var, set<Block>>)
      modifies this`phis
      ensures phiAt.Keys == defBlocks.Keys
      ensures forall v :: v in defBlocks ==> IsIteratedFrontier(frontier, Elements(defBlocks[v]), phiAt[v])
      ensures EmptyPhis(phis, phiAt)
    {
      hide IsIteratedFrontier, EmptyPhis, AddPhi;
      NoPhiIsEmpty();
      phis, phiAt := map[], map[];
      var todo := defBlocks.Keys;
      while todo != {}
        invariant todo <= defBlocks.Keys && phiAt.Keys == defBlocks.Keys - todo
        invariant forall v :: v in phiAt ==> IsIteratedFrontier(frontier, Elements(defBlocks[v]), phiAt[v])
        invariant EmptyPhis(phis, phiAt)
        decreases todo
      {
        var v :| v in todo;
        todo := todo - {v};
        var placed := PlacePhis(frontier, defBlocks[v]);
        AddPhiKeepsEmpty(phis, phiAt, placed, v);
        phis := AddPhi(phis, placed, v);
        phiAt := phiAt[v := placed];
      }
    }

    /** Renames one block: loads are replaced by the current operand of their slot everywhere in the function,
        stores change the current operand, and both are deleted with the allocas when the block is done. */
    method RenameBlock(ghost f: Func, ghost sub: map<Reg, Operand>, ghost done: set<Block>, bb: Block,
        values: map<Var, Operand>)
      returns (currValues: map<Var, Operand>, ghost sub': map<Reg, Operand>)
      requires Ready(f) && SsaForm(f) && Shape(f) && bb in f.t && InBlock(f, code, sub, done, bb, 0)
      requires values == At(f, bb, 0).vals
      modifies this`code
      ensures currValues == Out(f, bb).vals
      ensures CodeOk(f, code, sub', done + {bb})
    {
      hide Ready, SsaForm, At, Tree, InBlock, CodeOk, ReplaceAllUse;
      currValues, sub' := values, sub;
      BlockInCode(f, code, sub', done, bb, 0);
      var n := |code[bb]|;
      for i := 0 to n
        invariant bb in code && |code[bb]| == n == |f.code[bb]|
        invariant InBlock(f, code, sub', done, bb, i)
        invariant currValues == At(f, bb, i).vals
      {
        SeenInstr(f, code, sub', done, bb, i);
        AtStep(f, bb, i + 1);
        var x := code[bb][i];
        if x.Load? {
          PassLoad(f, code, sub', done, bb, i);
          var operand := currValues[x.v];
          code := ReplaceAllUse(code, x.dst, operand);
          sub' := sub'[x.dst := operand];
        } else {
          PassOther(f, code, sub', done, bb, i);
          if x.Store? {
            currValues := currValues[x.v := x.src];
          }
        }
        BlockInCode(f, code, sub', done, bb, i + 1);
      }
      EndBlock(f, code, sub', done, bb);
      code := code[bb := WithoutAccesses(code[bb])];
    }

    /** The renaming walk. */
    method Rename(g: Graph, vars: set<Var>, ghost f: Func)
      requires f.g == g && f.vars == vars
      requires Ready(f) && SsaForm(f) && Shape(f)
      requires code == f.code && PhiKeys(f, phis) && forall b, v :: b in phis && v in phis[b] ==> phis[b][v] == []
      modifies this`code, this`phis
      ensures exists sub :: Promoted(f, code, phis, sub)
      ensures forall b, v, p :: b in phis && v in phis[b] ==>
                CountEntries(phis[b][v], p) == if p in g.succs then CountIn(g.succs[p], b) else 0
      ensures PhiKeys(f, phis)
    {
      hide Ready, SsaForm, At, Tree, CodeOk, StackOk, PhisOk, EntryOk, EmptyPhis, PhiKeys, Promoted, AddEntries,
          PutPhis,
           PhisFilled, InBlock, Pushed;
      var visited: set<Block> := {};
      ghost var sub: map<Reg, Operand> := map[];
      var stack := [RenameData(g.entry, None, map v | v in vars :: Uncertain)];
      WalkBegins(f, code, phis, stack);
      while stack != []
        invariant CodeOk(f, code, sub, visited) && StackOk(f, visited, stack) && PhisOk(f, phis, visited, stack)
        invariant g.entry !in visited ==> |stack| == 1
        decreases g.succs.Keys - visited, |stack|
      {
        ghost var before := stack;
        var data := stack[|stack| - 1];
        stack := stack[..|stack| - 1];
        assert before == stack + [data];
        TopOk(f, visited, stack, data);
        if data.pred.Some? {
          PopKeepsPhis(f, phis, visited, stack, data, data.pred.value);
          phis := AddEntries(phis, data.block, data.pred.value, data.values);
        } else {
          PopEntryKeepsPhis(f, phis, visited, stack, data);
        }
        PushReady(f, visited, stack, data);
        if data.block in visited {
          PopKeepsStack(f, visited, stack, data);
        } else {
          BeginBlock(f, code, sub, visited, before, data);
          OwnPhis(f, phis, visited, stack, data);
          var currValues := map v | v in data.values ::
            if data.block in phis && v in phis[data.block] then PhiOf(data.block, v) else data.values[v];
          currValues, sub := RenameBlock(f, sub, visited, data.block, currValues);
          PushKeepsStack(f, visited, stack, data);
          PushKeepsPhis(f, phis, visited, stack, data.block, currValues);
          visited := visited + {data.block};
          stack := PushSuccs(stack, data.block, currValues, g.succs[data.block]);
        }
      }
      CodeOkDone(f, code, sub, visited);
      WalkEnds(f, phis, visited);
      PhisOkKeys(f, phis, visited, stack);
      WalkPromotes(f, code, phis, sub, visited);
    }

    /** The pass on one function whose dominator tree and frontiers are known. */
    method GenPhi(g: Graph, blocks: seq<Block>, frontier: Frontiers, ghost id: Numbers, ghost post: seq<Block>,
        ghost t: Parents)
      requires Stopped(g, id, post, t) && AllReachable(g, t) && g.preds[g.entry] == []
      requires code.Keys == g.succs.Keys && (forall b :: b in blocks <==> b in code)
      requires AllocasFirst(code, blocks) && SingleAssignment(g, code)
      requires forall x, y :: Marked(frontier, x, y) <==> OnRunner(g, id, t, x, y)
      modifies this`code, this`phis
      ensures SameRuns(g, old(code), code, phis)
      ensures NoAccessLeft(code)
      ensures forall b, v, p :: b in phis && v in phis[b] ==>
                CountEntries(phis[b][v], p) == if p in g.succs then CountIn(g.succs[p], b) else 0
      ensures forall v :: Accesses(old(code), blocks, v) ==>
                IsIteratedFrontier(frontier, StoringBlocks(old(code), v), PhiBlocks(phis, v))
    {
      hide Stopped, AllReachable, SingleAssignment, Marked, OnRunner, IsIteratedFrontier, SsaForm, Ready, Promoted,
          Shape,
           EmptyPhis, PhiKeys, SameRuns, NoAccessLeft, AllocasFirst, Accesses, Stores, StoringBlocks, PhiBlocks;
      var defBlocks := CollectDefs(blocks);
      ghost var code0 := code;
      var phiAt := InsertPhis(frontier, defBlocks);
      ghost var f := Func(g, id, post, t, code, defBlocks.Keys, phiAt);
      PlacedIsReady(f, blocks, frontier, defBlocks, phis);
      ghost var phis0 := phis;
      Rename(g, defBlocks.Keys, f);
      ghost var sub :| Promoted(f, code, phis, sub);
      PromotedRuns(f, code, phis, sub);
      PhiBlocksPlaced(f, blocks, frontier, defBlocks, phis);
    }

    /** The whole pass: dominators first, then promotion. */
    method Run(g: Graph, blocks: seq<Block>)
      requires g.Valid() && (forall b :: b in g.succs ==> Reachable(g, b)) && g.preds[g.entry] == []
      requires code.Keys == g.succs.Keys && (forall b :: b in blocks <==> b in code)
      requires AllocasFirst(code, blocks) && SingleAssignment(g, code)
      modifies this`code, this`phis
      ensures SameRuns(g, old(code), code, phis)
      ensures NoAccessLeft(code)
      ensures forall b, v, p :: b in phis && v in phis[b] ==>
                CountEntries(phis[b][v], p) == if p in g.succs then CountIn(g.succs[p], b) else 0
    {
      hide SameRuns, NoAccessLeft, SingleAssignment, AllocasFirst, Reachable, Stopped, Numbered, OnRunner, InFrontier,
          IsIDom;
      var dom := new D.Dominators();
      dom.CreateReversePostOrder(g);
      dom.CreateIDoms(g);
      ghost var post := Reversed(dom.reversePostOrder);
      assert AllReachable(g, dom.idom) by { StoppedInGraph(g, dom.postOrderId, post, dom.idom); }
      dom.CreateDominanceFrontier(g, blocks);
      GenPhi(g, blocks, dom.frontier, dom.postOrderId, post, dom.idom);
    }
  }
}
