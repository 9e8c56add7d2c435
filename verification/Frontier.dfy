/** The dominance frontiers that the runner loop collects, compared with their definition on paths. */
module Frontier {
  import opened Cfg
  import opened IdomTree
  import opened PostOrder
  import opened IDomSolver

  type Frontiers = map<Block, set<Block>>

  ghost predicate Marked(f: Frontiers, x: Block, y: Block) {
    x in f && y in f[x]
  }

  /** x is met when climbing from p to the parent of y, the parent itself excluded. */
  ghost predicate Runs(g: Graph, id: Numbers, t: Parents, x: Block, p: Block, y: Block) {
    Tree(t, id, g.entry) && y in t && p in t && t[y] in t && Above(t, id, g.entry, x, p) &&
        !Above(t, id, g.entry, x, t[y])
  }

  /** The runner loop adds y to the frontier of x. */
  ghost predicate OnRunner(g: Graph, id: Numbers, t: Parents, x: Block, y: Block) {
    y in g.preds && |g.preds[y]| >= 2 && exists p :: p in g.preds[y] && Runs(g, id, t, x, p, y)
  }

  lemma OnRunnerMeaning(g: Graph, id: Numbers, post: seq<Block>, t: Parents, y: Block)
    requires Stopped(g, id, post, t) && AllReachable(g, t) && y in g.succs
    ensures y in g.preds && y in t
    ensures forall x :: OnRunner(g, id, t, x, y) <==>
                          |g.preds[y]| >= 2 && exists p :: p in g.preds[y] && Runs(g, id, t, x, p, y)
  {
  }

  lemma OnRunnerInGraph(g: Graph, id: Numbers, t: Parents, x: Block, y: Block)
    requires OnRunner(g, id, t, x, y) && AllReachable(g, t)
    ensures y in g.succs
  {
  }

  lemma PredHasParent(g: Graph, id: Numbers, post: seq<Block>, t: Parents, y: Block, p: Block)
    requires Stopped(g, id, post, t) && AllReachable(g, t) && y in g.preds && p in g.preds[y]
    ensures p in t
  {
  }

  /** One step of the runner adds exactly the block it stands on. */
  lemma RunnerStep(t: Parents, id: Numbers, root: Block, runner: Block, x: Block)
    requires Tree(t, id, root) && runner in t && runner != root
    ensures Above(t, id, root, x, runner) && !Above(t, id, root, x, t[runner]) <==> x == runner
  {
    if Above(t, id, root, runner, t[runner]) {
      AboveNumber(t, id, root, runner, t[runner]);
    }
  }

  lemma RunnerClimbs(t: Parents, id: Numbers, root: Block, runner: Block, p: Block)
    requires Tree(t, id, root) && runner in t && runner != root && p in t
    requires Above(t, id, root, runner, p)
    ensures t[runner] in t && id[runner] < id[t[runner]] <= id[root] && Above(t, id, root, t[runner], p)
    ensures forall x :: Above(t, id, root, x, runner) ==> Above(t, id, root, x, p)
  {
    forall x | Above(t, id, root, x, runner)
      ensures Above(t, id, root, x, p)
    {
      AboveTrans(t, id, root, x, runner, p);
    }
    assert Above(t, id, root, t[runner], t[runner]);
  }

  /** The parent of y lies above every predecessor of y, also for the entry. */
  lemma ParentAbovePred(g: Graph, id: Numbers, post: seq<Block>, t: Parents, y: Block, p: Block)
    requires Stopped(g, id, post, t) && y in t && p in t && y in g.preds && p in g.preds[y]
    ensures Above(t, id, g.entry, t[y], p)
  {
    if y == g.entry {
      RootAbove(t, id, g.entry, p);
    } else {
      assert AboveAll(g, t, id, t[y], y);
    }
  }

  /** Every block of the function is reachable from its entry. */
  ghost predicate AllReachable(g: Graph, t: Parents) {
    g.succs.Keys == t.Keys
  }

  /** On a predecessor p of y the runner meets x exactly when x dominates p but not strictly y. */
  lemma RunsIsDom(g: Graph, id: Numbers, post: seq<Block>, t: Parents, x: Block, p: Block, y: Block)
    requires Stopped(g, id, post, t) && AllReachable(g, t)
    requires y in t && y != g.entry && y in g.preds && p in g.preds[y]
    ensures p in t && (Runs(g, id, t, x, p, y) <==> Dom(g, x, p) && !StrictDom(g, x, y))
  {
    assert g.Valid() && y in g.succs[p];
    AboveIsDom(g, id, post, t, x, p);
    StrictDomIsAboveParent(g, id, post, t, x, y);
  }

  /** For a block y other than the entry, the runner loop decides membership in the frontier exactly. */
  lemma RunnerIsFrontier(g: Graph, id: Numbers, post: seq<Block>, t: Parents, x: Block, y: Block)
    requires Stopped(g, id, post, t) && AllReachable(g, t)
    requires y in g.preds && y in t && y != g.entry
    ensures OnRunner(g, id, t, x, y) <==> InFrontier(g, x, y)
  {
    hide Stopped, Runs, Dom, StrictDom, Above;
    forall p | p in g.preds[y]
      ensures Runs(g, id, t, x, p, y) <==> Dom(g, x, p) && !StrictDom(g, x, y)
    {
      RunsIsDom(g, id, post, t, x, p, y);
    }
    if InFrontier(g, x, y) && |g.preds[y]| < 2 {
      var p :| p in g.preds[y] && Dom(g, x, p);
      assert g.preds[y] == [p];
      NoFrontierThroughOnlyPred(g, id, post, t, x, y, p);
    }
  }

  lemma NoFrontierThroughOnlyPred(g: Graph, id: Numbers, post: seq<Block>, t: Parents, x: Block, y: Block, p: Block)
    requires Stopped(g, id, post, t) && AllReachable(g, t)
    requires y in t && y != g.entry && y in g.preds && g.preds[y] == [p] && Dom(g, x, p)
    ensures StrictDom(g, x, y)
  {
    assert p in g.preds[y];
    RunsIsDom(g, id, post, t, x, p, y);
    OnlyPredIsParent(g, id, post, t, y, p);
    AboveIsDom(g, id, post, t, x, p);
    StrictDomIsAboveParent(g, id, post, t, x, y);
  }

  lemma StrictDomIsAboveParent(g: Graph, id: Numbers, post: seq<Block>, t: Parents, x: Block, y: Block)
    requires Stopped(g, id, post, t) && y in t && y != g.entry
    ensures StrictDom(g, x, y) <==> Above(t, id, g.entry, x, t[y])
  {
    AboveIsDom(g, id, post, t, x, y);
    if Above(t, id, g.entry, x, t[y]) {
      AboveNumber(t, id, g.entry, x, t[y]);
    }
  }

  lemma OnlyPredIsParent(g: Graph, id: Numbers, post: seq<Block>, t: Parents, y: Block, p: Block)
    requires Stopped(g, id, post, t) && y in t && y != g.entry && y in g.preds && p in t && g.preds[y] == [p]
    ensures t[y] == p
  {
    assert AboveAll(g, t, id, p, y);
    assert Settled(g, t, id, y);
    ParentAbovePred(g, id, post, t, y, p);
    AboveNumber(t, id, g.entry, p, t[y]);
    AboveNumber(t, id, g.entry, t[y], p);
  }

  /** An entry with a predecessor is in its own frontier, and the runner loop never adds it there. */
  lemma EntryIsMissed(g: Graph, id: Numbers, post: seq<Block>, t: Parents)
    requires Stopped(g, id, post, t) && AllReachable(g, t)
    requires g.entry in g.preds && g.preds[g.entry] != []
    ensures InFrontier(g, g.entry, g.entry) && !OnRunner(g, id, t, g.entry, g.entry)
  {
    var e, p := g.entry, g.preds[g.entry][0];
    assert p in g.preds[e];
    AboveIsDom(g, id, post, t, e, p);
    RootAbove(t, id, e, p);
  }

  /** While the runner climbs from p: exactly the blocks from p up to, not including, runner have got bb. */
  ghost predicate Running(before: Frontiers, f: Frontiers, t: Parents, id: Numbers, root: Block, bb: Block, p: Block,
      runner: Block)
    requires Tree(t, id, root) && p in t && runner in t
  {
    var holds :=
      && Above(t, id, root, runner, p)
      && forall x, y :: Marked(f, x, y) <==>
                          Marked(before, x, y) || (y == bb && Above(t, id, root, x, p) &&
                              !Above(t, id, root, x, runner));
    holds
  }

  lemma RunningStep(before: Frontiers, f: Frontiers, t: Parents, id: Numbers, root: Block, bb: Block, p: Block,
      runner: Block, stop: Block)
    requires Tree(t, id, root) && p in t && runner in t && Above(t, id, root, stop, runner) && stop != runner
    requires Running(before, f, t, id, root, bb, p, runner)
    ensures runner != root && t[runner] in t && id[runner] < id[t[runner]] <= id[root]
    ensures Above(t, id, root, stop, t[runner])
    ensures Running(before, f[runner := (if runner in f then f[runner] else {}) + {bb}], t, id, root, bb, p, t[runner])
  {
    var f' := f[runner := (if runner in f then f[runner] else {}) + {bb}];
    RunnerClimbs(t, id, root, runner, p);
    forall x, y
      ensures Marked(f', x, y) <==>
                Marked(before, x, y) || (y == bb && Above(t, id, root, x, p) && !Above(t, id, root, x, t[runner]))
    {
      RunnerStep(t, id, root, runner, x);
      assert Marked(f', x, y) <==> Marked(f, x, y) || (x == runner && y == bb);
    }
  }

  /** The runners of the predecessors in seen have marked bb, and nothing else has changed. */
  ghost predicate Joined(before: Frontiers, f: Frontiers, g: Graph, id: Numbers, t: Parents, seen: seq<Block>,
      bb: Block) {
    forall x, y ::
      Marked(f, x, y) <==> Marked(before, x, y) || (y == bb && exists p :: p in seen && Runs(g, id, t, x, p, bb))
  }

  lemma JoinedNone(f: Frontiers, g: Graph, id: Numbers, t: Parents, bb: Block)
    ensures Joined(f, f, g, id, t, [], bb)
  {
  }

  lemma JoinedOneMore(before: Frontiers, f: Frontiers, f': Frontiers, g: Graph, id: Numbers, t: Parents,
      seen: seq<Block>, p: Block, bb: Block)
    requires Joined(before, f, g, id, t, seen, bb)
    requires forall x, y :: Marked(f', x, y) <==> Marked(f, x, y) || (y == bb && Runs(g, id, t, x, p, bb))
    ensures Joined(before, f', g, id, t, seen + [p], bb)
  {
    hide Runs, Marked;
    forall x
      ensures (exists q :: q in seen + [p] && Runs(g, id, t, x, q, bb)) <==>
                (exists q :: q in seen && Runs(g, id, t, x, q, bb)) || Runs(g, id, t, x, p, bb)
    {
      assert p in seen + [p];
      assert forall q :: q in seen + [p] <==> q in seen || q == p;
    }
  }

  lemma JoinedAll(before: Frontiers, f: Frontiers, g: Graph, id: Numbers, t: Parents, bb: Block)
    requires bb in g.preds && Joined(before, f, g, id, t, g.preds[bb], bb)
    ensures forall x, y :: Marked(f, x, y) <==>
              Marked(before, x, y) || (y == bb && exists p :: p in g.preds[bb] && Runs(g, id, t, x, p, bb))
  {
  }

  /** The collected frontiers are exactly the dominance frontiers if and only if the entry has no predecessor. */
  lemma FrontierExact(g: Graph, id: Numbers, post: seq<Block>, t: Parents, f: Frontiers)
    requires Stopped(g, id, post, t) && AllReachable(g, t)
    requires forall x, y :: Marked(f, x, y) <==> OnRunner(g, id, t, x, y)
    ensures (forall x, y :: Marked(f, x, y) <==> InFrontier(g, x, y)) <==> g.preds[g.entry] == []
  {
    if g.preds[g.entry] == [] {
      assert g.Valid();
      forall x, y
        ensures Marked(f, x, y) <==> InFrontier(g, x, y)
      {
        if y in g.preds && y != g.entry {
          RunnerIsFrontier(g, id, post, t, x, y);
        }
      }
    } else {
      EntryIsMissed(g, id, post, t);
    }
  }

  /** A block between a predecessor p of b and the immediate dominator of b has b in its frontier. */
  lemma RunnerIsOnRunner(g: Graph, id: Numbers, post: seq<Block>, t: Parents, p: Block, b: Block, r: Block)
    requires Stopped(g, id, post, t) && Tree(t, id, g.entry)
    requires p in t && b in t && t[b] in t && r in t && r != t[b] && b in g.preds && p in g.preds[b] && b != g.entry
    requires Above(t, id, g.entry, r, p) && Above(t, id, g.entry, t[b], r)
    ensures r != g.entry && OnRunner(g, id, t, r, b)
  {
    hide Stopped;
    AboveNumber(t, id, g.entry, t[b], r);
    if Above(t, id, g.entry, r, t[b]) {
      AboveNumber(t, id, g.entry, r, t[b]);
    }
    assert Runs(g, id, t, r, p, b);
    if |g.preds[b]| < 2 {
      assert g.preds[b] == [p];
      OnlyPredIsParent(g, id, post, t, b, p);
    }
  }

  lemma StoppedInGraph(g: Graph, id: Numbers, post: seq<Block>, t: Parents)
    requires Stopped(g, id, post, t)
    ensures t.Keys <= g.succs.Keys
  {
  }
}
