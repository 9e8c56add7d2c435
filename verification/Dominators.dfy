/** Post-order numbering, the iterative immediate-dominator solver and dominance frontiers. */
module Dominators {
  import opened Cfg
  import opened IdomTree
  import opened PostOrder
  import opened IDomSolver
  import opened Frontier

  class Dominators {
    var reversePostOrder: seq<Block>
    var postOrderId: map<Block, nat>
    /** `_idom` of every block; a block without an entry holds the null pointer. */
    var idom: map<Block, Block>
    var frontier: map<Block, set<Block>>

    constructor ()
    {
      reversePostOrder, postOrderId, idom, frontier := [], map[], map[], map[];
    }

    method PostOrderVisit(g: Graph, bb: Block, visited0: set<Block>) returns (visited: set<Block>)
      requires g.Valid() && bb in g.succs && bb !in visited0
      modifies this`reversePostOrder, this`postOrderId
      ensures Grown(g, old(Walk(visited0, reversePostOrder, postOrderId)), Walk(visited, reversePostOrder, postOrderId))
      ensures VisitDone(g, bb, reversePostOrder[|old(reversePostOrder)|..])
      decreases g.succs.Keys - visited0
    {
      hide Waiting, Grown, VisitDone;
      visited := visited0 + {bb};
      ghost var w0 := Walk(visited, reversePostOrder, postOrderId);
      var succs := g.succs[bb];
      WaitingBegins(g, bb, w0);
      for i := 0 to |succs|
        invariant Waiting(g, bb, w0, Walk(visited, reversePostOrder, postOrderId))
        invariant forall k :: 0 <= k < i ==> succs[k] in visited
      {
        var b := succs[i];
        ghost var w1 := Walk(visited, reversePostOrder, postOrderId);
        WaitingSeen(g, bb, w0, w1);
        EdgeInGraph(g, bb, b);
        if b !in visited {
          visited := PostOrderVisit(g, b, visited);
          ghost var w2 := Walk(visited, reversePostOrder, postOrderId);
          VisitJoin(g, bb, b, w0, w1, w2);
          VisitSees(g, b, w1, w2);
        }
      }
      VisitEnds(g, bb, visited0, w0, Walk(visited, reversePostOrder, postOrderId));
      postOrderId := postOrderId[bb := |reversePostOrder|];
      reversePostOrder := reversePostOrder + [bb];
    }

    method CreateReversePostOrder(g: Graph)
      requires g.Valid()
      modifies this`reversePostOrder, this`postOrderId
      ensures Numbered(g, postOrderId, Reversed(reversePostOrder))
    {
      reversePostOrder, postOrderId := [], map[];
      var visited := PostOrderVisit(g, g.entry, {});
      ghost var post := reversePostOrder;
      assert post[0..] == post;
      VisitedIsNumbered(g, visited, post, postOrderId);
      reversePostOrder := Reversed(reversePostOrder);
      ReversedTwice(post);
    }

    /** Climbs from both blocks, always on the side with the smaller number, until they meet. */
    method Intersect(g: Graph, ghost post: seq<Block>, ghost lim: nat, b1: Block, b2: Block) returns (r: Block)
      requires Solving(g, postOrderId, post, idom, lim)
      requires b1 in idom && b2 in idom
      ensures r in idom && Above(idom, postOrderId, g.entry, r, b1) && Above(idom, postOrderId, g.entry, r, b2)
      ensures forall x :: Above(idom, postOrderId, g.entry, x, b1) && Above(idom, postOrderId, g.entry, x, b2) ==>
                            Above(idom, postOrderId, g.entry, x, r)
      ensures forall d :: Dom(g, d, b1) && Dom(g, d, b2) ==> Dom(g, d, r)
    {
      var c1, c2 := b1, b2;
      while c1 != c2
        invariant c1 in idom && c2 in idom
        invariant Meeting(g, postOrderId, idom, b1, b2, c1, c2)
        decreases 2 * postOrderId[g.entry] - postOrderId[c1] - postOrderId[c2]
      {
        ghost var s1, s2 := c1, c2;
        IdInjective(g, postOrderId, post);
        while postOrderId[c1] < postOrderId[c2]
          invariant c1 in idom && c2 == s2
          invariant Meeting(g, postOrderId, idom, b1, b2, c1, c2)
          invariant postOrderId[s1] <= postOrderId[c1] && (c1 != s1 ==> postOrderId[s1] < postOrderId[c1])
          decreases postOrderId[g.entry] - postOrderId[c1]
        {
          ClimbKeepsMeeting(g, postOrderId, post, idom, lim, b1, b2, c1, c2);
          c1 := idom[c1];
        }
        ghost var m1 := c1;
        while postOrderId[c2] < postOrderId[c1]
          invariant c2 in idom && c1 == m1
          invariant Meeting(g, postOrderId, idom, b1, b2, c1, c2)
          invariant postOrderId[s2] <= postOrderId[c2] && (c2 != s2 ==> postOrderId[s2] < postOrderId[c2])
          decreases postOrderId[g.entry] - postOrderId[c2]
        {
          ClimbKeepsMeeting(g, postOrderId, post, idom, lim, b2, b1, c2, c1);
          c2 := idom[c2];
        }
      }
      r := c1;
    }

    /** The meeting point of the predecessors of bb that already have a parent. */
    method MeetPreds(g: Graph, ghost post: seq<Block>, ghost lim: nat, bb: Block) returns (newIdom: Block)
      requires Solving(g, postOrderId, post, idom, lim)
      requires bb in g.preds && bb in postOrderId && bb != g.entry
      requires exists p :: p in g.preds[bb] && p in idom && postOrderId[p] > postOrderId[bb]
      ensures NewParent(g, postOrderId, idom, bb, newIdom)
    {
      hide Solving, NewParent, AboveAll, Dom, Above, Tree;
      ghost var root := g.entry;
      var preds := g.preds[bb];
      var first := 0;
      while preds[first] !in idom
        invariant first < |preds|
        invariant forall k :: 0 <= k < first ==> preds[k] !in idom
        decreases |preds| - first
      {
        first := first + 1;
      }
      var pred := preds[first];
      MeetBegins(g, postOrderId, post, idom, lim, bb, pred);
      newIdom := pred;
      for i := 0 to |preds|
        invariant newIdom in idom
        invariant MeetSoFar(g, postOrderId, post, idom, lim, bb, pred, preds[..i], newIdom)
      {
        var p := preds[i];
        assert preds[..i + 1] == preds[..i] + [p];
        if p != pred && p in idom {
          var meet := Intersect(g, post, lim, p, newIdom);
          MeetStep(g, postOrderId, post, idom, lim, bb, pred, preds[..i], newIdom, p, meet);
          newIdom := meet;
        } else {
          MeetSkip(g, postOrderId, post, idom, lim, bb, pred, preds[..i], newIdom, p);
        }
      }
      assert preds[..|preds|] == preds;
      MeetIsNewParent(g, postOrderId, post, idom, lim, bb, pred, newIdom);
    }

    /** The solver: repeats passes over the reverse post-order until nothing changes. */
    method CreateIDoms(g: Graph)
      requires g.Valid() && Numbered(g, postOrderId, Reversed(reversePostOrder))
      modifies this`idom
      ensures Stopped(g, postOrderId, Reversed(reversePostOrder), idom)
      ensures forall v :: v in idom <==> Reachable(g, v)
      ensures forall v :: v in idom && v != g.entry ==> IsIDom(g, idom[v], v)
    {
      hide Numbered, Solving, InPass, NewParent, Slack, Stopped, IsIDom, Reachable;
      ghost var post := Reversed(reversePostOrder);
      var n := |reversePostOrder|;
      var root := g.entry;
      SolvingBegins(g, postOrderId, post);
      idom := map[root := root];
      var changed := true;
      while changed
        invariant Solving(g, postOrderId, post, idom, n)
        invariant !changed ==> Stopped(g, postOrderId, post, idom)
        decreases Slack(idom, postOrderId, n, post), changed
      {
        changed := false;
        ghost var before, lim := idom, n;
        PassBegins(g, postOrderId, post, idom);
        for i := 0 to n
          invariant lim == n - i
          invariant Solving(g, postOrderId, post, idom, lim)
          invariant InPass(g, postOrderId, post, before, idom, lim, changed)
        {
          var bb := reversePostOrder[i];
          assert bb == post[lim - 1];
          PassBlock(g, postOrderId, post, idom, lim);
          if bb == root {
            PassRoot(g, postOrderId, post, before, idom, lim, changed);
          } else {
            ParentHandled(g, postOrderId, post, before, idom, lim, changed, bb);
            var newIdom := MeetPreds(g, post, lim, bb);
            PassStep(g, postOrderId, post, before, idom, lim, changed, bb, newIdom);
            if bb !in idom || idom[bb] != newIdom {
              idom := idom[bb := newIdom];
              changed := true;
            } else {
              assert idom[bb := newIdom] == idom;
            }
          }
          lim := lim - 1;
        }
        PassIsOver(g, postOrderId, post, before, idom, changed);
      }
      StoppedMeaning(g, postOrderId, post, idom);
    }

    /** For every join block climbs from each predecessor to the immediate dominator of the join. */
    method CreateDominanceFrontier(g: Graph, blocks: seq<Block>)
      requires Stopped(g, postOrderId, Reversed(reversePostOrder), idom) && AllReachable(g, idom)
      requires forall b :: b in blocks <==> b in g.succs
      modifies this`frontier
      ensures forall x, y :: Marked(frontier, x, y) <==> OnRunner(g, postOrderId, idom, x, y)
      ensures (forall x, y :: Marked(frontier, x, y) <==> InFrontier(g, x, y)) <==> g.preds[g.entry] == []
    {
      hide Stopped, OnRunner, InFrontier, Numbered;
      ghost var post := Reversed(reversePostOrder);
      frontier := map[];
      for i := 0 to |blocks|
        invariant forall x, y :: Marked(frontier, x, y) <==> y in blocks[..i] && OnRunner(g, postOrderId, idom, x, y)
        invariant Stopped(g, postOrderId, post, idom)
      {
        var bb := blocks[i];
        assert bb in blocks;
        assert blocks[..i + 1] == blocks[..i] + [bb];
        OnRunnerMeaning(g, postOrderId, post, idom, bb);
        if |g.preds[bb]| >= 2 {
          MarkJoin(g, post, bb);
        }
      }
      assert blocks[..|blocks|] == blocks;
      forall x, y | OnRunner(g, postOrderId, idom, x, y)
        ensures y in blocks
      {
        OnRunnerInGraph(g, postOrderId, idom, x, y);
      }
      FrontierExact(g, postOrderId, post, idom, frontier);
    }

    method MarkJoin(g: Graph, ghost post: seq<Block>, bb: Block)
      requires Stopped(g, postOrderId, post, idom) && AllReachable(g, idom)
      requires bb in idom && bb in g.preds
      modifies this`frontier
      ensures forall x, y :: Marked(frontier, x, y) <==>
                               Marked(old(frontier), x, y) ||
                               (y == bb && exists p :: p in g.preds[bb] && Runs(g, postOrderId, idom, x, p, bb))
    {
      hide Stopped, Runs, Tree, Joined;
      var preds := g.preds[bb];
      JoinedNone(frontier, g, postOrderId, idom, bb);
      for j := 0 to |preds|
        invariant Joined(old(frontier), frontier, g, postOrderId, idom, preds[..j], bb)
      {
        var p := preds[j];
        assert p in g.preds[bb];
        assert preds[..j + 1] == preds[..j] + [p];
        PredHasParent(g, postOrderId, post, idom, bb, p);
        ghost var before := frontier;
        Run(g, post, bb, p);
        JoinedOneMore(old(frontier), before, frontier, g, postOrderId, idom, preds[..j], p, bb);
      }
      assert preds[..|preds|] == preds;
      JoinedAll(old(frontier), frontier, g, postOrderId, idom, bb);
    }

    method Run(g: Graph, ghost post: seq<Block>, bb: Block, p: Block)
      requires Stopped(g, postOrderId, post, idom)
      requires bb in idom && p in idom && bb in g.preds && p in g.preds[bb]
      modifies this`frontier
      ensures forall x, y :: Marked(frontier, x, y) <==>
                               Marked(old(frontier), x, y) || (y == bb && Runs(g, postOrderId, idom, x, p, bb))
    {
      ghost var root := g.entry;
      var runner := p;
      ParentAbovePred(g, postOrderId, post, idom, bb, p);
      while runner != idom[bb]
        invariant runner in idom
        invariant Above(idom, postOrderId, root, idom[bb], runner)
        invariant Running(old(frontier), frontier, idom, postOrderId, root, bb, p, runner)
        decreases postOrderId[root] - postOrderId[runner]
      {
        RunningStep(old(frontier), frontier, idom, postOrderId, root, bb, p, runner, idom[bb]);
        frontier := frontier[runner := (if runner in frontier then frontier[runner] else {}) + {bb}];
        runner := idom[runner];
      }
    }
  }
}
