/** What the passes of the immediate-dominator solver keep, and why its fixpoint is the dominator tree. */
module IDomSolver {
  import opened Cfg
  import opened IdomTree
  import opened PostOrder

  /** x lies above every predecessor of w that already has a parent. */
  ghost predicate AboveAll(g: Graph, t: Parents, id: Numbers, x: Block, w: Block)
    requires Tree(t, id, g.entry) && w in g.preds
  {
    forall p :: p in g.preds[w] && p in t ==> Above(t, id, g.entry, x, p)
  }

  /** Every strict dominator of v dominates its current parent. */
  ghost predicate SoundAt(g: Graph, t: Parents, v: Block)
    requires v in t
  {
    forall d :: StrictDom(g, d, v) ==> Dom(g, d, t[v])
  }

  /** The current parent of w is not above the meeting point of its predecessors. */
  ghost predicate MeetAt(g: Graph, t: Parents, id: Numbers, w: Block)
    requires Tree(t, id, g.entry) && w in t && w in g.preds
  {
    forall x :: AboveAll(g, t, id, x, w) ==> Above(t, id, g.entry, x, t[w])
  }

  /** The current parent of w lies above a predecessor of w that is numbered higher than w. */
  ghost predicate HangsAt(g: Graph, t: Parents, id: Numbers, w: Block)
    requires Tree(t, id, g.entry) && w in t && w in g.preds
  {
    exists p :: p in g.preds[w] && p in t && id[p] > id[w] && Above(t, id, g.entry, t[w], p)
  }

  ghost predicate Settled(g: Graph, t: Parents, id: Numbers, w: Block)
    requires Tree(t, id, g.entry) && w in t && w in g.preds
  {
    SoundAt(g, t, w) && MeetAt(g, t, id, w)
  }

  /** The invariant of a pass in which the blocks numbered from lim upwards have been handled. */
  ghost predicate Solving(g: Graph, id: Numbers, post: seq<Block>, t: Parents, lim: nat) {
    var holds :=
      && g.Valid() && Numbered(g, id, post)
      && Tree(t, id, g.entry)
      && (forall w {:trigger t[w]} :: w in t && w != g.entry ==> w in g.preds)
      && (forall w {:trigger Settled(g, t, id, w)} :: w in t && w != g.entry ==> Settled(g, t, id, w))
      && (forall w {:trigger HangsAt(g, t, id, w)} ::
            w in t && w != g.entry && (id[w] >= lim || id[t[w]] < lim) ==> HangsAt(g, t, id, w));
    holds
  }

  /** n is what the solver computes as the new parent of c. */
  ghost predicate NewParent(g: Graph, id: Numbers, t: Parents, c: Block, n: Block) {
    var holds :=
      && Tree(t, id, g.entry)
      && c != g.entry && c in id && c in g.preds && n in t && id[c] < id[n]
      && AboveAll(g, t, id, n, c)
      && (forall x :: AboveAll(g, t, id, x, c) ==> Above(t, id, g.entry, x, n))
      && (forall d :: StrictDom(g, d, c) ==> Dom(g, d, n))
      && (exists p :: p in g.preds[c] && p in t && id[p] > id[c]);
    holds
  }

  /** The solver only ever moves a block up to one of the blocks already above it. */
  lemma MovesUp(g: Graph, id: Numbers, post: seq<Block>, t: Parents, lim: nat, c: Block, n: Block)
    requires Solving(g, id, post, t, lim) && NewParent(g, id, t, c, n)
    ensures c in t ==> Above(t, id, g.entry, n, t[c])
    ensures Tree(t[c := n], id, g.entry)
  {
    MoveKeepsTree(t, id, g.entry, c, n);
    if c in t { assert Settled(g, t, id, c); }
  }

  lemma {:induction false} FreshMoveKeepsAbove(t: Parents, id: Numbers, root: Block, c: Block, n: Block, a: Block,
      v: Block)
    requires Tree(t, id, root) && n in t && c != root && c in id && id[c] < id[n] && c !in t
    requires Tree(t[c := n], id, root) && v in t
    ensures Above(t[c := n], id, root, a, v) <==> Above(t, id, root, a, v)
    decreases id[root] - id[v]
  {
    if v != root {
      assert t[c := n][v] == t[v];
      FreshMoveKeepsAbove(t, id, root, c, n, a, t[v]);
    }
  }

  /** If x still lies above p after the move, and v lay between p and c, then x still lies above v. */
  lemma NoLossBelowMove(t: Parents, id: Numbers, root: Block, c: Block, n: Block, x: Block, v: Block, p: Block)
    requires Tree(t, id, root) && n in t && c != root && c in id && id[c] < id[n]
    requires Tree(t[c := n], id, root) && c in t && Above(t, id, root, n, t[c])
    requires forall x, y :: x in id && y in id && id[x] == id[y] ==> x == y
    requires v in t && p in t && Above(t, id, root, v, p) && Above(t, id, root, c, v)
    requires Above(t, id, root, x, v) && Above(t[c := n], id, root, x, p)
    ensures Above(t[c := n], id, root, x, v)
  {
    var t' := t[c := n];
    if !Above(t', id, root, x, v) {
      MoveUpLoses(t, id, root, c, n, x, v);
      AboveTrans(t, id, root, c, v, p);
      MoveAboveLow(t, id, root, c, n, c, p);
      AboveChain(t', id, root, c, x, p);
      AboveNumber(t', id, root, x, n);
    }
  }

  lemma AboveAllShrinks(g: Graph, t: Parents, id: Numbers, c: Block, n: Block, x: Block, w: Block)
    requires Tree(t, id, g.entry) && n in t && c != g.entry && c in id && id[c] < id[n]
    requires Tree(t[c := n], id, g.entry) && (c in t ==> Above(t, id, g.entry, n, t[c]))
    requires w in g.preds && AboveAll(g, t[c := n], id, x, w)
    ensures AboveAll(g, t, id, x, w)
  {
    forall p | p in g.preds[w] && p in t
      ensures Above(t, id, g.entry, x, p)
    {
      assert p in t[c := n];
      MoveUpShrinks(t, id, g.entry, c, n, x, p);
    }
  }

  /** MeetAt of another block w survives the move of c. */
  lemma MoveKeepsMeet(g: Graph, t: Parents, id: Numbers, c: Block, n: Block, w: Block)
    requires Tree(t, id, g.entry) && n in t && c != g.entry && c in id && id[c] < id[n]
    requires Tree(t[c := n], id, g.entry) && (c in t ==> Above(t, id, g.entry, n, t[c]))
    requires forall x, y :: x in id && y in id && id[x] == id[y] ==> x == y
    requires w in t && w != g.entry && w != c && w in g.preds && MeetAt(g, t, id, w)
    requires t[w] in id && (id[t[w]] <= id[c] ==> HangsAt(g, t, id, w))
    ensures MeetAt(g, t[c := n], id, w)
  {
    var t', root := t[c := n], g.entry;
    forall x | AboveAll(g, t', id, x, w)
      ensures Above(t', id, root, x, t'[w])
    {
      AboveAllShrinks(g, t, id, c, n, x, w);
      if !Above(t', id, root, x, t[w]) {
        if c !in t {
          FreshMoveKeepsAbove(t, id, root, c, n, x, t[w]);
        } else {
          MoveUpLoses(t, id, root, c, n, x, t[w]);
          AboveNumber(t, id, root, c, t[w]);
          var p :| p in g.preds[w] && p in t && id[p] > id[w] && Above(t, id, root, t[w], p);
          assert p in t' && Above(t', id, root, x, p);
          NoLossBelowMove(t, id, root, c, n, x, t[w], p);
        }
      }
    }
  }

  /** The moved block itself meets its predecessors exactly. */
  lemma MoveMeetsSelf(g: Graph, id: Numbers, post: seq<Block>, t: Parents, lim: nat, c: Block, n: Block)
    requires Solving(g, id, post, t, lim) && NewParent(g, id, t, c, n)
    requires Tree(t[c := n], id, g.entry)
    ensures MeetAt(g, t[c := n], id, c)
  {
    var t', root := t[c := n], g.entry;
    MovesUp(g, id, post, t, lim, c, n);
    forall x | AboveAll(g, t', id, x, c)
      ensures Above(t', id, root, x, n)
    {
      AboveAllShrinks(g, t, id, c, n, x, c);
      MoveAboveHigh(t, id, root, c, n, x, n);
    }
  }

  /** A block hanging from a higher predecessor keeps doing so when the move is below that predecessor or
      above its parent. */
  lemma MoveKeepsHangs(g: Graph, t: Parents, id: Numbers, c: Block, n: Block, w: Block)
    requires Tree(t, id, g.entry) && n in t && c != g.entry && c in id && id[c] < id[n]
    requires Tree(t[c := n], id, g.entry)
    requires w in t && w != c && w in g.preds && w in id && t[w] in id && HangsAt(g, t, id, w)
    requires id[w] >= id[c] || id[t[w]] < id[c]
    ensures HangsAt(g, t[c := n], id, w)
  {
    var t', root := t[c := n], g.entry;
    var p :| p in g.preds[w] && p in t && id[p] > id[w] && Above(t, id, root, t[w], p);
    if id[w] >= id[c] {
      MoveAboveHigh(t, id, root, c, n, t[w], p);
    } else {
      MoveAboveLow(t, id, root, c, n, t[w], p);
    }
    assert p in t' && Above(t', id, root, t'[w], p);
  }

  lemma MovedHangs(g: Graph, t: Parents, id: Numbers, c: Block, n: Block)
    requires Tree(t, id, g.entry) && NewParent(g, id, t, c, n)
    requires Tree(t[c := n], id, g.entry)
    ensures HangsAt(g, t[c := n], id, c)
  {
    var p :| p in g.preds[c] && p in t && id[p] > id[c];
    MoveAboveHigh(t, id, g.entry, c, n, n, p);
    assert p in t[c := n] && Above(t[c := n], id, g.entry, n, p);
  }

  /** One step of a pass keeps the invariant. */
  lemma SolvingStep(g: Graph, id: Numbers, post: seq<Block>, t: Parents, lim: nat, c: Block, n: Block)
    requires Solving(g, id, post, t, lim) && NewParent(g, id, t, c, n)
    requires lim > 0 && id[c] == lim - 1
    ensures Solving(g, id, post, t[c := n], lim - 1)
    ensures c in t ==> Above(t, id, g.entry, n, t[c])
  {
    var t' := t[c := n];
    MovesUp(g, id, post, t, lim, c, n);
    forall w | w in t' && w != g.entry
      ensures w in g.preds && Settled(g, t', id, w)
      ensures (id[w] >= lim - 1 || id[t'[w]] < lim - 1) ==> HangsAt(g, t', id, w)
    {
      if w == c {
        MoveMeetsSelf(g, id, post, t, lim, c, n);
        MovedHangs(g, t, id, c, n);
      } else {
        assert t'[w] == t[w] && Settled(g, t, id, w);
        IdInjective(g, id, post);
        MoveKeepsMeet(g, t, id, c, n, w);
        if id[w] >= lim - 1 || id[t'[w]] < lim - 1 {
          MoveKeepsHangs(g, t, id, c, n, w);
        }
      }
    }
  }

  /** The root needs no step. */
  lemma SolvingSkipRoot(g: Graph, id: Numbers, post: seq<Block>, t: Parents)
    requires Solving(g, id, post, t, |post|)
    ensures id[g.entry] == |post| - 1 && Solving(g, id, post, t, |post| - 1)
  {
    assert post[|post| - 1] == g.entry;
    forall w | w in t && w != g.entry && (id[w] >= |post| - 1 || id[t[w]] < |post| - 1)
      ensures HangsAt(g, t, id, w)
    {
      assert t[w] in id;
      assert id[t[w]] < |post|;
    }
  }

  /** The solver has stopped: every reachable block has a parent, which lies above all its predecessors. */
  ghost predicate Stopped(g: Graph, id: Numbers, post: seq<Block>, t: Parents) {
    var holds :=
      && Solving(g, id, post, t, 0)
      && t.Keys == id.Keys
      && (forall w {:trigger AboveAll(g, t, id, t[w], w)} :: w in t && w != g.entry ==> AboveAll(g, t, id, t[w], w));
    holds
  }

  /** What lies above v when the solver has stopped is met on every path to v. */
  lemma {:induction false} AboveIsVisited(g: Graph, id: Numbers, post: seq<Block>, t: Parents, a: Block, v: Block,
      p: Path)
    requires Stopped(g, id, post, t) && v in t && Above(t, id, g.entry, a, v) && PathTo(g, p, v)
    ensures Visits(g, p, a)
    decreases p
  {
    if a != v {
      var u := End(g, p.front);
      PathEndNumbered(g, id, post, p.front);
      assert AboveAll(g, t, id, t[v], v);
      assert v in g.succs[u];
      AboveTrans(t, id, g.entry, a, t[v], u);
      AboveIsVisited(g, id, post, t, a, u, p.front);
    }
  }

  lemma {:induction false} DominatorIsAbove(g: Graph, id: Numbers, post: seq<Block>, t: Parents, d: Block, v: Block)
    requires Stopped(g, id, post, t) && v in t && Dom(g, d, v)
    ensures Above(t, id, g.entry, d, v)
    decreases id[g.entry] - id[v]
  {
    if d != v {
      assert v != g.entry by { assert PathTo(g, Begin, g.entry); }
      assert Settled(g, t, id, v);
      DominatorIsAbove(g, id, post, t, d, t[v]);
    }
  }

  /** When the solver has stopped, lying above in the tree is dominance. */
  lemma AboveIsDom(g: Graph, id: Numbers, post: seq<Block>, t: Parents, a: Block, v: Block)
    requires Stopped(g, id, post, t) && v in t
    ensures Above(t, id, g.entry, a, v) <==> Dom(g, a, v)
  {
    if Above(t, id, g.entry, a, v) {
      forall p | PathTo(g, p, v)
        ensures Visits(g, p, a)
      {
        AboveIsVisited(g, id, post, t, a, v, p);
      }
    }
    if Dom(g, a, v) {
      DominatorIsAbove(g, id, post, t, a, v);
    }
  }

  /** When the solver has stopped, the parent of a block is its immediate dominator. */
  lemma StoppedIsIDom(g: Graph, id: Numbers, post: seq<Block>, t: Parents, v: Block)
    requires Stopped(g, id, post, t) && v in t && v != g.entry
    ensures IsIDom(g, t[v], v)
  {
    assert Above(t, id, g.entry, t[v], t[v]);
    AboveIsDom(g, id, post, t, t[v], v);
    assert Settled(g, t, id, v);
  }

  /** How far the parent of v still is from the root; a block without a parent is farthest. */
  ghost function Weight(t: Parents, id: Numbers, n: nat, v: Block): nat {
    if v in t && t[v] in id && id[t[v]] < n then n - id[t[v]] else n + 1
  }

  ghost function Slack(t: Parents, id: Numbers, n: nat, blocks: seq<Block>): nat {
    if blocks == [] then 0 else Weight(t, id, n, blocks[0]) + Slack(t, id, n, blocks[1..])
  }

  lemma {:induction false} SlackDrops(t: Parents, t': Parents, id: Numbers, n: nat, blocks: seq<Block>)
    requires forall v :: v in blocks ==> Weight(t', id, n, v) <= Weight(t, id, n, v)
    ensures Slack(t', id, n, blocks) <= Slack(t, id, n, blocks)
    ensures (exists v :: v in blocks && Weight(t', id, n, v) < Weight(t, id, n, v)) ==>
              Slack(t', id, n, blocks) < Slack(t, id, n, blocks)
  {
    if blocks != [] {
      SlackDrops(t, t', id, n, blocks[1..]);
    }
  }

  /** Giving c a parent with a larger number lowers the slack. */
  lemma StepDropsSlack(t: Parents, id: Numbers, n: nat, blocks: seq<Block>, c: Block, up: Block)
    requires c in blocks && up in id && id[up] < n
    requires c in t ==> t[c] in id && id[t[c]] < id[up]
    ensures Slack(t[c := up], id, n, blocks) < Slack(t, id, n, blocks)
  {
    assert Weight(t[c := up], id, n, c) < Weight(t, id, n, c);
    SlackDrops(t, t[c := up], id, n, blocks);
  }

  /** While two blocks are climbed towards each other nothing that lies above, or dominates, both is passed. */
  ghost predicate Meeting(g: Graph, id: Numbers, t: Parents, b1: Block, b2: Block, c1: Block, c2: Block)
    requires Tree(t, id, g.entry) && b1 in t && b2 in t && c1 in t && c2 in t
  {
    && Above(t, id, g.entry, c1, b1) && Above(t, id, g.entry, c2, b2)
    && (forall x :: Above(t, id, g.entry, x, b1) && Above(t, id, g.entry, x, b2) ==>
                      Above(t, id, g.entry, x, c1) && Above(t, id, g.entry, x, c2))
    && (forall d :: Dom(g, d, b1) && Dom(g, d, b2) ==> Dom(g, d, c1) && Dom(g, d, c2))
  }

  lemma ClimbKeepsMeeting(g: Graph, id: Numbers, post: seq<Block>, t: Parents, lim: nat, b1: Block, b2: Block,
                          c1: Block, c2: Block)
    requires Solving(g, id, post, t, lim)
    requires b1 in t && b2 in t && c1 in t && c2 in t && id[c1] < id[c2]
    requires Meeting(g, id, t, b1, b2, c1, c2)
    ensures c1 != g.entry && t[c1] in t && id[c1] < id[t[c1]] <= id[g.entry]
    ensures Meeting(g, id, t, b1, b2, t[c1], c2)
  {
    var root := g.entry;
    assert id[c2] <= id[root];
    var up := t[c1];
    assert Above(t, id, root, up, up);
    assert Above(t, id, root, up, c1);
    AboveTrans(t, id, root, up, c1, b1);
    forall x | Above(t, id, root, x, b1) && Above(t, id, root, x, b2)
      ensures Above(t, id, root, x, up)
    {
      AboveNumber(t, id, root, x, c2);
    }
    assert Settled(g, t, id, c1);
    forall d | Dom(g, d, b1) && Dom(g, d, b2)
      ensures Dom(g, d, up)
    {
      DomNumber(g, id, post, d, c2);
      assert StrictDom(g, d, c1);
    }
  }

  lemma PredIsBelowDominators(g: Graph, b: Block, p: Block)
    requires g.Valid() && b in g.preds && p in g.preds[b]
    ensures forall d :: StrictDom(g, d, b) ==> Dom(g, d, p)
  {
    forall d | StrictDom(g, d, b)
      ensures Dom(g, d, p)
    {
      StrictDomOfPred(g, d, b, p);
    }
  }

  lemma MeetKeepsAbove(t: Parents, id: Numbers, root: Block, meet: Block, before: Block, pred: Block, seen: seq<Block>)
    requires Tree(t, id, root) && before in t && pred in t && Above(t, id, root, meet, before)
    requires Above(t, id, root, before, pred)
    requires forall p :: p in seen && p in t ==> Above(t, id, root, before, p)
    ensures Above(t, id, root, meet, pred)
    ensures forall p :: p in seen && p in t ==> Above(t, id, root, meet, p)
  {
    AboveTrans(t, id, root, meet, before, pred);
    forall p | p in seen && p in t
      ensures Above(t, id, root, meet, p)
    {
      AboveTrans(t, id, root, meet, before, p);
    }
  }

  /** The predecessor of bb found by the depth-first search has been handled before bb in the pass. */
  lemma ParentHandled(g: Graph, id: Numbers, post: seq<Block>, before: Parents, t: Parents, lim: nat, changed: bool,
                      bb: Block)
    requires Solving(g, id, post, t, lim) && InPass(g, id, post, before, t, lim, changed)
    requires bb in id && bb != g.entry && id[bb] == lim - 1
    ensures bb in g.preds && exists p :: p in g.preds[bb] && p in t && id[p] > id[bb]
  {
    assert HasParent(g, id, bb);
    var u :| u in id && g.Edge(u, bb) && id[u] > id[bb];
    assert bb in g.succs[u];
  }

  lemma NewParentIsHigher(g: Graph, id: Numbers, post: seq<Block>, t: Parents, lim: nat, c: Block, n: Block)
    requires Solving(g, id, post, t, lim) && NewParent(g, id, t, c, n)
    requires c !in t || t[c] != n
    ensures c in post && n in id && id[n] < |post|
    ensures c in t ==> t[c] in id && id[t[c]] < id[n]
  {
    MovesUp(g, id, post, t, lim, c, n);
    assert id[c] < |post| && post[id[c]] == c;
    assert id[n] < |post|;
    if c in t {
      AboveNumber(t, id, g.entry, n, t[c]);
    }
  }

  /** A pass that began with the tree `before` has handled the blocks numbered from lim upwards. */
  ghost predicate InPass(g: Graph, id: Numbers, post: seq<Block>, before: Parents, t: Parents, lim: nat,
      changed: bool) {
    var holds :=
      && Tree(t, id, g.entry)
      && (forall v {:trigger id[v]} :: v in id && id[v] >= lim ==> v in t)
      && (if changed then Slack(t, id, |post|, post) < Slack(before, id, |post|, post) else t == before)
      && (!changed ==> forall v {:trigger id[v]} ::
                         v in id && id[v] >= lim && v != g.entry ==> v in g.preds && AboveAll(g, t, id, t[v], v));
    holds
  }

  lemma SolvingInjective(g: Graph, id: Numbers, post: seq<Block>, t: Parents, lim: nat)
    requires Solving(g, id, post, t, lim)
    ensures Tree(t, id, g.entry)
    ensures forall x, y :: x in id && y in id && id[x] == id[y] ==> x == y
  {
    IdInjective(g, id, post);
  }

  lemma PassBegins(g: Graph, id: Numbers, post: seq<Block>, t: Parents)
    requires Solving(g, id, post, t, |post|)
    ensures InPass(g, id, post, t, t, |post|, false)
  {
  }

  lemma SolvingBegins(g: Graph, id: Numbers, post: seq<Block>)
    requires g.Valid() && Numbered(g, id, post)
    ensures Solving(g, id, post, map[g.entry := g.entry], |post|)
  {
    assert post[|post| - 1] == g.entry;
  }

  /** The block handled next in a pass. */
  lemma PassBlock(g: Graph, id: Numbers, post: seq<Block>, t: Parents, lim: nat)
    requires Solving(g, id, post, t, lim) && 0 < lim <= |post|
    ensures post[lim - 1] in id && id[post[lim - 1]] == lim - 1
  {
  }

  /** The entry comes first in the pass and is skipped. */
  lemma PassRoot(g: Graph, id: Numbers, post: seq<Block>, before: Parents, t: Parents, lim: nat, changed: bool)
    requires Solving(g, id, post, t, lim) && InPass(g, id, post, before, t, lim, changed)
    requires 0 < lim <= |post| && post[lim - 1] == g.entry
    ensures Solving(g, id, post, t, lim - 1) && InPass(g, id, post, before, t, lim - 1, changed)
  {
    assert post[|post| - 1] == g.entry;
    IdInjective(g, id, post);
    SolvingSkipRoot(g, id, post, t);
  }

  lemma PassStep(g: Graph, id: Numbers, post: seq<Block>, before: Parents, t: Parents, lim: nat, changed: bool,
                 c: Block, n: Block)
    requires 0 < lim && c in id && id[c] == lim - 1
    requires Solving(g, id, post, t, lim) && InPass(g, id, post, before, t, lim, changed)
    requires NewParent(g, id, t, c, n)
    ensures Solving(g, id, post, t[c := n], lim - 1)
    ensures InPass(g, id, post, before, t[c := n], lim - 1, changed || c !in t || t[c] != n)
  {
    hide Solving, NewParent, InPass, Tree, Slack;
    SolvingStep(g, id, post, t, lim, c, n);
    if c !in t || t[c] != n {
      NewParentIsHigher(g, id, post, t, lim, c, n);
      StepDropsSlack(t, id, |post|, post, c, n);
      SolvingInjective(g, id, post, t, lim);
      SolvingInjective(g, id, post, t[c := n], lim - 1);
      ChangeKeepsInPass(g, id, post, before, t, lim, changed, c, n);
    } else {
      assert t[c := n] == t;
      NoChangeKeepsInPass(g, id, post, before, t, lim, changed, c);
    }
  }

  lemma ChangeKeepsInPass(g: Graph, id: Numbers, post: seq<Block>, before: Parents, t: Parents, lim: nat, changed: bool,
                          c: Block, n: Block)
    requires 0 < lim && c in id && id[c] == lim - 1
    requires forall x, y :: x in id && y in id && id[x] == id[y] ==> x == y
    requires InPass(g, id, post, before, t, lim, changed) && Tree(t[c := n], id, g.entry)
    requires Slack(t[c := n], id, |post|, post) < Slack(t, id, |post|, post)
    ensures InPass(g, id, post, before, t[c := n], lim - 1, true)
  {
    hide Slack, AboveAll, Tree;
  }

  lemma NoChangeKeepsInPass(g: Graph, id: Numbers, post: seq<Block>, before: Parents, t: Parents, lim: nat,
      changed: bool, c: Block)
    requires 0 < lim && c in id && id[c] == lim - 1
    requires Solving(g, id, post, t, lim) && Solving(g, id, post, t, lim - 1) && c in t && NewParent(g, id, t, c, t[c])
    requires InPass(g, id, post, before, t, lim, changed)
    ensures InPass(g, id, post, before, t, lim - 1, changed)
  {
    hide Solving, Slack, Numbered;
    SolvingInjective(g, id, post, t, lim);
  }

  /** At the end of a pass the invariant holds for the next one; a pass without a change has reached the fixpoint. */
  lemma PassIsOver(g: Graph, id: Numbers, post: seq<Block>, before: Parents, t: Parents, changed: bool)
    requires Solving(g, id, post, t, 0) && InPass(g, id, post, before, t, 0, changed)
    ensures Solving(g, id, post, t, |post|)
    ensures if changed then Slack(t, id, |post|, post) < Slack(before, id, |post|, post)
            else t == before && Stopped(g, id, post, t)
  {
    assert forall v :: v in id ==> id[v] >= 0;
    assert forall v :: v in t ==> v in id;
  }

  lemma StoppedMeaning(g: Graph, id: Numbers, post: seq<Block>, t: Parents)
    requires Stopped(g, id, post, t)
    ensures forall v :: v in t <==> Reachable(g, v)
    ensures forall v :: v in t && v != g.entry ==> IsIDom(g, t[v], v)
  {
    forall v | v in t && v != g.entry
      ensures IsIDom(g, t[v], v)
    {
      StoppedIsIDom(g, id, post, t, v);
    }
    forall v
      ensures v in t <==> Reachable(g, v)
    {
      NumberedIsReachable(g, id, post, v);
    }
  }

  /** The predecessors of bb in seen have been met in meet, starting from pred. */
  ghost predicate MeetSoFar(g: Graph, id: Numbers, post: seq<Block>, t: Parents, lim: nat, bb: Block, pred: Block,
                            seen: seq<Block>, meet: Block)
    requires Solving(g, id, post, t, lim) && bb in g.preds && pred in t && meet in t
  {
    var holds :=
      && Above(t, id, g.entry, meet, pred)
      && (forall p :: p in seen && p in t ==> Above(t, id, g.entry, meet, p))
      && (forall x :: AboveAll(g, t, id, x, bb) ==> Above(t, id, g.entry, x, meet))
      && (forall d :: StrictDom(g, d, bb) ==> Dom(g, d, meet));
    holds
  }

  lemma MeetBegins(g: Graph, id: Numbers, post: seq<Block>, t: Parents, lim: nat, bb: Block, pred: Block)
    requires Solving(g, id, post, t, lim) && bb in g.preds && pred in t && pred in g.preds[bb]
    ensures MeetSoFar(g, id, post, t, lim, bb, pred, [], pred)
  {
    PredIsBelowDominators(g, bb, pred);
  }

  lemma MeetSkip(g: Graph, id: Numbers, post: seq<Block>, t: Parents, lim: nat, bb: Block, pred: Block,
                 seen: seq<Block>, meet: Block, p: Block)
    requires Solving(g, id, post, t, lim) && bb in g.preds && pred in t && meet in t
    requires MeetSoFar(g, id, post, t, lim, bb, pred, seen, meet) && (p == pred || p !in t)
    ensures MeetSoFar(g, id, post, t, lim, bb, pred, seen + [p], meet)
  {
    hide Solving, AboveAll, Dom;
  }

  lemma MeetStep(g: Graph, id: Numbers, post: seq<Block>, t: Parents, lim: nat, bb: Block, pred: Block,
                 seen: seq<Block>, before: Block, p: Block, meet: Block)
    requires Solving(g, id, post, t, lim) && bb in g.preds && pred in t && before in t && p in t && meet in t
    requires p in g.preds[bb] && MeetSoFar(g, id, post, t, lim, bb, pred, seen, before)
    requires Above(t, id, g.entry, meet, p) && Above(t, id, g.entry, meet, before)
    requires forall x :: Above(t, id, g.entry, x, p) && Above(t, id, g.entry, x, before) ==>
                           Above(t, id, g.entry, x, meet)
    requires forall d :: Dom(g, d, p) && Dom(g, d, before) ==> Dom(g, d, meet)
    ensures MeetSoFar(g, id, post, t, lim, bb, pred, seen + [p], meet)
  {
    hide Dom, Solving, Above, AboveAll;
    SolvingTree(g, id, post, t, lim);
    PredIsBelowDominators(g, bb, p);
    MeetKeepsAbove(t, id, g.entry, meet, before, pred, seen);
    AboveAllOf(g, t, id, bb, p);
  }

  lemma SolvingTree(g: Graph, id: Numbers, post: seq<Block>, t: Parents, lim: nat)
    requires Solving(g, id, post, t, lim)
    ensures g.Valid() && Tree(t, id, g.entry)
  {
  }

  lemma AboveAllOf(g: Graph, t: Parents, id: Numbers, bb: Block, p: Block)
    requires Tree(t, id, g.entry) && bb in g.preds && p in g.preds[bb] && p in t
    ensures forall x :: AboveAll(g, t, id, x, bb) ==> Above(t, id, g.entry, x, p)
  {
  }

  lemma MeetIsNewParent(g: Graph, id: Numbers, post: seq<Block>, t: Parents, lim: nat, bb: Block, pred: Block,
      meet: Block)
    requires Solving(g, id, post, t, lim) && bb in g.preds && pred in t && meet in t
    requires MeetSoFar(g, id, post, t, lim, bb, pred, g.preds[bb], meet)
    requires bb in id && bb != g.entry && exists p :: p in g.preds[bb] && p in t && id[p] > id[bb]
    ensures NewParent(g, id, t, bb, meet)
  {
    var p :| p in g.preds[bb] && p in t && id[p] > id[bb];
    AboveNumber(t, id, g.entry, meet, p);
  }
}
