/** What the depth-first post-order numbering of a control-flow graph guarantees. */
module PostOrder {
  import opened Cfg
  import opened IdomTree

  /** What the post-order numbering of a graph guarantees: exactly the reachable blocks are numbered, by
      their position in the post-order list, and every block but the entry has a predecessor that is
      numbered higher. */
  ghost predicate Numbered(g: Graph, id: Numbers, post: seq<Block>) {
    var holds :=
      && post != [] && post[|post| - 1] == g.entry
      && (forall i {:trigger post[i]} :: 0 <= i < |post| ==> post[i] in id && id[post[i]] == i)
      && (forall v {:trigger id[v]} :: v in id ==> id[v] < |post| && post[id[v]] == v)
      && (forall v {:trigger HasParent(g, id, v)} :: v in id && v != g.entry ==> HasParent(g, id, v))
      && (forall v {:trigger g.succs[v]} :: v in id ==> v in g.succs && forall s :: s in g.succs[v] ==> s in id);
    holds
  }

  ghost predicate HasParent(g: Graph, id: Numbers, v: Block)
    requires v in id
  {
    exists u :: u in id && g.Edge(u, v) && id[u] > id[v]
  }

  lemma {:induction false} PathEndNumbered(g: Graph, id: Numbers, post: seq<Block>, p: Path)
    requires Numbered(g, id, post) && IsPath(g, p)
    ensures End(g, p) in id
  {
    if p.Then? {
      PathEndNumbered(g, id, post, p.front);
    } else {
      assert post[|post| - 1] in id;
    }
  }

  /** A path to v along which the numbers only fall. */
  lemma {:induction false} FallingPath(g: Graph, id: Numbers, post: seq<Block>, v: Block) returns (p: Path)
    requires Numbered(g, id, post) && v in id
    ensures PathTo(g, p, v)
    ensures forall d :: Visits(g, p, d) ==> d in id && (d == v || id[d] > id[v])
    decreases |post| - id[v]
  {
    if v == g.entry {
      p := Begin;
    } else {
      assert HasParent(g, id, v);
      var u :| u in id && g.Edge(u, v) && id[u] > id[v];
      p := FallingPath(g, id, post, u);
      p := Then(p, v);
    }
  }

  /** The numbered blocks are the reachable ones. */
  lemma NumberedIsReachable(g: Graph, id: Numbers, post: seq<Block>, v: Block)
    requires Numbered(g, id, post)
    ensures v in id <==> Reachable(g, v)
  {
    if v in id {
      var p := FallingPath(g, id, post, v);
    }
    if Reachable(g, v) {
      var p :| PathTo(g, p, v);
      PathEndNumbered(g, id, post, p);
    }
  }

  /** A dominator of a numbered block is numbered at least as high. */
  lemma DomNumber(g: Graph, id: Numbers, post: seq<Block>, d: Block, v: Block)
    requires Numbered(g, id, post) && v in id && Dom(g, d, v)
    ensures d in id && (d == v || id[d] > id[v])
  {
    var p := FallingPath(g, id, post, v);
    assert PathTo(g, p, v);
  }

  lemma IdInjective(g: Graph, id: Numbers, post: seq<Block>)
    requires Numbered(g, id, post)
    ensures forall x, y :: x in id && y in id && id[x] == id[y] ==> x == y
  {
    forall x, y | x in id && y in id && id[x] == id[y]
      ensures x == y
    {
      assert post[id[x]] == x && post[id[y]] == y;
    }
  }

  ghost predicate SuccsIn(g: Graph, b: Block, after: set<Block>) {
    b in g.succs && forall s :: s in g.succs[b] ==> s in after
  }

  /** The part of the post-order list that one visit appends. */
  ghost predicate Appended(g: Graph, before: set<Block>, after: set<Block>, part: seq<Block>) {
    var holds :=
      && (forall i, j :: 0 <= i < j < |part| ==> part[i] != part[j])
      && (forall b :: b in after <==> b in before || b in part)
      && (forall b :: b in part ==> b !in before)
      && (forall b :: b in part ==> SuccsIn(g, b, after));
    holds
  }

  /** The block at index i has a predecessor that comes later in part. */
  ghost predicate HasLater(g: Graph, part: seq<Block>, i: nat)
    requires i < |part|
  {
    exists j :: i < j < |part| && g.Edge(part[j], part[i])
  }

  /** What a visit reads and updates: the visited set, the post-order list and the numbers. */
  datatype Walk = Walk(seen: set<Block>, order: seq<Block>, id: Numbers)

  /** A visit that started in state w0 may end in state w. */
  ghost predicate Grown(g: Graph, w0: Walk, w: Walk) {
    var holds :=
      && w0.order <= w.order
      && Appended(g, w0.seen, w.seen, w.order[|w0.order|..])
      && (forall b :: b in w.id <==> b in w0.id || b in w.order[|w0.order|..])
      && (forall b :: b in w0.id && b in w0.seen ==> w.id[b] == w0.id[b])
      && (forall k {:trigger w.order[k]} :: |w0.order| <= k < |w.order| ==>
                                              w.order[k] in w.id && w.id[w.order[k]] == k);
    holds
  }

  lemma AppendedJoin(g: Graph, before: set<Block>, mid: set<Block>, after: set<Block>, part0: seq<Block>,
      part1: seq<Block>)
    requires Appended(g, before, mid, part0) && Appended(g, mid, after, part1)
    ensures Appended(g, before, after, part0 + part1)
  {
    var all := part0 + part1;
    forall i, j | 0 <= i < j < |all|
      ensures all[i] != all[j]
    {
      if i < |part0| <= j {
        assert all[i] in part0 && all[j] in part1;
      }
    }
    forall b | b in all
      ensures b !in before && SuccsIn(g, b, after)
    {
      assert b in part0 || b in part1;
    }
  }

  lemma GrownJoin(g: Graph, w0: Walk, w1: Walk, w2: Walk)
    requires Grown(g, w0, w1) && Grown(g, w1, w2)
    ensures Grown(g, w0, w2)
  {
    var part0, part1 := w1.order[|w0.order|..], w2.order[|w1.order|..];
    OrderJoin(g, w0, w1, w2);
    AppendedJoin(g, w0.seen, w1.seen, w2.seen, part0, part1);
    IdsJoin(g, w0, w1, w2);
  }

  lemma IdsJoin(g: Graph, w0: Walk, w1: Walk, w2: Walk)
    requires Grown(g, w0, w1) && Grown(g, w1, w2)
    ensures forall b :: b in w0.id && b in w0.seen ==> b in w2.id && w2.id[b] == w0.id[b]
    ensures forall k {:trigger w2.order[k]} :: |w0.order| <= k < |w2.order| ==>
              w2.order[k] in w2.id && w2.id[w2.order[k]] == k
  {
    hide SuccsIn;
    forall k | |w0.order| <= k < |w2.order|
      ensures w2.order[k] in w2.id && w2.id[w2.order[k]] == k
    {
      if k < |w1.order| {
        assert w2.order[k] == w1.order[k] && w1.order[k] in w1.order[|w0.order|..];
      }
    }
  }

  lemma OrderJoin(g: Graph, w0: Walk, w1: Walk, w2: Walk)
    requires Grown(g, w0, w1) && Grown(g, w1, w2)
    ensures |w0.order| <= |w1.order| <= |w2.order|
    ensures w2.order[|w0.order|..] == w1.order[|w0.order|..] + w2.order[|w1.order|..]
  {
    hide Appended;
  }

  lemma GrownFinish(g: Graph, bb: Block, seen0: set<Block>, w0: Walk, w: Walk)
    requires bb !in seen0 && w0.seen == seen0 + {bb} && Grown(g, w0, w)
    requires bb in g.succs && forall s :: s in g.succs[bb] ==> s in w.seen
    ensures Grown(g, w0.(seen := seen0), Walk(w.seen, w.order + [bb], w.id[bb := |w.order|]))
  {
    var part := w.order[|w0.order|..];
    assert (w.order + [bb])[|w0.order|..] == part + [bb];
    forall k | |w0.order| <= k < |w.order|
      ensures w.order[k] != bb && w.order[k] in w.id
    {
      assert w.order[k] in part;
    }
    assert Appended(g, seen0, w.seen, part + [bb]);
  }

  lemma HasLaterJoin(g: Graph, part0: seq<Block>, part1: seq<Block>, bb: Block)
    requires forall i :: 0 <= i < |part0| ==> HasLater(g, part0 + [bb], i)
    requires part1 != [] && VisitDone(g, part1[|part1| - 1], part1)
    requires g.Edge(bb, part1[|part1| - 1])
    ensures forall i :: 0 <= i < |part0 + part1| ==> HasLater(g, part0 + part1 + [bb], i)
  {
    var all := part0 + part1 + [bb];
    forall i | 0 <= i < |part0 + part1|
      ensures HasLater(g, all, i)
    {
      if i < |part0| {
        assert HasLater(g, part0 + [bb], i);
        var j :| i < j < |part0 + [bb]| && g.Edge((part0 + [bb])[j], (part0 + [bb])[i]);
        var j' := if j < |part0| then j else |all| - 1;
        assert all[j'] == (part0 + [bb])[j] && all[i] == (part0 + [bb])[i];
      } else if i - |part0| < |part1| - 1 {
        assert HasLater(g, part1, i - |part0|);
        var j :| i - |part0| < j < |part1| && g.Edge(part1[j], part1[i - |part0|]);
        assert all[|part0| + j] == part1[j] && all[i] == part1[i - |part0|];
      } else {
        assert all[i + 1] == bb && all[i] == part1[|part1| - 1];
      }
    }
  }

  /** One visit of bb is complete: bb comes last, everything before it has a later predecessor. */
  ghost predicate VisitDone(g: Graph, bb: Block, part: seq<Block>) {
    && part != [] && part[|part| - 1] == bb
    && forall i :: 0 <= i < |part| - 1 ==> HasLater(g, part, i)
  }

  lemma WaitingBegins(g: Graph, bb: Block, w0: Walk)
    ensures Waiting(g, bb, w0, w0)
  {
    assert w0.order[|w0.order|..] == [];
  }

  lemma WaitingSeen(g: Graph, bb: Block, w0: Walk, w: Walk)
    requires Waiting(g, bb, w0, w)
    ensures w0.seen <= w.seen
  {
  }

  lemma VisitSees(g: Graph, b: Block, w1: Walk, w2: Walk)
    requires Grown(g, w1, w2) && VisitDone(g, b, w2.order[|w1.order|..])
    ensures w1.seen <= w2.seen && b in w2.seen
  {
    hide HasLater, SuccsIn;
    assert b in w2.order[|w1.order|..];
  }

  lemma EdgeInGraph(g: Graph, a: Block, b: Block)
    requires g.Valid() && a in g.succs && b in g.succs[a]
    ensures b in g.succs && g.Edge(a, b)
  {
  }

  /** All successors of bb have been visited: bb is appended and its visit is complete. */
  lemma VisitEnds(g: Graph, bb: Block, seen0: set<Block>, w0: Walk, w: Walk)
    requires bb !in seen0 && w0.seen == seen0 + {bb} && Waiting(g, bb, w0, w)
    requires bb in g.succs && forall s :: s in g.succs[bb] ==> s in w.seen
    ensures Grown(g, w0.(seen := seen0), Walk(w.seen, w.order + [bb], w.id[bb := |w.order|]))
    ensures |w0.order| <= |w.order| && VisitDone(g, bb, (w.order + [bb])[|w0.order|..])
  {
    hide SuccsIn, HasLater;
    GrownFinish(g, bb, seen0, w0, w);
    assert (w.order + [bb])[|w0.order|..] == w.order[|w0.order|..] + [bb];
  }

  lemma VisitJoin(g: Graph, bb: Block, b: Block, w0: Walk, w1: Walk, w2: Walk)
    requires Waiting(g, bb, w0, w1) && Grown(g, w1, w2)
    requires g.Edge(bb, b) && VisitDone(g, b, w2.order[|w1.order|..])
    ensures Waiting(g, bb, w0, w2)
  {
    hide Grown, Appended, HasLater;
    OrderJoin(g, w0, w1, w2);
    GrownJoin(g, w0, w1, w2);
    HasLaterJoin(g, w1.order[|w0.order|..], w2.order[|w1.order|..], bb);
  }

  /** While bb is being visited: every block appended since w0 has a later predecessor, counting bb as the next. */
  ghost predicate Waiting(g: Graph, bb: Block, w0: Walk, w: Walk) {
    && Grown(g, w0, w)
    && var part := w.order[|w0.order|..]; forall i :: 0 <= i < |part| ==> HasLater(g, part + [bb], i)
  }

  function Reversed(s: seq<Block>): (r: seq<Block>)
    ensures |r| == |s|
    ensures forall i :: 0 <= i < |s| ==> r[i] == s[|s| - 1 - i]
  {
    if s == [] then [] else Reversed(s[1..]) + [s[0]]
  }

  lemma ReversedTwice(s: seq<Block>)
    ensures Reversed(Reversed(s)) == s
  {
  }

  /** A visit that starts at the entry with nothing visited numbers the graph. */
  lemma VisitedIsNumbered(g: Graph, visited: set<Block>, post: seq<Block>, id: Numbers)
    requires g.Valid()
    requires Grown(g, Walk({}, [], map[]), Walk(visited, post, id)) && VisitDone(g, g.entry, post)
    ensures Numbered(g, id, post)
  {
    assert post[0..] == post;
    assert post[|post| - 1] == g.entry;
    forall v | v in id
      ensures id[v] < |post| && post[id[v]] == v
    {
      var i :| 0 <= i < |post| && post[i] == v;
    }
    LaterIsParent(g, post, id);
  }

  lemma LaterIsParent(g: Graph, post: seq<Block>, id: Numbers)
    requires VisitDone(g, g.entry, post)
    requires forall i {:trigger post[i]} :: 0 <= i < |post| ==> post[i] in id && id[post[i]] == i
    requires forall v {:trigger id[v]} :: v in id ==> id[v] < |post| && post[id[v]] == v
    ensures forall v {:trigger id[v]} :: v in id && v != g.entry ==> HasParent(g, id, v)
  {
    forall v | v in id && v != g.entry
      ensures HasParent(g, id, v)
    {
      assert post[id[v]] == v;
      assert HasLater(g, post, id[v]);
      var j :| id[v] < j < |post| && g.Edge(post[j], post[id[v]]);
      assert post[j] in id && id[post[j]] == j;
    }
  }
}
