/** The invariant of the depth-first component search and why popping a root yields a component. */
module ComponentSearch {
  import opened Components

  /** The fields of the search: per node the index and low link (-1 while unvisited), the node stack and its
      on-stack marks, the next index and the components found. */
  datatype Search = Search(index: map<Node, int>, low: map<Node, int>, stack: seq<Node>, onStack: set<Node>, next: int,
                           found: set<set<Node>>)

  ghost predicate Seen(t: Search, x: Node) {
    x in t.index && t.index[x] != -1
  }

  /** Visited and no longer on the stack. */
  ghost predicate Done(t: Search, x: Node) {
    Seen(t, x) && x !in t.onStack
  }

  ghost function DoneSet(t: Search): iset<Node> {
    iset x | Done(t, x)
  }

  /** The graph is closed and every node carries an index and a low link. */
  ghost predicate GraphOk(e: Succs, t: Search) {
    var holds :=
      && t.index.Keys == e.Keys && t.low.Keys == e.Keys
      && (forall x, y :: x in e && y in e[x] ==> y in e);
    holds
  }

  /** The stack lists the on-stack nodes in the order of their indices. */
  ghost predicate Ordered(t: Search) {
    var holds :=
      && (forall x :: x in t.onStack <==> x in t.stack)
      && (forall i :: 0 <= i < |t.stack| ==> Seen(t, t.stack[i]))
      && (forall i, j :: 0 <= i < j < |t.stack| ==> t.index[t.stack[i]] < t.index[t.stack[j]])
      && 0 <= t.next && (forall x :: Seen(t, x) ==> 0 <= t.index[x] < t.next);
    holds
  }

  /** Visited nodes that are not being visited any more lead to visited nodes only. */
  ghost predicate NoEscape(e: Succs, t: Search, active: set<Node>) {
    forall x, y :: Seen(t, x) && x !in active && x in e && y in e[x] ==> Seen(t, y)
  }

  /** A node lower on the stack reaches every node above it. */
  ghost predicate Linked(e: Succs, t: Search) {
    forall x, y :: x in t.onStack && y in t.onStack && x in t.index && y in t.index && t.index[x] <= t.index[y] ==>
                     Reach(e, x, y)
  }

  ghost predicate AnchoredBy(e: Succs, t: Search, y: Node, a: Node) {
    a in t.onStack && a in t.index && y in t.index && t.index[a] <= t.index[y] && Reach(e, y, a)
  }

  ghost predicate IsAnchored(e: Succs, t: Search, active: set<Node>, y: Node) {
    exists a :: a in active && AnchoredBy(e, t, y, a)
  }

  /** Every node on the stack reaches an active node that is not above it. */
  ghost predicate Anchored(e: Succs, t: Search, active: set<Node>) {
    forall y {:trigger IsAnchored(e, t, active, y)} :: y in t.onStack ==> IsAnchored(e, t, active, y)
  }

  ghost predicate LowIs(e: Succs, t: Search, x: Node, y: Node) {
    x in t.low && y in t.onStack && y in t.index && t.index[y] == t.low[x] && Reach(e, x, y)
  }

  ghost predicate LowOk(e: Succs, t: Search, x: Node) {
    x in t.low && x in t.index && t.low[x] <= t.index[x] && exists y :: LowIs(e, t, x, y)
  }

  /** The low link of a node on the stack is the index of a node on the stack that it reaches. */
  ghost predicate LowsOk(e: Succs, t: Search) {
    forall x {:trigger LowOk(e, t, x)} :: x in t.onStack ==> LowOk(e, t, x)
  }

  /** The nodes taken off the stack are closed under edges, and the components found are exactly those of two
      or more nodes among them. */
  ghost predicate Finished(e: Succs, t: Search) {
    var holds :=
      && Closed(e, DoneSet(t))
      && (forall C :: C in t.found <==> IsScc(e, C) && |C| >= 2 && forall x :: x in C ==> Done(t, x));
    holds
  }

  /** The invariant of the search while the nodes in active are being visited. */
  ghost predicate Inv(e: Succs, t: Search, active: set<Node>) {
    var holds :=
      && GraphOk(e, t) && Ordered(t) && NoEscape(e, t, active) && Linked(e, t) && Anchored(e, t, active)
      && LowsOk(e, t) && Finished(e, t) && active <= t.onStack;
    holds
  }

  /** t' extends t: visited nodes keep their numbers and the stack keeps its lower part. */
  ghost predicate Extends(t: Search, t': Search) {
    var holds :=
      && t.stack <= t'.stack && t.next <= t'.next
      && (forall x :: Seen(t, x) ==>
                        && Seen(t', x) && t'.index[x] == t.index[x]
                        && x in t.low && x in t'.low && t'.low[x] == t.low[x])
      && (forall x :: Done(t, x) ==> Done(t', x))
      && (forall x :: Seen(t', x) && !Seen(t, x) ==> t.next <= t'.index[x]);
    holds
  }

  /** An edge between nodes on the stack that starts at v or above it and ends below v. */
  ghost predicate Crosses(e: Succs, t: Search, v: Node, x: Node, y: Node) {
    && x in t.onStack && y in t.onStack && x in e && y in e[x]
    && v in t.index && x in t.index && y in t.index && t.index[y] < t.index[v] <= t.index[x]
  }

  /** Edges from v and the nodes above it to nodes below v lead to nodes numbered at least lim; of v itself
      only the edges not in todo count. */
  ghost predicate Covers(e: Succs, t: Search, v: Node, todo: set<Node>, lim: int) {
    forall x, y :: Crosses(e, t, v, x, y) && (x != v || y !in todo) ==> lim <= t.index[y]
  }

  // ----- pushing a node -----

  ghost function Pushed(t: Search, v: Node): Search {
    t.(index := t.index[v := t.next], low := t.low[v := t.next], stack := t.stack + [v], onStack := t.onStack + {v},
       next := t.next + 1)
  }

  lemma OnStackFacts(t: Search)
    requires Ordered(t)
    ensures 0 <= t.next && forall x :: x in t.onStack ==> x in t.index && 0 <= t.index[x] < t.next
  {
    forall x | x in t.onStack
      ensures x in t.index && 0 <= t.index[x] < t.next
    {
      assert x in t.stack;
      assert Seen(t, x);
    }
  }

  lemma UnseenOffStack(t: Search, v: Node)
    requires Ordered(t) && !Seen(t, v)
    ensures v !in t.onStack
  {
  }

  lemma PushOrdered(t: Search, v: Node)
    requires Ordered(t) && !Seen(t, v)
    ensures Ordered(Pushed(t, v))
  {
  }

  lemma PushLinked(e: Succs, t: Search, active: set<Node>, v: Node)
    requires Ordered(t) && Linked(e, t) && Anchored(e, t, active) && !Seen(t, v)
    requires forall a :: a in active ==> Reach(e, a, v)
    ensures Linked(e, Pushed(t, v))
  {
    hide Ordered, Reach;
    OnStackFacts(t);
    var t' := Pushed(t, v);
    assert v !in t.onStack by { UnseenOffStack(t, v); }
    forall x, y | x in t'.onStack && y in t'.onStack && t'.index[x] <= t'.index[y]
      ensures Reach(e, x, y)
    {
      if y == v {
        if x == v {
          ReachRefl(e, v);
        } else {
          assert IsAnchored(e, t, active, x);
          var a :| a in active && AnchoredBy(e, t, x, a);
          ReachTrans(e, x, a, v);
        }
      }
    }
  }

  lemma PushAnchored(e: Succs, t: Search, active: set<Node>, v: Node)
    requires Ordered(t) && Anchored(e, t, active) && !Seen(t, v)
    ensures Anchored(e, Pushed(t, v), active + {v})
  {
    hide Ordered, Reach;
    OnStackFacts(t);
    UnseenOffStack(t, v);
    var t' := Pushed(t, v);
    forall y | y in t'.onStack
      ensures IsAnchored(e, t', active + {v}, y)
    {
      if y == v {
        ReachRefl(e, v);
        assert AnchoredBy(e, t', v, v);
      } else {
        assert IsAnchored(e, t, active, y);
        var a :| a in active && AnchoredBy(e, t, y, a);
        assert AnchoredBy(e, t', y, a);
      }
    }
  }

  lemma PushLows(e: Succs, t: Search, v: Node)
    requires Ordered(t) && LowsOk(e, t) && !Seen(t, v)
    ensures LowsOk(e, Pushed(t, v))
  {
    hide Ordered, Reach;
    OnStackFacts(t);
    UnseenOffStack(t, v);
    var t' := Pushed(t, v);
    forall x | x in t'.onStack
      ensures LowOk(e, t', x)
    {
      if x == v {
        ReachRefl(e, v);
        assert LowIs(e, t', v, v);
      } else {
        assert LowOk(e, t, x);
        var y :| LowIs(e, t, x, y);
        assert LowIs(e, t', x, y);
      }
    }
  }

  lemma PushFinished(e: Succs, t: Search, v: Node)
    requires Finished(e, t) && Ordered(t) && !Seen(t, v)
    ensures Finished(e, Pushed(t, v))
  {
    forall x ensures Done(Pushed(t, v), x) <==> Done(t, x) { }
    assert DoneSet(Pushed(t, v)) == DoneSet(t);
  }

  lemma PushGraph(e: Succs, t: Search, active: set<Node>, v: Node)
    requires GraphOk(e, t) && NoEscape(e, t, active) && v in e && 0 <= t.next
    ensures GraphOk(e, Pushed(t, v)) && NoEscape(e, Pushed(t, v), active + {v})
  {
    var t' := Pushed(t, v);
    forall x, y | Seen(t', x) && x !in active + {v} && x in e && y in e[x]
      ensures Seen(t', y)
    {
      assert Seen(t, x) && Seen(t, y);
    }
  }

  /** Pushing an unvisited node that all active nodes reach keeps the invariant. */
  lemma PushInv(e: Succs, t: Search, active: set<Node>, v: Node)
    requires Inv(e, t, active) && v in e && !Seen(t, v)
    requires forall a :: a in active ==> Reach(e, a, v)
    ensures Inv(e, Pushed(t, v), active + {v})
    ensures |Pushed(t, v).stack| == |t.stack| + 1 && t.stack <= Pushed(t, v).stack && Pushed(t, v).stack[|t.stack|] == v
  {
    hide Reach, Finished, LowsOk, Anchored, Linked, Ordered, NoEscape, GraphOk;
    OnStackFacts(t);
    PushGraph(e, t, active, v);
    PushOrdered(t, v);
    PushLinked(e, t, active, v);
    PushAnchored(e, t, active, v);
    PushLows(e, t, v);
    PushFinished(e, t, v);
  }

  // ----- following one edge of the active node v -----

  ghost function Lowered(t: Search, v: Node, w: Node): Search
    requires v in t.low && w in t.low
  {
    t.(low := t.low[v := if t.low[w] < t.low[v] then t.low[w] else t.low[v]])
  }

  /** Taking over the low link of a successor keeps the low links sound. */
  lemma LowerLows(e: Succs, t: Search, v: Node, w: Node)
    requires LowsOk(e, t) && v in t.low && w in t.low && v in e && w in e[v] && v in t.onStack && v in t.index
    requires w in t.onStack || t.low[w] > t.index[v]
    ensures LowsOk(e, Lowered(t, v, w))
  {
    hide Reach;
    var t' := Lowered(t, v, w);
    forall x | x in t'.onStack
      ensures LowOk(e, t', x)
    {
      assert LowOk(e, t, x);
      var y :| LowIs(e, t, x, y);
      if x == v && t'.low[v] != t.low[v] {
        assert LowOk(e, t, w);
        var z :| LowIs(e, t, w, z);
        ReachStep(e, v, w);
        ReachTrans(e, v, w, z);
        assert LowIs(e, t', v, z);
      } else {
        assert LowIs(e, t', x, y);
      }
    }
  }

  lemma LowerInv(e: Succs, t: Search, active: set<Node>, v: Node, w: Node)
    requires Inv(e, t, active) && v in active && v in e && w in e[v] && v in t.low && w in t.low && v in t.index
    requires w in t.onStack || t.low[w] > t.index[v]
    ensures Inv(e, Lowered(t, v, w), active)
  {
    hide Reach, LowsOk, Anchored, Linked, Ordered, NoEscape, GraphOk, Finished;
    LowerLows(e, t, v, w);
    LowerRest(e, t, Lowered(t, v, w), active);
  }

  /** Only the low links differ. */
  lemma LowerRest(e: Succs, t: Search, t': Search, active: set<Node>)
    requires t' == t.(low := t'.low) && t'.low.Keys == t.low.Keys
    ensures GraphOk(e, t) ==> GraphOk(e, t')
    ensures Ordered(t) ==> Ordered(t')
    ensures NoEscape(e, t, active) ==> NoEscape(e, t', active)
    ensures Linked(e, t) ==> Linked(e, t')
    ensures Anchored(e, t, active) ==> Anchored(e, t', active)
    ensures Finished(e, t) ==> Finished(e, t')
  {
    hide Reach, IsScc, Closed;
    forall x ensures Seen(t', x) <==> Seen(t, x) { }
    forall x ensures Done(t', x) <==> Done(t, x) { }
    assert DoneSet(t') == DoneSet(t);
    forall y ensures IsAnchored(e, t', active, y) <==> IsAnchored(e, t, active, y) {
      forall a ensures AnchoredBy(e, t', y, a) <==> AnchoredBy(e, t, y, a) { }
    }
  }

  // ----- the end of the visit of v -----

  /** The nodes on the stack from v upwards. */
  ghost function Upper(t: Search, v: Node): set<Node> {
    set x | x in t.onStack && x in t.index && v in t.index && t.index[v] <= t.index[x]
  }

  /** v stands at position base of the stack and the other active nodes below it. */
  ghost predicate AtBase(t: Search, active: set<Node>, v: Node, base: nat) {
    var holds :=
      && base < |t.stack| && t.stack[base] == v && v in t.onStack && v in t.index
      && (forall a :: a in active ==> a in t.onStack && a in t.index && t.index[a] < t.index[v]);
    holds
  }

  ghost function Popped(t: Search, v: Node, base: nat): Search
    requires base <= |t.stack|
  {
    var C := Upper(t, v);
    t.(stack := t.stack[..base], onStack := t.onStack - C, found := if |C| == 1 then t.found else t.found + {C})
  }

  ghost predicate SuccsSeen(e: Succs, t: Search, v: Node) {
    v in e && forall w :: w in e[v] ==> Seen(t, w)
  }

  /** v is not a root: it stays on the stack, anchored by an active node below it. */
  lemma KeepAnchored(e: Succs, t: Search, active: set<Node>, v: Node)
    requires Anchored(e, t, active + {v}) && LowsOk(e, t) && v in t.onStack && v in t.index && v in t.low
    requires t.low[v] < t.index[v]
    ensures Anchored(e, t, active)
  {
    hide Reach;
    assert LowOk(e, t, v);
    var y0 :| LowIs(e, t, v, y0);
    assert IsAnchored(e, t, active + {v}, y0);
    var a0 :| a0 in active + {v} && AnchoredBy(e, t, y0, a0);
    forall y | y in t.onStack
      ensures IsAnchored(e, t, active, y)
    {
      assert IsAnchored(e, t, active + {v}, y);
      var a :| a in active + {v} && AnchoredBy(e, t, y, a);
      if a == v {
        ReachTrans(e, v, y0, a0);
        ReachTrans(e, y, v, a0);
        assert AnchoredBy(e, t, y, a0);
      } else {
        assert AnchoredBy(e, t, y, a);
      }
    }
  }

  lemma KeepInv(e: Succs, t: Search, active: set<Node>, v: Node)
    requires Inv(e, t, active + {v}) && SuccsSeen(e, t, v) && v in t.index && v in t.low
    requires t.low[v] < t.index[v]
    ensures Inv(e, t, active)
  {
    hide Reach, LowsOk, Anchored, Linked, Ordered, GraphOk, Finished;
    KeepAnchored(e, t, active, v);
  }

  /** The nodes from v upwards, together with the finished ones, are closed when v is a root. */
  lemma UpperClosed(e: Succs, t: Search, active: set<Node>, v: Node, base: nat)
    requires Inv(e, t, active + {v}) && SuccsSeen(e, t, v) && AtBase(t, active, v, base)
    requires Covers(e, t, v, {}, t.index[v])
    ensures Closed(e, iset x | Done(t, x) || x in Upper(t, v))
  {
    hide Reach, LowsOk, Anchored, Linked, Ordered, IsScc;
    forall x, y | (Done(t, x) || x in Upper(t, v)) && x in e && y in e[x]
      ensures Done(t, y) || y in Upper(t, v)
    {
      if Done(t, x) {
        assert x in DoneSet(t);
        assert y in DoneSet(t);
      } else {
        SeenOnStack(t, x);
        assert Seen(t, y);
        if y in t.onStack {
          SeenOnStack(t, y);
          assert y !in Upper(t, v) ==> Crosses(e, t, v, x, y);
        }
      }
    }
  }

  lemma SeenOnStack(t: Search, x: Node)
    requires x in t.onStack && Ordered(t)
    ensures Seen(t, x)
  {
    assert x in t.stack;
  }

  /** When v is a root, every node from v upwards reaches v and is reached from it. */
  lemma UpperReaches(e: Succs, t: Search, active: set<Node>, v: Node, base: nat, x: Node)
    requires Inv(e, t, active + {v}) && SuccsSeen(e, t, v) && AtBase(t, active, v, base)
    requires Covers(e, t, v, {}, t.index[v]) && x in Upper(t, v)
    ensures Reach(e, x, v) && Reach(e, v, x)
  {
    hide Reach, LowsOk, Ordered, IsScc, Finished, GraphOk, Covers, NoEscape, SuccsSeen, Closed;
    UpperClosed(e, t, active, v, base);
    assert IsAnchored(e, t, active + {v}, x);
    var a :| a in active + {v} && AnchoredBy(e, t, x, a);
    ClosedReach(e, (iset z | Done(t, z) || z in Upper(t, v)), x, a);
  }

  /** When v is a root, the nodes from v upwards form a component. */
  lemma UpperIsScc(e: Succs, t: Search, active: set<Node>, v: Node, base: nat)
    requires Inv(e, t, active + {v}) && SuccsSeen(e, t, v) && AtBase(t, active, v, base)
    requires Covers(e, t, v, {}, t.index[v])
    ensures IsScc(e, Upper(t, v))
  {
    hide Inv, Reach, AtBase, Covers, SuccsSeen, Closed;
    UpperClosed(e, t, active, v, base);
    var C := Upper(t, v);
    assert v in C by { BaseInUpper(t, active, v, base); }
    forall x, y | x in C
      ensures y in C <==> Reach(e, x, y) && Reach(e, y, x)
    {
      UpperReaches(e, t, active, v, base, x);
      if y in C {
        UpperReaches(e, t, active, v, base, y);
        ReachTrans(e, x, v, y);
        ReachTrans(e, y, v, x);
      } else if Reach(e, x, y) && Reach(e, y, x) {
        ClosedReach(e, (iset z | Done(t, z) || z in Upper(t, v)), x, y);
        DoneClosed(e, t, active + {v});
        ClosedReach(e, DoneSet(t), y, x);
      }
    }
  }

  lemma BaseInUpper(t: Search, active: set<Node>, v: Node, base: nat)
    requires AtBase(t, active, v, base)
    ensures v in Upper(t, v)
  {
  }

  lemma DoneClosed(e: Succs, t: Search, active: set<Node>)
    requires Inv(e, t, active)
    ensures Closed(e, DoneSet(t))
  {
  }

  lemma PopOrdered(t: Search, active: set<Node>, v: Node, base: nat)
    requires Ordered(t) && AtBase(t, active, v, base)
    ensures Ordered(Popped(t, v, base))
    ensures forall x :: x in Popped(t, v, base).onStack <==> x in t.onStack && x in t.index && t.index[x] < t.index[v]
    ensures active <= Popped(t, v, base).onStack
  {
    var t' := Popped(t, v, base);
    forall x
      ensures x in t'.onStack <==> x in t'.stack
      ensures x in t'.onStack <==> x in t.onStack && x in t.index && t.index[x] < t.index[v]
    {
      if x in t.onStack {
        var i :| 0 <= i < |t.stack| && t.stack[i] == x;
        assert Seen(t, x);
        if i < base {
          assert t'.stack[i] == x;
        }
      }
      if x in t'.stack {
        var i :| 0 <= i < base && t.stack[i] == x;
        assert Seen(t, x);
      }
    }
    forall x ensures Seen(t', x) <==> Seen(t, x) { }
  }

  lemma PopAnchored(e: Succs, t: Search, t': Search, active: set<Node>, v: Node)
    requires Anchored(e, t, active + {v}) && v in t.index && t'.index == t.index
    requires forall x :: x in t'.onStack <==> x in t.onStack && x in t.index && t.index[x] < t.index[v]
    ensures Anchored(e, t', active)
  {
    hide Reach;
    forall y | y in t'.onStack
      ensures IsAnchored(e, t', active, y)
    {
      assert IsAnchored(e, t, active + {v}, y);
      var a :| a in active + {v} && AnchoredBy(e, t, y, a);
      assert AnchoredBy(e, t', y, a);
    }
  }

  lemma PopLows(e: Succs, t: Search, t': Search, v: Node)
    requires LowsOk(e, t) && v in t.index && t'.index == t.index && t'.low == t.low
    requires forall x :: x in t'.onStack <==> x in t.onStack && x in t.index && t.index[x] < t.index[v]
    ensures LowsOk(e, t')
  {
    hide Reach;
    forall x | x in t'.onStack
      ensures LowOk(e, t', x)
    {
      assert LowOk(e, t, x);
      var y :| LowIs(e, t, x, y);
      assert LowIs(e, t', x, y);
    }
  }

  lemma PopFinished(e: Succs, t: Search, t': Search, C: set<Node>)
    requires Finished(e, t) && IsScc(e, C) && t'.index == t.index
    requires Closed(e, iset x | Done(t, x) || x in C)
    requires forall x :: Done(t', x) <==> Done(t, x) || x in C
    requires forall x :: x in C ==> !Done(t, x)
    requires t'.found == if |C| == 1 then t.found else t.found + {C}
    ensures Finished(e, t')
  {
    hide Reach, IsScc, Done;
    assert DoneSet(t') == iset x | Done(t, x) || x in C;
    assert |C| != 0 by { SccNotEmpty(e, C); }
    forall K
      ensures K in t'.found <==> IsScc(e, K) && |K| >= 2 && forall x :: x in K ==> Done(t', x)
    {
      if IsScc(e, K) && |K| >= 2 && (forall x :: x in K ==> Done(t', x)) && K !in t.found {
        var x :| x in K && !Done(t, x);
        SccsEqual(e, K, C, x);
      }
    }
  }

  lemma SccNotEmpty(e: Succs, C: set<Node>)
    requires IsScc(e, C)
    ensures C != {} && |C| != 0
  {
  }

  /** v is a root: the nodes from v upwards are a component and leave the stack. */
  lemma PopInv(e: Succs, t: Search, active: set<Node>, v: Node, base: nat)
    requires Inv(e, t, active + {v}) && SuccsSeen(e, t, v) && AtBase(t, active, v, base)
    requires Covers(e, t, v, {}, t.index[v])
    ensures Inv(e, Popped(t, v, base), active)
  {
    hide Reach, LowsOk, Anchored, Linked, Ordered, GraphOk, Finished, Covers, IsScc, NoEscape;
    var t' := Popped(t, v, base);
    PopOrdered(t, active, v, base);
    UpperClosed(e, t, active, v, base);
    UpperIsScc(e, t, active, v, base);
    forall x
      ensures Done(t', x) <==> Done(t, x) || x in Upper(t, v)
      ensures x in Upper(t, v) ==> !Done(t, x)
    {
      if x in t.onStack { SeenOnStack(t, x); }
    }
    PopFinished(e, t, t', Upper(t, v));
    PopAnchored(e, t, t', active, v);
    PopLows(e, t, t', v);
    PopRest(e, t, t', active, v);
  }

  lemma PopRest(e: Succs, t: Search, t': Search, active: set<Node>, v: Node)
    requires GraphOk(e, t) && NoEscape(e, t, active + {v}) && SuccsSeen(e, t, v) && Linked(e, t)
    requires t'.index == t.index && t'.low == t.low && t'.onStack <= t.onStack
    ensures GraphOk(e, t') && NoEscape(e, t', active) && Linked(e, t')
  {
    hide Reach;
    forall x, y | Seen(t', x) && x !in active && x in e && y in e[x]
      ensures Seen(t', y)
    {
      assert Seen(t, x) && Seen(t, y);
    }
  }

  // ----- the numbers that a visit leaves alone, and the edges it has covered -----

  lemma PushExtends(t: Search, v: Node)
    requires Ordered(t) && !Seen(t, v) && forall x :: Seen(t, x) ==> x in t.low
    ensures Extends(t, Pushed(t, v))
  {
    forall x | Done(t, x) ensures Done(Pushed(t, v), x) { assert Seen(t, x); }
  }

  lemma LowerExtends(t0: Search, t: Search, v: Node, w: Node)
    requires Extends(t0, t) && !Seen(t0, v) && v in t.low && w in t.low
    ensures Extends(t0, Lowered(t, v, w))
  {
    forall x | Done(t0, x) ensures Done(Lowered(t, v, w), x) { assert Done(t, x); }
    forall x | Seen(t0, x) ensures Seen(Lowered(t, v, w), x) { assert Seen(t, x); }
  }

  lemma PopExtends(t0: Search, t: Search, v: Node)
    requires Extends(t0, t) && |t0.stack| <= |t.stack|
    ensures Extends(t0, Popped(t, v, |t0.stack|))
  {
    forall x | Done(t0, x) ensures Done(Popped(t, v, |t0.stack|), x) { assert Done(t, x); }
    forall x | Seen(t0, x) ensures Seen(Popped(t, v, |t0.stack|), x) { assert Seen(t, x); }
  }

  lemma ExtendsTrans(t0: Search, t1: Search, t2: Search)
    requires Extends(t0, t1) && Extends(t1, t2)
    ensures Extends(t0, t2)
  {
    forall x | Seen(t0, x)
      ensures Seen(t2, x) && t2.index[x] == t0.index[x] && x in t2.low && t2.low[x] == t0.low[x]
    {
      assert Seen(t1, x);
    }
    forall x | Done(t0, x) ensures Done(t2, x) { assert Done(t1, x); }
  }

  lemma CoverBegins(e: Succs, t: Search, v: Node)
    requires Ordered(t) && !Seen(t, v) && v in e
    ensures Covers(e, Pushed(t, v), v, e[v], t.next)
  {
    OnStackFacts(t);
  }

  /** After a visit of the successor w the edges of v to w and the edges of the new nodes are covered. */
  lemma CoverCall(e: Succs, t: Search, t': Search, v: Node, w: Node, todo: set<Node>)
    requires Ordered(t) && Ordered(t') && Extends(t, t') && !Seen(t, w) && v in t.onStack
    requires v in t.low && v in t'.low && w in t'.low && w in t'.index && t'.index[w] == t.next
    requires Covers(e, t, v, todo, t.low[v]) && Covers(e, t', w, {}, t'.low[w])
    ensures Covers(e, Lowered(t', v, w), v, todo - {w}, Lowered(t', v, w).low[v])
  {
    hide Ordered, Covers, Extends;
    OnStackFacts(t);
    var t'' := Lowered(t', v, w);
    forall x, y | Crosses(e, t'', v, x, y) && (x != v || y !in todo - {w})
      ensures t''.low[v] <= t''.index[y]
    {
      CoverOneCall(e, t, t', v, w, todo, x, y);
    }
    CoversIntro(e, t'', v, todo - {w}, t''.low[v]);
  }

  lemma CoversIntro(e: Succs, t: Search, v: Node, todo: set<Node>, lim: int)
    requires forall x, y :: Crosses(e, t, v, x, y) && (x != v || y !in todo) ==> lim <= t.index[y]
    ensures Covers(e, t, v, todo, lim)
  {
  }

  lemma OldOnStack(t: Search, t': Search, y: Node)
    requires Extends(t, t') && Ordered(t') && y in t'.onStack && y in t'.index && t'.index[y] < t.next
    ensures y in t.onStack && y in t.index && t'.index[y] == t.index[y]
  {
    SeenOnStack(t', y);
    assert Seen(t, y);
    assert Done(t, y) ==> Done(t', y);
  }

  lemma OnStackKept(t: Search, t': Search, v: Node)
    requires Ordered(t) && Extends(t, t') && v in t.onStack
    ensures v in t.index && v in t'.index && t'.index[v] == t.index[v] && v in t.low && v in t'.low
    ensures t'.low[v] == t.low[v]
    ensures v in t'.onStack ==> t.index[v] < t.next
  {
    SeenOnStack(t, v);
  }

  lemma CoverOneCall(e: Succs, t: Search, t': Search, v: Node, w: Node, todo: set<Node>, x: Node, y: Node)
    requires Ordered(t) && Ordered(t') && Extends(t, t') && !Seen(t, w) && v in t.onStack
    requires v in t.low && v in t'.low && w in t'.low && w in t'.index && t'.index[w] == t.next
    requires Covers(e, t, v, todo, t.low[v]) && Covers(e, t', w, {}, t'.low[w])
    requires Crosses(e, t', v, x, y) && (x != v || y !in todo - {w})
    ensures Lowered(t', v, w).low[v] <= t'.index[y]
  {
    hide Ordered, Extends;
    OnStackFacts(t);
    OnStackKept(t, t', v);
    if t'.index[x] < t.next {
      OldOnStack(t, t', x);
      OldOnStack(t, t', y);
      assert Crosses(e, t, v, x, y);
    } else {
      assert Crosses(e, t', w, x, y);
    }
  }

  /** A successor already on the stack covers the edge to it. */
  lemma CoverOnStack(e: Succs, t: Search, v: Node, w: Node, todo: set<Node>)
    requires LowsOk(e, t) && w in t.onStack && v in t.low && w in t.low && Covers(e, t, v, todo, t.low[v])
    ensures Covers(e, Lowered(t, v, w), v, todo - {w}, Lowered(t, v, w).low[v])
  {
    hide Reach;
    assert LowOk(e, t, w);
    forall x, y | Crosses(e, Lowered(t, v, w), v, x, y) && (x != v || y !in todo - {w})
      ensures Lowered(t, v, w).low[v] <= t.index[y]
    {
      assert Crosses(e, t, v, x, y);
    }
  }

  /** A successor that has left the stack needs no cover. */
  lemma CoverOffStack(e: Succs, t: Search, v: Node, w: Node, todo: set<Node>)
    requires w !in t.onStack && v in t.low && Covers(e, t, v, todo, t.low[v])
    ensures Covers(e, t, v, todo - {w}, t.low[v])
  {
  }

  lemma CoverPopped(e: Succs, t: Search, active: set<Node>, v: Node, base: nat)
    requires Ordered(t) && AtBase(t, active, v, base)
    ensures v in t.low ==> Covers(e, Popped(t, v, base), v, {}, t.low[v])
    ensures v !in Popped(t, v, base).onStack
  {
    PopOrdered(t, active, v, base);
  }

  /** The nodes popped by the loop are those from v upwards. */
  lemma SuffixIsUpper(t: Search, active: set<Node>, v: Node, base: nat)
    requires Ordered(t) && AtBase(t, active, v, base)
    ensures (set x | x in t.stack[base..]) == Upper(t, v)
  {
    forall x
      ensures x in t.stack[base..] <==> x in Upper(t, v)
    {
      if x in t.stack[base..] {
        var i :| base <= i < |t.stack| && t.stack[i] == x;
        assert Seen(t, x);
      }
      if x in Upper(t, v) {
        var i :| 0 <= i < |t.stack| && t.stack[i] == x;
        assert i >= base;
        assert t.stack[base..][i - base] == x;
      }
    }
  }
}
