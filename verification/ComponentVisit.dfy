/** The visit of one node, from its push to the moment it is kept or popped. */
module ComponentVisit {
  import opened Components
  import opened ComponentSearch

  /** v was pushed in state t0 and its successors outside todo have been followed. */
  ghost predicate Visiting(e: Succs, t0: Search, t: Search, active: set<Node>, v: Node, todo: set<Node>) {
    var holds :=
      && Inv(e, t, active + {v}) && Extends(t0, t) && v in e && !Seen(t0, v) && Seen(t, v)
      && v in t.onStack && v in t.low && t.index[v] == t0.next
      && |t0.stack| < |t.stack| && t0.stack <= t.stack && t.stack[|t0.stack|] == v
      && Ordered(t0) && active <= t0.onStack
      && (forall w :: w in e[v] && w !in todo ==> Seen(t, w))
      && Covers(e, t, v, todo, t.low[v]);
    holds
  }

  lemma InvParts(e: Succs, t: Search, active: set<Node>)
    requires Inv(e, t, active)
    ensures Ordered(t) && active <= t.onStack && LowsOk(e, t) && t.index.Keys == e.Keys && t.low.Keys == e.Keys
    ensures 0 <= t.next && forall x, y :: x in e && y in e[x] ==> y in e
    ensures forall x :: Seen(t, x) ==> x in t.low
  {
    hide Reach, Linked, Finished, NoEscape, Anchored;
    OnStackFacts(t);
  }

  lemma VisitBegins(e: Succs, t0: Search, active: set<Node>, v: Node)
    requires Inv(e, t0, active) && v in e && !Seen(t0, v)
    requires forall a :: a in active ==> Reach(e, a, v)
    ensures Visiting(e, t0, Pushed(t0, v), active, v, e[v])
  {
    hide Inv, Reach, Ordered, LowsOk, Extends, Covers;
    InvParts(e, t0, active);
    PushInv(e, t0, active, v);
    PushExtends(t0, v);
    CoverBegins(e, t0, v);
  }

  lemma VisitFacts(e: Succs, t0: Search, t: Search, active: set<Node>, v: Node, todo: set<Node>, w: Node)
    requires Visiting(e, t0, t, active, v, todo) && v in e && w in e[v]
    ensures w in e && w in t.index && w in t.low && v in t.low && v in t.index
  {
    hide Inv, Extends, Covers, Ordered;
    InvParts(e, t, active + {v});
  }

  lemma CallReady(e: Succs, t0: Search, t: Search, active: set<Node>, v: Node, todo: set<Node>, w: Node)
    requires Visiting(e, t0, t, active, v, todo) && v in e && w in e[v]
    requires forall a :: a in active ==> Reach(e, a, v)
    ensures Inv(e, t, active + {v}) && Extends(t0, t) && !Seen(t0, v) && Seen(t, v)
    ensures forall a :: a in active + {v} ==> Reach(e, a, w)
  {
    hide Inv, Extends, Covers, Ordered, Reach;
    ReachStep(e, v, w);
    ReachRefl(e, v);
    forall a | a in active + {v}
      ensures Reach(e, a, w)
    {
      ReachTrans(e, a, v, w);
    }
  }

  lemma ExtendsKeeps(t0: Search, t: Search, v: Node)
    requires Extends(t0, t) && Seen(t0, v)
    ensures Seen(t, v) && t.index[v] == t0.index[v] && v in t.low
    ensures |t0.stack| <= |t.stack| && t0.stack <= t.stack
  {
  }

  lemma CallDone(e: Succs, t0: Search, t: Search, t1: Search, active: set<Node>, v: Node, todo: set<Node>, w: Node)
    requires Visiting(e, t0, t, active, v, todo) && v in e && w in e[v] && !Seen(t, w)
    requires Inv(e, t1, active + {v}) && Extends(t, t1) && Seen(t1, w) && t1.index[w] == t.next
    requires w in t1.low && (w in t1.onStack || t1.low[w] == t1.index[w])
    requires Covers(e, t1, w, {}, t1.low[w])
    ensures v in t1.low && Visiting(e, t0, Lowered(t1, v, w), active, v, todo - {w})
  {
    hide Inv, Extends, Covers, Ordered, LowsOk, Reach;
    InvParts(e, t1, active + {v});
    InvParts(e, t, active + {v});
    ExtendsKeeps(t, t1, v);
    OnStackFacts(t);
    LowerInv(e, t1, active + {v}, v, w);
    ExtendsTrans(t0, t, t1);
    LowerExtends(t0, t1, v, w);
    CoverCall(e, t, t1, v, w, todo);
    forall x | Seen(t, x) ensures Seen(t1, x) { ExtendsKeeps(t, t1, x); }
  }

  lemma OnStackDone(e: Succs, t0: Search, t: Search, active: set<Node>, v: Node, todo: set<Node>, w: Node)
    requires Visiting(e, t0, t, active, v, todo) && v in e && w in e[v] && Seen(t, w) && w in t.onStack && w in t.low
    requires v in t.low
    ensures Visiting(e, t0, Lowered(t, v, w), active, v, todo - {w})
  {
    hide Inv, Extends, Covers, Ordered, LowsOk, Reach;
    InvParts(e, t, active + {v});
    LowerInv(e, t, active + {v}, v, w);
    LowerExtends(t0, t, v, w);
    CoverOnStack(e, t, v, w, todo);
  }

  lemma OffStackDone(e: Succs, t0: Search, t: Search, active: set<Node>, v: Node, todo: set<Node>, w: Node)
    requires Visiting(e, t0, t, active, v, todo) && v in e && w in e[v] && Seen(t, w) && w !in t.onStack
    ensures Visiting(e, t0, t, active, v, todo - {w})
  {
    hide Inv, Extends, Covers, Ordered, Reach;
    CoverOffStack(e, t, v, w, todo);
  }

  lemma VisitPlaces(e: Succs, t0: Search, t: Search, active: set<Node>, v: Node)
    requires Visiting(e, t0, t, active, v, {})
    ensures AtBase(t, active, v, |t0.stack|) && SuccsSeen(e, t, v) && Ordered(t)
    ensures Inv(e, t, active + {v}) && Extends(t0, t) && v in t.low && Covers(e, t, v, {}, t.low[v]) && v in t.index
    ensures t.low[v] <= t.index[v] == t0.next && Seen(t, v) && v in t.onStack
  {
    hide Inv, Extends, Covers, Ordered, LowsOk;
    InvParts(e, t, active + {v});
    OnStackFacts(t0);
    forall a | a in active
      ensures a in t.onStack && a in t.index && t.index[a] < t.index[v]
    {
      assert a in t0.onStack;
      SeenOnStack(t0, a);
      ExtendsKeeps(t0, t, a);
    }
    LowBelowIndex(e, t, v);
  }

  lemma LowBelowIndex(e: Succs, t: Search, v: Node)
    requires LowsOk(e, t) && v in t.onStack && v in t.low && v in t.index
    ensures t.low[v] <= t.index[v]
  {
    assert LowOk(e, t, v);
  }

  /** v is not the root of a component and stays on the stack. */
  lemma VisitKeeps(e: Succs, t0: Search, t: Search, active: set<Node>, v: Node)
    requires Visiting(e, t0, t, active, v, {}) && v in t.low && t.low[v] != t.index[v]
    ensures Inv(e, t, active) && Extends(t0, t) && Covers(e, t, v, {}, t.low[v]) && v in t.onStack
  {
    hide Inv, Extends, Covers, Ordered, LowsOk, AtBase, SuccsSeen, Visiting;
    VisitPlaces(e, t0, t, active, v);
    KeepInv(e, t, active, v);
    BaseInUpper(t, active, v, |t0.stack|);
  }

  /** v is the root of a component, which leaves the stack. */
  lemma VisitPops(e: Succs, t0: Search, t: Search, active: set<Node>, v: Node)
    requires Visiting(e, t0, t, active, v, {}) && v in t.low && t.low[v] == t.index[v]
    ensures |t0.stack| < |t.stack| && t.stack[|t0.stack|] == v
    ensures Upper(t, v) == set x | x in t.stack[|t0.stack|..]
    ensures var t' := Popped(t, v, |t0.stack|); Inv(e, t', active) && Extends(t0, t') && Covers(e, t', v, {}, t.low[v])
  {
    hide Inv, Extends, Covers, Ordered, LowsOk, SuccsSeen, Visiting;
    VisitPlaces(e, t0, t, active, v);
    PopInv(e, t, active, v, |t0.stack|);
    PopExtends(t0, t, v);
    CoverPopped(e, t, active, v, |t0.stack|);
    SuffixIsUpper(t, active, v, |t0.stack|);
  }

  lemma StackDistinct(e: Succs, t0: Search, t: Search, active: set<Node>, v: Node)
    requires Visiting(e, t0, t, active, v, {})
    ensures forall i, j :: 0 <= i < j < |t.stack| ==> t.stack[i] != t.stack[j]
  {
    hide Inv, Extends, Covers;
    InvParts(e, t, active + {v});
  }
}
