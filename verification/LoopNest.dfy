/** The nest of loops found by taking out the headers of the components and searching again. */
module LoopNest {
  import opened Components
  import opened Wrappers

  datatype Loop = Loop(header: Node, body: set<Node>)

  /** e' is part of e. */
  ghost predicate SubGraph(e': Succs, e: Succs) {
    forall x :: x in e' ==> x in e && e'[x] <= e[x]
  }

  lemma {:induction false} SubTrail(e': Succs, e: Succs, x: Node, p: Trail, y: Node)
    requires SubGraph(e', e) && IsTrail(e', x, p, y)
    ensures IsTrail(e, x, p, y)
    decreases p
  {
    if p.Hop? { SubTrail(e', e, p.via, p.rest, y); }
  }

  lemma SubReach(e': Succs, e: Succs, x: Node, y: Node)
    requires SubGraph(e', e) && Reach(e', x, y)
    ensures Reach(e, x, y)
  {
    var p :| IsTrail(e', x, p, y);
    SubTrail(e', e, x, p, y);
  }

  /** Every node that lies on a common cycle of e with a node of C is in C. */
  ghost predicate Absorbs(e: Succs, C: set<Node>) {
    forall x, y :: x in C && Reach(e, x, y) && Reach(e, y, x) ==> y in C
  }

  lemma SccAbsorbs(e: Succs, C: set<Node>)
    requires IsScc(e, C)
    ensures Absorbs(e, C)
  {
    hide Reach;
  }

  lemma SubAbsorbs(e': Succs, e: Succs, C: set<Node>)
    requires SubGraph(e', e) && Absorbs(e, C)
    ensures Absorbs(e', C)
  {
    hide Reach;
    forall x, y | x in C && Reach(e', x, y) && Reach(e', y, x)
      ensures y in C
    {
      SubReach(e', e, x, y);
      SubReach(e', e, y, x);
    }
  }

  /** A component that meets an absorbing set lies in it. */
  lemma SccInside(e: Succs, C: set<Node>, D: set<Node>, x: Node)
    requires Absorbs(e, C) && IsScc(e, D) && x in C && x in D
    ensures D <= C
  {
    hide Reach;
    forall y | y in D ensures y in C { }
  }

  /** Two loops are disjoint, or the later one lies inside the earlier one and avoids its header. */
  ghost predicate Nested(outer: Loop, inner: Loop) {
    inner.body !! outer.body || inner.body <= outer.body - {outer.header}
  }

  /** All loops found so far form a laminar family. */
  ghost predicate Laminar(loops: seq<Loop>) {
    forall i, j :: 0 <= i < j < |loops| ==> Nested(loops[i], loops[j])
  }

  ghost predicate StronglyConnected(e: Succs, C: set<Node>) {
    forall x, y :: x in C && y in C ==> Reach(e, x, y)
  }

  /** An edge of the function leads into C from outside. */
  ghost predicate Entered(e: Succs, C: set<Node>, n: Node) {
    n in C && exists u :: u in e && u !in C && n in e[u]
  }

  /** What every loop found in the control-flow graph e0 satisfies. */
  ghost predicate LoopOk(e0: Succs, l: Loop) {
    l.header in l.body && |l.body| >= 2 && l.body <= e0.Keys && StronglyConnected(e0, l.body) &&
        Entered(e0, l.body, l.header)
  }

  ghost predicate SuccsLive(e0: Succs, succs: Succs, live: set<Node>) {
    forall x, y {:trigger y in succs[x]} :: x in live && x in succs && x in e0 ==>
                                              (y in succs[x] <==> y in live && y in e0[x])
  }

  ghost predicate PredsLive(e0: Succs, preds: Succs, live: set<Node>) {
    forall x, y :: y in live && y in preds ==> (x in preds[y] <==> x in live && x in e0 && y in e0[x])
  }

  ghost predicate HeadersKeep(e0: Succs, succs: Succs, live: set<Node>, headers: set<Node>) {
    forall h, y :: h in headers && h in succs && h in e0 && y in live ==> (y in succs[h] <==> y in e0[h])
  }

  /** The live nodes keep the edges among them; the headers taken out keep theirs to live nodes. */
  ghost predicate Peeled(e0: Succs, succs: Succs, preds: Succs, live: set<Node>, headers: set<Node>) {
    var holds :=
      && succs.Keys == e0.Keys && preds.Keys == e0.Keys && e0.Keys == live + headers && live !! headers
      && SuccsLive(e0, succs, live) && PredsLive(e0, preds, live) && HeadersKeep(e0, succs, live, headers);
    holds
  }

  /** The graph that one round of the component search sees. */
  ghost function LiveGraph(succs: Succs, live: set<Node>): Succs {
    map x | x in succs && x in live :: succs[x]
  }

  lemma LiveIsSub(e0: Succs, succs: Succs, preds: Succs, live: set<Node>, headers: set<Node>)
    requires Peeled(e0, succs, preds, live, headers)
    ensures SubGraph(LiveGraph(succs, live), e0) && LiveGraph(succs, live).Keys == live
    ensures forall x, y :: x in LiveGraph(succs, live) && y in LiveGraph(succs, live)[x] ==> y in LiveGraph(succs, live)
  {
    var e := LiveGraph(succs, live);
    assert SuccsLive(e0, succs, live);
    forall x | x in e
      ensures x in e0 && e[x] <= e0[x] && e[x] <= live
    {
      forall y | y in e[x] ensures y in e0[x] && y in live { assert x in e0.Keys && x in live && y in succs[x]; }
    }
  }

  lemma SccConnected(e: Succs, e0: Succs, C: set<Node>)
    requires SubGraph(e, e0) && IsScc(e, C)
    ensures StronglyConnected(e0, C)
  {
    hide Reach;
    forall x, y | x in C && y in C
      ensures Reach(e0, x, y)
    {
      SubReach(e, e0, x, y);
    }
  }

  /** A set that some node outside it reaches is entered by an edge. */
  lemma {:induction false} ReachedIsEntered(e: Succs, C: set<Node>, x: Node, p: Trail, y: Node)
    requires IsTrail(e, x, p, y) && x !in C && y in C
    ensures exists n :: Entered(e, C, n)
    decreases p
  {
    var v := p.via;
    if v in C {
      assert Entered(e, C, v);
    } else {
      ReachedIsEntered(e, C, v, p.rest, y);
    }
  }

  /** A component of two or more nodes gives each of its nodes a predecessor. */
  lemma SccHasPred(e: Succs, C: set<Node>, x: Node)
    requires IsScc(e, C) && |C| >= 2 && x in C
    ensures exists u :: u in e && x in e[u]
  {
    assert |C - {x}| == |C| - 1;
    var y :| y in C - {x};
    assert Reach(e, y, x);
    var p :| IsTrail(e, y, p, x);
    LastEdge(e, y, p, x);
  }

  lemma {:induction false} LastEdge(e: Succs, x: Node, p: Trail, y: Node)
    requires IsTrail(e, x, p, y) && x != y
    ensures exists u :: u in e && y in e[u]
    decreases p
  {
    if p.via != y { LastEdge(e, p.via, p.rest, y); }
  }

  /** Every component that does not hold the entry is entered from outside. */
  lemma ComponentEntered(e0: Succs, entry: Node, C: set<Node>)
    requires forall x :: x in C ==> Reach(e0, entry, x)
    requires C != {} && entry !in C
    ensures exists n :: Entered(e0, C, n)
  {
    var y :| y in C;
    assert Reach(e0, entry, y);
    var p :| IsTrail(e0, entry, p, y);
    ReachedIsEntered(e0, C, entry, p, y);
  }

  /** An entry without predecessors lies in no component of two or more nodes. */
  lemma EntryOutside(e0: Succs, entry: Node, e: Succs, C: set<Node>)
    requires SubGraph(e, e0) && IsScc(e, C) && |C| >= 2 && C <= e0.Keys && Rooted(e0, entry)
    ensures entry !in C && forall x :: x in C ==> Reach(e0, entry, x)
  {
    hide IsScc, Reach;
    if entry in C {
      SccHasPred(e, C, entry);
    }
  }

  /** What the loops found before a round satisfy; e is the graph of the round. */
  ghost predicate Nest(e0: Succs, e: Succs, loops: seq<Loop>, headers: set<Node>) {
    var holds :=
      && Laminar(loops)
      && (forall i :: 0 <= i < |loops| ==>
                        LoopOk(e0, loops[i]) && Absorbs(e, loops[i].body) && loops[i].header in headers);
    holds
  }

  /** Within a round the loops from position k on are components of its graph that have been handled. */
  ghost predicate InRound(e0: Succs, e: Succs, loops: seq<Loop>, headers: set<Node>, k: nat, todo: set<set<Node>>) {
    var holds :=
      && k <= |loops| && Nest(e0, e, loops, headers)
      && (forall i :: 0 <= i < k ==> loops[i].header !in e)
      && (forall i :: k <= i < |loops| ==> IsScc(e, loops[i].body) && loops[i].body !in todo)
      && (forall C :: C in todo ==> IsScc(e, C) && |C| >= 2 && C <= e.Keys);
    holds
  }

  /** found holds exactly the strongly connected components of two or more nodes. */
  ghost predicate AreComponents(e: Succs, found: set<set<Node>>) {
    forall C :: C in found <==> IsScc(e, C) && |C| >= 2 && C <= e.Keys
  }

  lemma RoundBegins(e0: Succs, e: Succs, loops: seq<Loop>, headers: set<Node>, todo: set<set<Node>>)
    requires Nest(e0, e, loops, headers) && e.Keys !! headers
    requires AreComponents(e, todo)
    ensures InRound(e0, e, loops, headers, |loops|, todo) && AllInside(todo, e.Keys)
  {
    hide IsScc, LoopOk, Absorbs, Laminar;
  }

  /** Recording one component of the round with its header keeps the family laminar. */
  lemma RoundStep(e0: Succs, e: Succs, loops: seq<Loop>, headers: set<Node>, k: nat, todo: set<set<Node>>, C: set<Node>,
      h: Node)
    requires SubGraph(e, e0) && InRound(e0, e, loops, headers, k, todo) && C in todo && Entered(e0, C, h)
    ensures InRound(e0, e, loops + [Loop(h, C)], headers + {h}, k, todo - {C})
  {
    hide IsScc, Absorbs;
    var all := loops + [Loop(h, C)];
    SccAbsorbs(e, C);
    SccConnected(e, e0, C);
    forall i | 0 <= i < |loops|
      ensures Nested(loops[i], Loop(h, C))
    {
      if exists x :: x in C && x in loops[i].body {
        var x :| x in C && x in loops[i].body;
        if i < k {
          SccInside(e, loops[i].body, C, x);
        } else {
          SccsEqual(e, C, loops[i].body, x);
        }
      }
    }
    forall i, j | 0 <= i < j < |all|
      ensures Nested(all[i], all[j])
    {
      if j < |loops| { assert Nested(loops[i], loops[j]); }
    }
  }

  lemma RoundEnds(e0: Succs, e: Succs, e': Succs, loops: seq<Loop>, headers: set<Node>, k: nat)
    requires InRound(e0, e, loops, headers, k, {}) && SubGraph(e', e)
    ensures Nest(e0, e', loops, headers)
  {
    hide IsScc, Absorbs, Laminar, LoopOk, SubGraph;
    forall i | 0 <= i < |loops| ensures Absorbs(e', loops[i].body) { SubAbsorbs(e', e, loops[i].body); }
  }

  lemma PeeledKeys(e0: Succs, succs: Succs, preds: Succs, live: set<Node>, headers: set<Node>, h: Node)
    requires Peeled(e0, succs, preds, live, headers) && h in live
    ensures succs.Keys == e0.Keys && preds.Keys == e0.Keys && h in e0
    ensures succs[h] <= preds.Keys && preds[h] <= succs.Keys
  {
    forall y | y in succs[h] ensures y in preds { assert y in live; }
    forall y | y in preds[h] ensures y in succs { assert y in live; }
  }

  /** Erasing h: its successors lose it as predecessor, then its predecessors as successor. */
  ghost predicate Erased(succs0: Succs, preds0: Succs, h: Node, succs: Succs, preds: Succs) {
    var holds :=
      && succs.Keys == succs0.Keys && preds.Keys == preds0.Keys && h in succs0 && h in preds
      && (forall s :: s in preds ==> preds[s] == if s in succs0[h] then preds0[s] - {h} else preds0[s])
      && (forall p :: p in succs ==> succs[p] == if p in preds[h] then succs0[p] - {h} else succs0[p]);
    holds
  }

  /** Exactly the live predecessors of h, and h itself only as long as it has no edge to itself, lose a successor. */
  lemma ErasedFrom(e0: Succs, succs0: Succs, preds0: Succs, live: set<Node>, headers: set<Node>, h: Node, succs: Succs,
      preds: Succs, x: Node)
    requires Peeled(e0, succs0, preds0, live, headers) && h in live && Erased(succs0, preds0, h, succs, preds)
    requires x in e0
    ensures x in live && x != h ==> succs[x] == succs0[x] - {h}
    ensures x !in live ==> succs[x] == succs0[x]
    ensures x == h ==> succs[x] <= succs0[x] && succs0[x] - {h} <= succs[x]
    ensures x in live && x != h ==> preds[x] == preds0[x] - {h}
  {
    assert x in preds0[h] <==> x in live && h in e0[x];
    assert h in succs0[x] && x in live <==> x in live && h in e0[x];
    assert x in succs0[h] <==> x in live && x in e0[h];
    assert x in live && h in preds0[x] <==> x in live && x in e0[h];
  }

  /** Erasing h from the predecessors of its successors and the successors of its predecessors takes it out. */
  lemma PeeledStep(e0: Succs, succs0: Succs, preds0: Succs, live: set<Node>, headers: set<Node>, h: Node, succs: Succs,
      preds: Succs)
    requires Peeled(e0, succs0, preds0, live, headers) && h in live && Erased(succs0, preds0, h, succs, preds)
    ensures Peeled(e0, succs, preds, live - {h}, headers + {h})
  {
    assert succs.Keys == succs0.Keys && preds.Keys == preds0.Keys;
    hide Erased;
    forall x | x in e0
      ensures x in live && x != h ==> succs[x] == succs0[x] - {h}
      ensures x !in live ==> succs[x] == succs0[x]
      ensures x == h ==> succs[x] <= succs0[x] && succs0[x] - {h} <= succs[x]
      ensures x in live && x != h ==> preds[x] == preds0[x] - {h}
    {
      ErasedFrom(e0, succs0, preds0, live, headers, h, succs, preds, x);
    }
  }

  lemma NestBegins(e0: Succs, e: Succs)
    ensures Nest(e0, e, [], {}) && LastHeader([], map[]) && HeadersOf([]) == {}
  {
  }

  /** The components of the round that remain do not contain the header taken out of C. */
  lemma OthersStayLive(e0: Succs, e: Succs, loops: seq<Loop>, headers: set<Node>, k: nat, todo: set<set<Node>>,
      C: set<Node>, h: Node, live: set<Node>)
    requires InRound(e0, e, loops, headers, k, todo) && C in todo && h in C
    requires AllInside(todo, live)
    ensures AllInside(todo - {C}, live - {h})
  {
    hide IsScc, Nest;
    forall D | D in todo - {C}
      ensures h !in D
    {
      if h in D { SccsEqual(e, C, D, h); }
    }
  }

  lemma TodoComponent(e0: Succs, e: Succs, loops: seq<Loop>, headers: set<Node>, k: nat, todo: set<set<Node>>,
      C: set<Node>)
    requires InRound(e0, e, loops, headers, k, todo) && C in todo
    ensures IsScc(e, C) && |C| >= 2 && C <= e.Keys
  {
    hide IsScc, Nest;
  }

  lemma NestLaminar(e0: Succs, e: Succs, loops: seq<Loop>, headers: set<Node>)
    requires Nest(e0, e, loops, headers)
    ensures Laminar(loops) && forall i :: 0 <= i < |loops| ==> LoopOk(e0, loops[i])
  {
    hide Laminar, LoopOk, Absorbs;
  }

  /** The graph only shrinks while headers are taken out. */
  lemma LiveShrinks(e0: Succs, succs: Succs, preds: Succs, live: set<Node>, headers: set<Node>, succs': Succs,
      preds': Succs, live': set<Node>, headers': set<Node>)
    requires Peeled(e0, succs, preds, live, headers) && Peeled(e0, succs', preds', live', headers') && live' <= live
    ensures SubGraph(LiveGraph(succs', live'), LiveGraph(succs, live))
  {
    var e, e' := LiveGraph(succs, live), LiveGraph(succs', live');
    forall x | x in e'
      ensures x in e && e'[x] <= e[x]
    {
      forall y | y in e'[x] ensures y in e[x] {
        assert x in live' && y in succs'[x];
        assert y in live && y in e0[x];
      }
    }
  }

  /** header maps each node of a loop to the header of the last loop found that holds it. */
  ghost predicate LastHeader(loops: seq<Loop>, header: map<Node, Node>) {
    && (forall i, b :: 0 <= i < |loops| && b in loops[i].body ==> b in header)
    && (forall b :: b in header ==> IsLast(loops, b, header[b]))
  }

  ghost predicate IsLast(loops: seq<Loop>, b: Node, h: Node) {
    exists i ::
      && 0 <= i < |loops| && b in loops[i].body && loops[i].header == h
      && forall j :: i < j < |loops| ==> b !in loops[j].body
  }

  lemma LastHeaderStep(loops: seq<Loop>, header: map<Node, Node>, l: Loop)
    requires LastHeader(loops, header)
    ensures LastHeader(loops + [l], map b | b in header.Keys + l.body :: if b in l.body then l.header else header[b])
  {
    var all := loops + [l];
    var header' := map b | b in header.Keys + l.body :: if b in l.body then l.header else header[b];
    forall b | b in header'
      ensures IsLast(all, b, header'[b])
    {
      if b in l.body {
        assert all[|loops|] == l;
      } else {
        var i :| 0 <= i < |loops| && b in loops[i].body && loops[i].header == header[b] &&
            forall j :: i < j < |loops| ==> b !in loops[j].body;
        assert all[i] == loops[i];
      }
    }
    forall i, b | 0 <= i < |all| && b in all[i].body
      ensures b in header'
    {
      if i < |loops| { assert all[i] == loops[i]; }
    }
  }

  /** In a laminar family the last loop that holds a node is the innermost one. */
  lemma LastIsInnermost(loops: seq<Loop>, b: Node, h: Node)
    requires Laminar(loops) && IsLast(loops, b, h)
    ensures exists i ::
              && 0 <= i < |loops| && b in loops[i].body && loops[i].header == h
              && forall j :: 0 <= j < |loops| && b in loops[j].body ==> loops[i].body <= loops[j].body
  {
    var i :| 0 <= i < |loops| && b in loops[i].body && loops[i].header == h &&
    forall j :: i < j < |loops| ==> b !in loops[j].body;
    forall j | 0 <= j < |loops| && b in loops[j].body
      ensures loops[i].body <= loops[j].body
    {
      if j < i { assert Nested(loops[j], loops[i]); }
    }
  }

  lemma EnteredInside(e: Succs, C: set<Node>, n: Node)
    requires Entered(e, C, n)
    ensures n in C
  {
  }

  ghost function HeadersOf(loops: seq<Loop>): set<Node> {
    set l | l in loops :: l.header
  }

  lemma HeadersStep(loops: seq<Loop>, l: Loop)
    ensures HeadersOf(loops + [l]) == HeadersOf(loops) + {l.header}
  {
    var all := loops + [l];
    assert l in all;
    forall m | m in loops ensures m in all { }
  }

  ghost predicate AllInside(todo: set<set<Node>>, live: set<Node>) {
    forall D :: D in todo ==> D <= live
  }

  /** The function's graph: every block is reachable and the entry has no predecessor. */
  ghost predicate Rooted(e0: Succs, entry: Node) {
    (forall x :: x in e0 ==> Reach(e0, entry, x)) && forall u :: u in e0 ==> entry !in e0[u]
  }

  lemma PeeledInside(e0: Succs, succs: Succs, preds: Succs, live: set<Node>, headers: set<Node>)
    requires Peeled(e0, succs, preds, live, headers)
    ensures live == e0.Keys - headers && headers <= e0.Keys && succs.Keys == e0.Keys
  {
  }
}
