/** Loop discovery: strongly connected components of the control-flow graph, found again after the headers
    of the components have been taken out. */
module LoopAnalysis {
  import opened Components
  import opened ComponentSearch
  import opened ComponentVisit
  import opened LoopNest
  import opened Wrappers

  ghost function Unseen(e: Succs, t: Search): set<Node> {
    set x | x in e && !Seen(t, x)
  }

  lemma UnseenShrinks(e: Succs, t: Search, t': Search, v: Node)
    requires Extends(t, t') && v in e && !Seen(t, v) && Seen(t', v)
    ensures Unseen(e, t') < Unseen(e, t)
  {
    assert v in Unseen(e, t);
  }

  lemma SearchBegins(e: Succs, t: Search)
    requires t.index.Keys == e.Keys && t.low.Keys == e.Keys && (forall x :: x in e ==> t.index[x] == -1)
    requires (forall x, y :: x in e && y in e[x] ==> y in e)
    requires t.onStack == {} && t.stack == [] && t.next == 0 && t.found == {}
    ensures Inv(e, t, {})
  {
    hide Reach;
    forall x ensures !Done(t, x) { }
    forall C: set<Node> | |C| >= 2
      ensures !forall x :: x in C ==> Done(t, x)
    {
      var x :| x in C;
      assert !Done(t, x);
    }
  }

  lemma SomeElement(s: seq<Node>)
    ensures s != [] ==> exists x :: x in s
  {
    if s != [] { assert s[0] in s; }
  }

  lemma SearchEnds(e: Succs, t: Search)
    requires Inv(e, t, {}) && forall x :: x in e ==> Seen(t, x)
    ensures AreComponents(e, t.found)
    ensures t.stack == [] && t.onStack == {} && t.index.Keys == e.Keys && t.low.Keys == e.Keys
  {
    hide Reach, IsScc;
    InvParts(e, t, {});
    forall y ensures y !in t.onStack { assert !IsAnchored(e, t, {}, y); }
    SomeElement(t.stack);
    forall x ensures Done(t, x) <==> x in e { }
  }

  function Without(s: seq<Node>, h: Node): (r: seq<Node>)
    ensures forall x :: x in r <==> x in s && x != h
  {
    if s == [] then [] else (if s[0] == h then [] else [s[0]]) + Without(s[1..], h)
  }

  /** s lists exactly the nodes of `all`. */
  ghost predicate Lists(s: seq<Node>, all: set<Node>) {
    forall x :: x in s <==> x in all
  }

  class LoopFinder {
    /** Per node the index and the low link, -1 while the node is unvisited. */
    var index: map<Node, int>
    var lowlink: map<Node, int>
    var onStack: set<Node>
    var nodeStack: seq<Node>
    var next: int
    var result: set<set<Node>>
    /** `succs` and `preds` of every node, the nodes not taken out yet, the headers taken out and the loops. */
    var succs: Succs
    var preds: Succs
    var nodes: seq<Node>
    var headers: set<Node>
    var loops: seq<Loop>
    /** Per node of a loop the header of the loop recorded last for it. */
    var bb2header: map<Node, Node>

    ghost function View(): Search
      reads this
    {
      Search(index, lowlink, nodeStack, onStack, next, result)
    }

    /** No node of e has been visited. */
    ghost predicate Fresh(e: Succs)
      reads this`index, this`lowlink, this`onStack
    {
      index.Keys == e.Keys && lowlink.Keys == e.Keys && (forall x :: x in e ==> index[x] == -1) && onStack == {}
    }

    constructor (succs: Succs, preds: Succs, nodes: seq<Node>)
      requires Lists(nodes, succs.Keys)
      ensures this.succs == succs && this.preds == preds && this.nodes == nodes && headers == {} && loops == []
      ensures bb2header == map[]
      ensures Fresh(succs) && result == {}
    {
      index, lowlink := map n | n in nodes :: -1, map n | n in nodes :: -1;
      onStack, nodeStack, next, result, bb2header := {}, [], 0, {}, map[];
      this.succs, this.preds, this.nodes, headers, loops := succs, preds, nodes, {}, [];
    }

    /** Visits v. Low links are taken from low links, also of successors already on the stack. */
    method StrongConnect(e: Succs, v: Node, ghost active: set<Node>)
      requires Inv(e, View(), active) && v in e && !Seen(View(), v)
      requires forall a :: a in active ==> Reach(e, a, v)
      modifies this`index, this`lowlink, this`onStack, this`nodeStack, this`next, this`result
      ensures Inv(e, View(), active) && Extends(old(View()), View())
      ensures v in index && index[v] == old(next) && v in lowlink && Seen(View(), v)
      ensures v in onStack || lowlink[v] == index[v]
      ensures Covers(e, View(), v, {}, lowlink[v])
      decreases Unseen(e, View())
    {
      hide Inv, Extends, Covers, Reach, Unseen, Visiting, Upper;
      ghost var t0 := View();
      ghost var base := |nodeStack|;
      VisitBegins(e, t0, active, v);
      index := index[v := next];
      lowlink := lowlink[v := next];
      next := next + 1;
      nodeStack := nodeStack + [v];
      onStack := onStack + {v};
      assert View() == Pushed(t0, v);
      var todo := e[v];
      while todo != {}
        invariant todo <= e[v]
        invariant Visiting(e, t0, View(), active, v, todo)
        decreases todo
      {
        var w :| w in todo;
        ghost var t := View();
        VisitFacts(e, t0, t, active, v, todo, w);
        if index[w] == -1 {
          CallReady(e, t0, t, active, v, todo, w);
          UnseenShrinks(e, t0, t, v);
          StrongConnect(e, w, active + {v});
          CallDone(e, t0, t, View(), active, v, todo, w);
          lowlink := lowlink[v := if lowlink[w] < lowlink[v] then lowlink[w] else lowlink[v]];
        } else if w in onStack {
          OnStackDone(e, t0, t, active, v, todo, w);
          lowlink := lowlink[v := if lowlink[w] < lowlink[v] then lowlink[w] else lowlink[v]];
        } else {
          OffStackDone(e, t0, t, active, v, todo, w);
        }
        todo := todo - {w};
      }
      ghost var t := View();
      VisitPlaces(e, t0, t, active, v);
      if lowlink[v] == index[v] {
        VisitPops(e, t0, t, active, v);
        StackDistinct(e, t0, t, active, v);
        var popped := PopFrom(v, base);
        if |popped| != 1 {
          result := result + {popped};
        }
        assert View() == Popped(t, v, base);
      } else {
        VisitKeeps(e, t0, t, active, v);
      }
    }

    /** Pops the stack down to and including v. */
    method PopFrom(v: Node, ghost base: nat) returns (popped: set<Node>)
      requires base < |nodeStack| && nodeStack[base] == v
      requires forall i, j :: 0 <= i < j < |nodeStack| ==> nodeStack[i] != nodeStack[j]
      modifies this`nodeStack, this`onStack
      ensures popped == set x | x in old(nodeStack)[base..]
      ensures nodeStack == old(nodeStack)[..base] && onStack == old(onStack) - popped
    {
      ghost var stack0 := nodeStack;
      popped := {};
      var tmp := nodeStack[|nodeStack| - 1];
      nodeStack := nodeStack[..|nodeStack| - 1];
      onStack := onStack - {tmp};
      popped := popped + {tmp};
      while v != tmp
        invariant base <= |nodeStack| < |stack0| && nodeStack == stack0[..|nodeStack|] && tmp == stack0[|nodeStack|]
        invariant popped == set x | x in stack0[|nodeStack|..]
        invariant onStack == old(onStack) - popped
        decreases |nodeStack|
      {
        tmp := nodeStack[|nodeStack| - 1];
        assert stack0[|nodeStack| - 1..] == [tmp] + stack0[|nodeStack|..];
        nodeStack := nodeStack[..|nodeStack| - 1];
        onStack := onStack - {tmp};
        popped := popped + {tmp};
      }
    }

    /** Finds the components of two or more nodes. */
    method FindStrongConnectComponents(e: Succs)
      requires Lists(nodes, e.Keys) && (forall x, y :: x in e && y in e[x] ==> y in e)
      requires Fresh(e) && result == {}
      modifies this`index, this`lowlink, this`onStack, this`nodeStack, this`next, this`result
      ensures AreComponents(e, result)
      ensures nodeStack == [] && onStack == {} && index.Keys == e.Keys && lowlink.Keys == e.Keys
    {
      hide Inv, Extends, Covers, Reach, IsScc, AreComponents;
      next := 0;
      nodeStack := [];
      SearchBegins(e, View());
      for i := 0 to |nodes|
        invariant Inv(e, View(), {})
        invariant forall k :: 0 <= k < i ==> Seen(View(), nodes[k])
      {
        var n := nodes[i];
        ghost var t := View();
        InvParts(e, t, {});
        assert n in nodes;
        if index[n] == -1 {
          StrongConnect(e, n, {});
          forall x | Seen(t, x) ensures Seen(View(), x) { ExtendsKeeps(t, View(), x); }
        }
      }
      SearchEnds(e, View());
    }

    /** A node of the component with a predecessor outside it, or else a successor of a header taken out. */
    method FindLoopHeader(ghost e0: Succs, ghost live: set<Node>, comp: set<Node>) returns (header: Option<Node>)
      requires Peeled(e0, succs, preds, live, headers) && comp <= live
      ensures header.None? <==> !exists n :: Entered(e0, comp, n)
      ensures header.Some? ==> Entered(e0, comp, header.value)
    {
      header := None;
      var todo := comp;
      while todo != {}
        invariant todo <= comp
        invariant header.Some? ==> Entered(e0, comp, header.value)
        invariant header.None? ==> forall n, u :: n in comp - todo && u in preds[n] ==> u in comp
        decreases todo
      {
        var n :| n in todo;
        todo := todo - {n};
        var pre := preds[n];
        while pre != {}
          invariant pre <= preds[n]
          invariant header.Some? ==> Entered(e0, comp, header.value)
          invariant header.None? ==> forall m, u :: m in comp - todo - {n} && u in preds[m] ==> u in comp
          invariant header.None? ==> forall u :: u in preds[n] - pre ==> u in comp
          decreases pre
        {
          var u :| u in pre;
          pre := pre - {u};
          if u !in comp {
            assert n in live && u in preds[n];
            header := Some(n);
          }
        }
      }
      if header.Some? {
        return;
      }
      var outer := headers;
      while outer != {}
        invariant outer <= headers
        invariant header.Some? ==> Entered(e0, comp, header.value)
        invariant header.None? ==> forall h, s :: h in headers - outer && s in succs[h] ==> s !in comp
        decreases outer
      {
        var h :| h in outer;
        outer := outer - {h};
        var suc := succs[h];
        while suc != {}
          invariant suc <= succs[h]
          invariant header.Some? ==> Entered(e0, comp, header.value)
          invariant header.None? ==> forall g, s :: g in headers - outer - {h} && s in succs[g] ==> s !in comp
          invariant header.None? ==> forall s :: s in succs[h] - suc ==> s !in comp
          decreases suc
        {
          var s :| s in suc;
          suc := suc - {s};
          if s in comp {
            assert s in live && h in headers;
            header := Some(s);
          }
        }
      }
      if header.None? {
        forall n ensures !Entered(e0, comp, n) {
          forall u | n in comp && u in e0 && u !in comp ensures n !in e0[u] {
            assert n in live && (u in live || u in headers);
          }
        }
      }
    }

    /** Erases h from the neighbours in `from` of the nodes in `at`. */
    static method EraseFrom(from: Succs, at: set<Node>, h: Node) returns (r: Succs)
      requires at <= from.Keys
      ensures r == map s | s in from :: if s in at then from[s] - {h} else from[s]
    {
      r := from;
      var rest := at;
      while rest != {}
        invariant rest <= at && r.Keys == from.Keys
        invariant forall s :: s in r ==> r[s] == if s in at - rest then from[s] - {h} else from[s]
        decreases rest
      {
        var s :| s in rest;
        rest := rest - {s};
        r := r[s := r[s] - {h}];
      }
    }

    /** The loops recorded and the headers taken out belong together, and `nodes` lists the live nodes. */
    ghost predicate Ready(e0: Succs, live: set<Node>)
      reads this`succs, this`preds, this`headers, this`nodes, this`loops, this`bb2header
    {
      var holds :=
        && Peeled(e0, succs, preds, live, headers) && Lists(nodes, live)
        && headers == HeadersOf(loops) && LastHeader(loops, bb2header);
      holds
    }

    lemma ReadyParts(e0: Succs, live: set<Node>)
      requires Ready(e0, live)
      ensures Peeled(e0, succs, preds, live, headers) && headers == HeadersOf(loops) && LastHeader(loops, bb2header)
      ensures live == e0.Keys - headers && headers <= e0.Keys
      ensures LiveGraph(succs, live).Keys == live && Lists(nodes, LiveGraph(succs, live).Keys)
      ensures LiveGraph(succs, live) == map n | n in nodes && n in succs :: succs[n]
      ensures SubGraph(LiveGraph(succs, live), e0)
      ensures forall x, y :: x in LiveGraph(succs, live) && y in LiveGraph(succs, live)[x] ==>
                               y in LiveGraph(succs, live)
    {
      hide LastHeader, HeadersOf, SuccsLive, PredsLive, HeadersKeep;
      LiveIsSub(e0, succs, preds, live, headers);
    }

    /** Takes a header out: its successors lose it as predecessor and its predecessors as successor. */
    method RemoveHeader(ghost e0: Succs, ghost live: set<Node>, h: Node)
      requires Peeled(e0, succs, preds, live, headers) && h in live && Lists(nodes, live)
      modifies this`succs, this`preds, this`headers, this`nodes
      ensures headers == old(headers) + {h}
      ensures Peeled(e0, succs, preds, live - {h}, headers)
      ensures Lists(nodes, live - {h})
    {
      hide Peeled;
      PeeledKeys(e0, succs, preds, live, headers, h);
      ghost var succs0, preds0 := succs, preds;
      headers := headers + {h};
      nodes := Without(nodes, h);
      preds := EraseFrom(preds, succs[h], h);
      succs := EraseFrom(succs, preds[h], h);
      PeeledStep(e0, succs0, preds0, live, old(headers), h, succs, preds);
    }

    /** Records the component `com` with its header and takes the header out. */
    method PeelComponent(ghost e0: Succs, ghost entry: Node, ghost live: set<Node>, ghost e: Succs, ghost k: nat,
                         ghost todo: set<set<Node>>, com: set<Node>) returns (ghost h: Node)
      requires Ready(e0, live) && Rooted(e0, entry) && SubGraph(e, e0)
      requires InRound(e0, e, loops, headers, k, todo) && com in todo && AllInside(todo, live)
      modifies this`succs, this`preds, this`headers, this`nodes, this`loops, this`bb2header
      ensures h in com && h in live && Ready(e0, live - {h})
      ensures InRound(e0, e, loops, headers, k, todo - {com}) && AllInside(todo - {com}, live - {h})
    {
      hide Reach, IsScc, Peeled, Nest, InRound, Entered, SubGraph, LastHeader, Rooted, HeadersOf;
      TodoComponent(e0, e, loops, headers, k, todo, com);
      var header := FindLoopHeader(e0, live, com);
      PeeledInside(e0, succs, preds, live, headers);
      EntryOutside(e0, entry, e, com);
      ComponentEntered(e0, entry, com);
      h := header.value;
      EnteredInside(e0, com, h);
      RoundStep(e0, e, loops, headers, k, todo, com, h);
      OthersStayLive(e0, e, loops, headers, k, todo, com, h, live);
      LastHeaderStep(loops, bb2header, Loop(h, com));
      HeadersStep(loops, Loop(h, com));
      loops := loops + [Loop(header.value, com)];
      bb2header := map b | b in bb2header.Keys + com :: if b in com then header.value else bb2header[b];
      RemoveHeader(e0, live, header.value);
    }

    /** Peels every component of one round. */
    method PeelRound(ghost e0: Succs, ghost entry: Node, ghost live0: set<Node>, ghost e: Succs, ghost k: nat,
        found: set<set<Node>>)
        returns (ghost live: set<Node>)
      requires Ready(e0, live0) && Rooted(e0, entry) && SubGraph(e, e0)
      requires InRound(e0, e, loops, headers, k, found) && AllInside(found, live0)
      modifies this`succs, this`preds, this`headers, this`nodes, this`loops, this`bb2header
      ensures live <= live0 && (found != {} ==> live != live0)
      ensures Ready(e0, live) && InRound(e0, e, loops, headers, k, {})
    {
      hide Reach, IsScc, Peeled, Nest, InRound, Entered, SubGraph, LastHeader, Rooted, HeadersOf, AllInside, Ready;
      live := live0;
      var todo := found;
      while todo != {}
        invariant Ready(e0, live) && live <= live0 && (todo == found || live != live0)
        invariant InRound(e0, e, loops, headers, k, todo) && AllInside(todo, live)
        decreases todo
      {
        var com :| com in todo;
        ghost var h := PeelComponent(e0, entry, live, e, k, todo, com);
        live := live - {h};
        todo := todo - {com};
      }
    }

    /** Makes the nodes that are left unvisited again. */
    method Forget()
      modifies this`result, this`index, this`lowlink, this`onStack
      ensures result == {} && onStack == {}
      ensures forall e: Succs | Lists(nodes, e.Keys) :: Fresh(e)
    {
      result, onStack := {}, {};
      index := map n | n in nodes :: -1;
      lowlink := map n | n in nodes :: -1;
    }

    lemma RunBegins(e0: Succs)
      requires Peeled(e0, succs, preds, e0.Keys, {}) && headers == {} && loops == [] && bb2header == map[]
      requires Lists(nodes, e0.Keys) && Fresh(e0)
      ensures Ready(e0, e0.Keys) && Fresh(LiveGraph(succs, e0.Keys))
      ensures Nest(e0, LiveGraph(succs, e0.Keys), loops, headers)
    {
      hide SuccsLive, PredsLive, HeadersKeep, LastHeader;
      NestBegins(e0, LiveGraph(succs, e0.Keys));
    }

    /** Finds all loops of a function. */
    method Run(ghost e0: Succs, ghost entry: Node)
      requires Peeled(e0, succs, preds, e0.Keys, {}) && headers == {} && loops == [] && bb2header == map[]
      requires result == {}
      requires Lists(nodes, e0.Keys) && Fresh(e0) && Rooted(e0, entry)
      modifies this
      ensures Laminar(loops) && LastHeader(loops, bb2header)
      ensures forall i :: 0 <= i < |loops| ==> LoopOk(e0, loops[i])
      ensures headers == HeadersOf(loops) && Peeled(e0, succs, preds, e0.Keys - headers, headers)
      ensures AreComponents(LiveGraph(succs, e0.Keys - headers), {})
    {
      hide Reach, IsScc, Peeled, Nest, InRound, LoopOk, Laminar, Entered, SubGraph, LastHeader, Rooted, HeadersOf,
          AllInside, AreComponents, Lists, LiveGraph, Ready, Fresh;
      ghost var live := e0.Keys;
      RunBegins(e0);
      while true
        invariant Ready(e0, live)
        invariant Nest(e0, LiveGraph(succs, live), loops, headers)
        invariant Fresh(LiveGraph(succs, live)) && result == {}
        decreases live
      {
        ReadyParts(e0, live);
        ghost var succs0, preds0, live0, headers0 := succs, preds, live, headers;
        ghost var e := LiveGraph(succs, live);
        var seen := map n | n in nodes && n in succs :: succs[n];
        assert seen == e;
        FindStrongConnectComponents(seen);
        if result == {} {
          NestLaminar(e0, e, loops, headers);
          return;
        }
        ghost var k := |loops|;
        RoundBegins(e0, e, loops, headers, result);
        live := PeelRound(e0, entry, live, e, k, result);
        Forget();
        ReadyParts(e0, live);
        LiveShrinks(e0, succs0, preds0, live0, headers0, succs, preds, live, headers);
        RoundEnds(e0, e, LiveGraph(succs, live), loops, headers, k);
      }
    }
  }
}
