/** Reachability and strongly connected components of a directed graph, and the state of the depth-first
    component search. */
module Components {
  type Node = nat
  type Succs = map<Node, set<Node>>

  datatype Trail = Stop | Hop(via: Node, rest: Trail)

  ghost predicate IsTrail(e: Succs, x: Node, p: Trail, y: Node)
    decreases p
  {
    match p
    case Stop => x == y
    case Hop(v, rest) => x in e && v in e[x] && IsTrail(e, v, rest, y)
  }

  ghost predicate Reach(e: Succs, x: Node, y: Node) {
    exists p :: IsTrail(e, x, p, y)
  }

  /** C is a strongly connected component: a maximal set of mutually reachable nodes. */
  ghost predicate IsScc(e: Succs, C: set<Node>) {
    C != {} && forall x :: x in C ==> forall y :: y in C <==> Reach(e, x, y) && Reach(e, y, x)
  }

  ghost function Append(p: Trail, q: Trail): Trail {
    match p
    case Stop => q
    case Hop(v, rest) => Hop(v, Append(rest, q))
  }

  lemma {:induction false} AppendIsTrail(e: Succs, x: Node, p: Trail, y: Node, q: Trail, z: Node)
    requires IsTrail(e, x, p, y) && IsTrail(e, y, q, z)
    ensures IsTrail(e, x, Append(p, q), z)
    decreases p
  {
    if p.Hop? { AppendIsTrail(e, p.via, p.rest, y, q, z); }
  }

  lemma ReachRefl(e: Succs, x: Node)
    ensures Reach(e, x, x)
  {
    assert IsTrail(e, x, Stop, x);
  }

  lemma ReachStep(e: Succs, x: Node, y: Node)
    requires x in e && y in e[x]
    ensures Reach(e, x, y)
  {
    assert IsTrail(e, x, Hop(y, Stop), y);
  }

  lemma ReachTrans(e: Succs, x: Node, y: Node, z: Node)
    requires Reach(e, x, y) && Reach(e, y, z)
    ensures Reach(e, x, z)
  {
    var p :| IsTrail(e, x, p, y);
    var q :| IsTrail(e, y, q, z);
    AppendIsTrail(e, x, p, y, q, z);
  }

  /** S has no edge leaving it. */
  ghost predicate Closed(e: Succs, S: iset<Node>) {
    forall x, y :: x in S && x in e && y in e[x] ==> y in S
  }

  lemma {:induction false} ClosedTrail(e: Succs, S: iset<Node>, x: Node, p: Trail, y: Node)
    requires Closed(e, S) && x in S && IsTrail(e, x, p, y)
    ensures y in S
    decreases p
  {
    if p.Hop? { ClosedTrail(e, S, p.via, p.rest, y); }
  }

  lemma ClosedReach(e: Succs, S: iset<Node>, x: Node, y: Node)
    requires Closed(e, S) && x in S && Reach(e, x, y)
    ensures y in S
  {
    var p :| IsTrail(e, x, p, y);
    ClosedTrail(e, S, x, p, y);
  }

  /** Two components that share a node are the same. */
  lemma SccsEqual(e: Succs, C: set<Node>, D: set<Node>, x: Node)
    requires IsScc(e, C) && IsScc(e, D) && x in C && x in D
    ensures C == D
  {
    forall y ensures y in C <==> y in D { }
  }
}
