/** Availability in a control-flow graph: an instruction is available where its block dominates. */
module ValueFlow {
  import opened Cfg
  import opened ValueTable
  import opened ValueOrder

  type Lists = map<Block, seq<nat>>

  ghost function Ids(s: seq<nat>): set<nat> {
    set x | x in s
  }

  /** The instructions of the blocks that strictly dominate b. */
  ghost function AvailIn(g: Graph, lists: Lists, b: Block): set<nat> {
    set d, x | d in lists && StrictDom(g, d, b) && x in lists[d] :: x
  }

  ghost function AvailOut(g: Graph, lists: Lists, b: Block): set<nat> {
    AvailIn(g, lists, b) + if b in lists then Ids(lists[b]) else {}
  }

  ghost predicate At(lists: Lists, b: Block, k: nat, x: nat) {
    b in lists && k < |lists[b]| && lists[b][k] == x
  }

  ghost predicate Placed(g: Graph, lists: Lists, before: Before, x: nat) {
    exists b, k: nat :: At(lists, b, k, x) && x in before && before[x] == AvailIn(g, lists, b) + Ids(lists[b][..k])
  }

  /** A function in which every instruction stands at one place, every block can be reached, and the operands of
      numbered instructions dominate them. */
  ghost predicate InSsa(g: Graph, code: Code, lists: Lists, before: Before) {
    var holds :=
      && g.Valid() && g.preds[g.entry] == [] && lists.Keys == g.succs.Keys && code.Keys == before.Keys
      && (forall b :: b in g.succs ==> Reachable(g, b))
      && (forall b, k: nat, c, j: nat, x :: At(lists, b, k, x) && At(lists, c, j, x) ==> b == c && k == j)
      && (forall b, k: nat, x :: At(lists, b, k, x) ==> x in code)
      && (forall x {:trigger before[x]} :: x in before ==> Placed(g, lists, before, x))
      && (forall x :: x in code ==> x in before && ArgsIn(code, x, before[x]));
    holds
  }

  ghost function Length(p: Path): nat {
    match p
    case Begin => 0
    case Then(front, _) => 1 + Length(front)
  }

  /** A path that visits b has a front part that ends there. */
  lemma {:induction false} FrontTo(g: Graph, p: Path, b: Block) returns (q: Path)
    requires IsPath(g, p) && Visits(g, p, b)
    ensures PathTo(g, q, b) && Length(q) <= Length(p) && (End(g, p) != b ==> Length(q) < Length(p))
    ensures forall x :: Visits(g, q, x) ==> Visits(g, p, x)
  {
    if End(g, p) == b {
      q := p;
    } else {
      q := FrontTo(g, p.front, b);
    }
  }

  /** Two different blocks that can be reached do not dominate each other. */
  lemma {:induction false} DomOneWay(g: Graph, d: Block, b: Block, p: Path)
    requires d != b && Dom(g, d, b) && Dom(g, b, d) && PathTo(g, p, b)
    ensures false
    decreases Length(p)
  {
    var q := FrontTo(g, p, d);
    var r := FrontTo(g, q, b);
    DomOneWay(g, d, b, r);
  }

  lemma DomChain(g: Graph, c: Block, d: Block, b: Block)
    requires Dom(g, c, d) && Dom(g, d, b)
    ensures Dom(g, c, b)
  {
    forall p | PathTo(g, p, b) ensures Visits(g, p, c) {
      var q := FrontTo(g, p, d);
    }
  }

  lemma StrictDomChain(g: Graph, c: Block, d: Block, b: Block)
    requires StrictDom(g, c, d) && StrictDom(g, d, b) && Reachable(g, b)
    ensures StrictDom(g, c, b)
  {
    DomChain(g, c, d, b);
    if c == b {
      var p :| PathTo(g, p, b);
      DomOneWay(g, d, b, p);
    }
  }

  lemma AvailChain(g: Graph, lists: Lists, d: Block, b: Block)
    requires StrictDom(g, d, b) && Reachable(g, b)
    ensures AvailIn(g, lists, d) <= AvailIn(g, lists, b) && AvailOut(g, lists, d) <= AvailIn(g, lists, b)
  {
    forall x | x in AvailIn(g, lists, d) ensures x in AvailIn(g, lists, b) {
      var c :| c in lists && StrictDom(g, c, d) && x in lists[c];
      StrictDomChain(g, c, d, b);
    }
  }

  /** What is available at a block was available at the end of each predecessor. */
  lemma AvailAlongEdge(g: Graph, lists: Lists, p: Block, b: Block)
    requires g.Edge(p, b)
    ensures AvailIn(g, lists, b) <= AvailOut(g, lists, p)
  {
    forall x | x in AvailIn(g, lists, b) ensures x in AvailOut(g, lists, p) {
      var c :| c in lists && StrictDom(g, c, b) && x in lists[c];
      StrictDomOfPred(g, c, b, p);
    }
  }

  /** No path ends in a block whose only predecessor is itself. */
  lemma {:induction false} LoopAlone(g: Graph, b: Block, p: Path)
    requires g.Valid() && b in g.preds && g.preds[b] == [b] && g.preds[g.entry] == [] && IsPath(g, p)
    ensures End(g, p) != b
  {
    if p.Then? { LoopAlone(g, b, p.front); }
  }

  /** A block is strictly dominated by its only predecessor. */
  lemma OnlyPredDominates(g: Graph, p: Block, b: Block)
    requires g.Valid() && g.preds[g.entry] == [] && b in g.preds && g.preds[b] == [p] && Reachable(g, b)
    ensures StrictDom(g, p, b)
  {
    forall q | PathTo(g, q, b) ensures Visits(g, q, p) {
      assert g.Edge(End(g, q.front), b);
    }
    if p == b {
      var q :| PathTo(g, q, b);
      LoopAlone(g, b, q);
    }
  }

  /** An extended block keeps everything available. */
  lemma OnlyPredAvail(g: Graph, lists: Lists, p: Block, b: Block)
    requires g.Valid() && g.preds[g.entry] == [] && b in g.preds && g.preds[b] == [p] && Reachable(g, b)
    ensures AvailIn(g, lists, b) == AvailOut(g, lists, p)
  {
    OnlyPredDominates(g, p, b);
    AvailChain(g, lists, p, b);
    assert g.Edge(p, b);
    AvailAlongEdge(g, lists, p, b);
  }

  lemma PlacedAt(g: Graph, code: Code, lists: Lists, before: Before, b: Block, k: nat, x: nat)
    requires InSsa(g, code, lists, before) && At(lists, b, k, x)
    ensures x in before && x in code && before[x] == AvailIn(g, lists, b) + Ids(lists[b][..k])
  {
    assert Placed(g, lists, before, x);
  }

  lemma IdAt(s: seq<nat>, x: nat) returns (k: nat)
    requires x in Ids(s)
    ensures k < |s| && s[k] == x
  {
    k :| k < |s| && s[k] == x;
  }

  lemma OnePlace(g: Graph, code: Code, lists: Lists, before: Before, b: Block, k: nat, c: Block, j: nat, x: nat)
    requires InSsa(g, code, lists, before) && At(lists, b, k, x) && At(lists, c, j, x)
    ensures b == c && k == j
  {
  }

  lemma AvailElsewhere(g: Graph, lists: Lists, b: Block, x: nat) returns (d: Block, j: nat)
    requires x in AvailIn(g, lists, b)
    ensures StrictDom(g, d, b) && d != b && At(lists, d, j, x)
  {
    d :| d in lists && StrictDom(g, d, b) && x in lists[d];
    j := IdAt(lists[d], x);
  }

  lemma NotBeforeItself(g: Graph, code: Code, lists: Lists, before: Before, x: nat)
    requires InSsa(g, code, lists, before) && x in before
    ensures x !in before[x]
  {
    hide InSsa, Reachable, StrictDom;
    var b, k := PlaceOf(g, code, lists, before, x);
    if x in AvailIn(g, lists, b) {
      var d, j := AvailElsewhere(g, lists, b, x);
      OnePlace(g, code, lists, before, b, k, d, j, x);
    } else if x in Ids(lists[b][..k]) {
      var j := IdAt(lists[b][..k], x);
      OnePlace(g, code, lists, before, b, k, b, j, x);
    }
  }

  lemma PlaceOf(g: Graph, code: Code, lists: Lists, before: Before, x: nat) returns (b: Block, k: nat)
    requires InSsa(g, code, lists, before) && x in before
    ensures At(lists, b, k, x) && before[x] == AvailIn(g, lists, b) + Ids(lists[b][..k]) && Reachable(g, b) && x in code
  {
    assert Placed(g, lists, before, x);
    b, k :| At(lists, b, k, x) && before[x] == AvailIn(g, lists, b) + Ids(lists[b][..k]);
  }

  lemma BeforeChain(g: Graph, code: Code, lists: Lists, before: Before, x: nat, y: nat)
    requires InSsa(g, code, lists, before) && x in before && y in before[x]
    ensures y in before && before[y] <= before[x]
  {
    hide InSsa, Placed, Reachable, StrictDom, ArgsIn;
    var b, k := PlaceOf(g, code, lists, before, x);
    if y in AvailIn(g, lists, b) {
      var d, j := AvailElsewhere(g, lists, b, y);
      PlacedAt(g, code, lists, before, d, j, y);
      AvailChain(g, lists, d, b);
    } else {
      var j := IdAt(lists[b][..k], y);
      PlacedAt(g, code, lists, before, b, j, y);
    }
  }

  /** Dominance orders the instructions. */
  lemma DominanceOrders(g: Graph, code: Code, lists: Lists, before: Before)
    requires InSsa(g, code, lists, before)
    ensures Ordered(code, before)
  {
    hide Placed, Reachable, StrictDom, ArgsIn, AvailIn;
    forall x | x in before ensures x !in before[x] { NotBeforeItself(g, code, lists, before, x); }
    forall x, y {:trigger y in before[x]} | x in before && y in before[x]
      ensures y in before && before[y] <= before[x]
    {
      BeforeChain(g, code, lists, before, x, y);
    }
  }

  lemma AvailInDown(g: Graph, code: Code, lists: Lists, before: Before, b: Block)
    requires InSsa(g, code, lists, before) && Reachable(g, b)
    ensures Down(before, AvailIn(g, lists, b))
  {
    hide InSsa, Placed, Reachable, StrictDom, ArgsIn;
    forall x | x in AvailIn(g, lists, b) ensures x in before && before[x] <= AvailIn(g, lists, b) {
      var d, j := AvailElsewhere(g, lists, b, x);
      PlacedAt(g, code, lists, before, d, j, x);
      AvailChain(g, lists, d, b);
    }
  }
}
