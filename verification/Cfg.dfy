/** Control-flow graphs of one function, paths from its entry block, and dominance stated on paths. */
module Cfg {
  /** A basic block, named by its number. */
  type Block = nat

  /** The successor and predecessor lists that the blocks of a function carry. */
  datatype Graph = Graph(entry: Block, succs: map<Block, seq<Block>>, preds: map<Block, seq<Block>>) {
    /** Both lists describe the same edges. */
    ghost predicate Valid() {
      && entry in succs
      && preds.Keys == succs.Keys
      && (forall b, s {:trigger s in succs[b]} :: b in succs && s in succs[b] ==> s in preds && b in preds[s])
      && (forall b, p {:trigger p in preds[b]} :: b in preds && p in preds[b] ==> p in succs && b in succs[p])
    }

    ghost predicate Edge(a: Block, b: Block) {
      a in succs && b in succs[a]
    }
  }

  /** A path that starts at the entry block. */
  datatype Path = Begin | Then(front: Path, to: Block)

  ghost function End(g: Graph, p: Path): Block {
    match p
    case Begin => g.entry
    case Then(_, b) => b
  }

  ghost predicate IsPath(g: Graph, p: Path) {
    match p
    case Begin => true
    case Then(front, b) => IsPath(g, front) && g.Edge(End(g, front), b)
  }

  ghost predicate Visits(g: Graph, p: Path, b: Block) {
    b == End(g, p) || (p.Then? && Visits(g, p.front, b))
  }

  ghost predicate PathTo(g: Graph, p: Path, b: Block) {
    IsPath(g, p) && End(g, p) == b
  }

  ghost predicate Reachable(g: Graph, b: Block) {
    exists p :: PathTo(g, p, b)
  }

  /** d dominates v: every path from the entry to v visits d. */
  ghost predicate Dom(g: Graph, d: Block, v: Block) {
    forall p :: PathTo(g, p, v) ==> Visits(g, p, d)
  }

  ghost predicate StrictDom(g: Graph, d: Block, v: Block) {
    d != v && Dom(g, d, v)
  }

  /** d is the immediate dominator of v. */
  ghost predicate IsIDom(g: Graph, d: Block, v: Block) {
    StrictDom(g, d, v) && forall s :: StrictDom(g, s, v) ==> Dom(g, s, d)
  }

  /** y is in the dominance frontier of x: x dominates a predecessor of y but not strictly y. */
  ghost predicate InFrontier(g: Graph, x: Block, y: Block) {
    y in g.preds && !StrictDom(g, x, y) && exists p :: p in g.preds[y] && Dom(g, x, p)
  }

  /** A strict dominator of a block dominates each of its predecessors. */
  lemma StrictDomOfPred(g: Graph, d: Block, v: Block, p: Block)
    requires StrictDom(g, d, v) && g.Edge(p, v)
    ensures Dom(g, d, p)
  {
    forall q | PathTo(g, q, p)
      ensures Visits(g, q, d)
    {
      assert PathTo(g, Then(q, v), v);
    }
  }
}
