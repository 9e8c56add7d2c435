/** The parent tree held in the `_idom` fields while the dominator solver runs: parents have larger
    post-order numbers, the root is its own parent. */
module IdomTree {
  import opened Cfg

  type Parents = map<Block, Block>
  type Numbers = map<Block, nat>

  ghost predicate Tree(t: Parents, id: Numbers, root: Block) {
    && root in t && root in id && t[root] == root
    && (forall v {:trigger v in id} :: v in t ==> v in id && id[v] <= id[root])
    && (forall v {:trigger t[v] in t} :: v in t && v != root ==> t[v] in t)
    && (forall v {:trigger id[t[v]]} :: v in t && v != root ==> v in id && t[v] in id && id[v] < id[t[v]])
  }

  /** a is v or one of the blocks met when climbing from v to the root. */
  ghost predicate Above(t: Parents, id: Numbers, root: Block, a: Block, v: Block)
    requires Tree(t, id, root) && v in t
    decreases id[root] - id[v]
  {
    a == v || (v != root && Above(t, id, root, a, t[v]))
  }

  lemma {:induction false} AboveNumber(t: Parents, id: Numbers, root: Block, a: Block, v: Block)
    requires Tree(t, id, root) && v in t && Above(t, id, root, a, v)
    ensures a in t && id[v] <= id[a] && (a != v ==> v != root && id[v] < id[a])
    decreases id[root] - id[v]
  {
    if a != v {
      AboveNumber(t, id, root, a, t[v]);
    }
  }

  lemma {:induction false} AboveTrans(t: Parents, id: Numbers, root: Block, a: Block, b: Block, v: Block)
    requires Tree(t, id, root) && v in t && b in t
    requires Above(t, id, root, b, v) && Above(t, id, root, a, b)
    ensures Above(t, id, root, a, v)
    decreases id[root] - id[v]
  {
    if b != v {
      AboveTrans(t, id, root, a, b, t[v]);
    }
  }

  lemma {:induction false} RootAbove(t: Parents, id: Numbers, root: Block, v: Block)
    requires Tree(t, id, root) && v in t
    ensures Above(t, id, root, root, v)
    decreases id[root] - id[v]
  {
    if v != root {
      RootAbove(t, id, root, t[v]);
    }
  }

  /** The blocks above one block form a chain ordered by post-order number. */
  lemma {:induction false} AboveChain(t: Parents, id: Numbers, root: Block, a: Block, b: Block, v: Block)
    requires Tree(t, id, root) && v in t && a in t
    requires Above(t, id, root, a, v) && Above(t, id, root, b, v)
    requires b in id && a in id && id[a] <= id[b]
    requires forall x, y :: x in id && y in id && id[x] == id[y] ==> x == y
    ensures Above(t, id, root, b, a)
    decreases id[root] - id[v]
  {
    if a != v {
      AboveNumber(t, id, root, a, v);
      assert b != v;
      AboveChain(t, id, root, a, b, t[v]);
    }
  }

  /** Moving c to a new parent n with a larger number leaves a tree. */
  lemma MoveKeepsTree(t: Parents, id: Numbers, root: Block, c: Block, n: Block)
    requires Tree(t, id, root) && n in t && c != root
    requires c in id && id[c] < id[n]
    ensures Tree(t[c := n], id, root)
  {
    var t' := t[c := n];
    forall v | v in t'
      ensures v in id && id[v] <= id[root]
    {
      if v == c { assert id[n] <= id[root]; }
    }
  }

  /** Moving c does not touch what lies above a block numbered beyond c. */
  lemma {:induction false} MoveAboveHigh(t: Parents, id: Numbers, root: Block, c: Block, n: Block, a: Block, v: Block)
    requires Tree(t, id, root) && n in t && c != root && c in id && id[c] < id[n]
    requires Tree(t[c := n], id, root)
    requires v in t && id[v] > id[c]
    ensures Above(t[c := n], id, root, a, v) <==> Above(t, id, root, a, v)
    decreases id[root] - id[v]
  {
    if v != root {
      assert t[c := n][v] == t[v];
      MoveAboveHigh(t, id, root, c, n, a, t[v]);
    }
  }

  /** Moving c does not change whether a block numbered at most c lies above another. */
  lemma {:induction false} MoveAboveLow(t: Parents, id: Numbers, root: Block, c: Block, n: Block, a: Block, v: Block)
    requires Tree(t, id, root) && n in t && c != root && c in id && id[c] < id[n]
    requires Tree(t[c := n], id, root)
    requires v in t && a in id && id[a] <= id[c]
    ensures Above(t[c := n], id, root, a, v) <==> Above(t, id, root, a, v)
    decreases id[root] - id[v]
  {
    if v == c {
      if Above(t[c := n], id, root, a, n) { AboveNumber(t[c := n], id, root, a, n); }
      if Above(t, id, root, a, t[c]) { AboveNumber(t, id, root, a, t[c]); }
    } else if v != root {
      assert t[c := n][v] == t[v];
      MoveAboveLow(t, id, root, c, n, a, t[v]);
    }
  }

  /** Moving c up to one of the blocks above it removes blocks from chains and adds none. */
  lemma {:induction false} MoveUpShrinks(t: Parents, id: Numbers, root: Block, c: Block, n: Block, a: Block, v: Block)
    requires Tree(t, id, root) && n in t && c != root && c in id && id[c] < id[n]
    requires Tree(t[c := n], id, root)
    requires c in t ==> Above(t, id, root, n, t[c])
    requires v in t && Above(t[c := n], id, root, a, v)
    ensures Above(t, id, root, a, v)
    decreases id[root] - id[v]
  {
    if a != v {
      if v == c {
        MoveUpShrinks(t, id, root, c, n, a, n);
        AboveTrans(t, id, root, a, n, t[c]);
      } else {
        assert t[c := n][v] == t[v];
        MoveUpShrinks(t, id, root, c, n, a, t[v]);
      }
    }
  }

  /** What an upward move of c can lose: a lost block lies strictly between c and its new parent. */
  lemma {:induction false} MoveUpLoses(t: Parents, id: Numbers, root: Block, c: Block, n: Block, a: Block, v: Block)
    requires Tree(t, id, root) && n in t && c != root && c in id && id[c] < id[n]
    requires Tree(t[c := n], id, root)
    requires c in t && Above(t, id, root, n, t[c])
    requires forall x, y :: x in id && y in id && id[x] == id[y] ==> x == y
    requires v in t && Above(t, id, root, a, v) && !Above(t[c := n], id, root, a, v)
    ensures Above(t, id, root, c, v) && a in id && id[c] < id[a] < id[n]
    decreases id[root] - id[v]
  {
    if v == c {
      AboveNumber(t, id, root, a, t[c]);
      if id[n] <= id[a] {
        AboveChain(t, id, root, n, a, t[c]);
        MoveAboveHigh(t, id, root, c, n, a, n);
      }
    } else {
      assert t[c := n][v] == t[v];
      MoveUpLoses(t, id, root, c, n, a, t[v]);
    }
  }
}
