/** The walk of value numbering over the blocks: extended blocks depth first, the others from a queue. */
module ValueWalk {
  import opened Cfg
  import opened ValueTable
  import opened ValueOrder
  import opened ValueFlow
  import opened ValueRepeat

  /** order lists the blocks in the order they were numbered. */
  datatype Walk = Walk(order: seq<Block>, visited: set<Block>, queue: seq<Block>, gone: map<nat, Value>, lists: Lists)

  ghost predicate Distinct<T>(s: seq<T>) {
    forall i, j :: 0 <= i < j < |s| ==> s[i] != s[j]
  }

  function Blocks(s: seq<Block>): set<Block> {
    set b | b in s
  }

  function Without(s: seq<nat>, out: set<nat>): seq<nat> {
    if s == [] then [] else (if s[0] in out then [] else [s[0]]) + Without(s[1..], out)
  }

  ghost function SeenIds(first: Lists, order: seq<Block>): set<nat> {
    set d, x | d in order && d in first && x in first[d] :: x
  }

  /** A block listed twice as a successor has more than one predecessor entry. */
  ghost predicate SingleEdges(g: Graph) {
    forall p, i, j :: p in g.succs && 0 <= i < j < |g.succs[p]| && g.succs[p][i] == g.succs[p][j] &&
                      g.succs[p][i] in g.preds ==>
                        |g.preds[g.succs[p][i]]| != 1
  }

  ghost predicate DomsDone(g: Graph, order: seq<Block>, c: Block) {
    forall d :: d in g.succs && StrictDom(g, d, c) ==> d in order
  }

  ghost predicate Orderly(g: Graph, w: Walk) {
    var holds :=
      && Distinct(w.order) && Distinct(w.queue) && w.visited == Blocks(w.order) + (Blocks(w.queue) - {g.entry})
      && (forall c :: c in w.order ==> c in g.succs && c in g.preds && c !in w.queue && DomsDone(g, w.order, c))
      && (forall c, p :: c in w.order && c in g.preds && g.preds[c] == [p] ==> p in w.order)
      && (forall c :: c in w.queue ==> c in g.succs && c in g.preds && |g.preds[c]| != 1 && DomsDone(g, w.order, c));
    holds
  }

  /** Replaced instructions and what replaced them belong to numbered blocks. */
  ghost predicate GoneIn(first: Lists, order: seq<Block>, gone: map<nat, Value>) {
    forall x :: x in gone ==> x in SeenIds(first, order) && (gone[x].Var? ==> gone[x].id in SeenIds(first, order))
  }

  /** Numbered blocks have lost exactly the replaced instructions. */
  ghost predicate ListsOk(first: Lists, w: Walk) {
    w.lists.Keys == first.Keys && forall b :: b in first ==> w.lists[b] == if b in w.order then Without(first[b],
                                              w.gone.Keys) else first[b]
  }

  /** In numbered blocks what repeats an instruction that stands has been replaced. */
  ghost predicate RepeatsOk(code: Code, first: Lists, w: Walk) {
    forall c :: c in w.order && c in first ==> RepeatsGone(code, w.gone, first[c], |first[c]|)
  }

  ghost predicate WalkOk(f: Interp, g: Graph, code: Code, first: Lists, before: Before, w: Walk) {
    var holds :=
      && Commutes(f) && InSsa(g, code, first, before) && Ordered(code, before) && SingleEdges(g)
      && GoneOk(f, code, before, w.gone) && Orderly(g, w) && GoneIn(first, w.order, w.gone) && ListsOk(first, w)
      && RepeatsOk(code, first, w);
    holds
  }

  /** b may be numbered next. */
  ghost predicate Next(g: Graph, w: Walk, b: Block) {
    b in g.succs && b in g.preds && b !in w.order && b !in w.queue && DomsDone(g, w.order, b) &&
        forall p :: g.preds[b] == [p] ==> p in w.order
  }

  // Keeping and removing list members.

  lemma {:induction false} WithoutSame(s: seq<nat>, a: set<nat>, b: set<nat>)
    requires forall x :: x in s ==> (x in a <==> x in b)
    ensures Without(s, a) == Without(s, b)
  {
    if s != [] { WithoutSame(s[1..], a, b); }
  }

  lemma {:induction false} WithoutNone(s: seq<nat>)
    ensures Without(s, {}) == s
  {
    if s != [] { WithoutNone(s[1..]); }
  }

  /** Erasing the first occurrence. */
  function RemoveFirst(s: seq<nat>, x: nat): seq<nat> {
    if s == [] then [] else if s[0] == x then s[1..] else [s[0]] + RemoveFirst(s[1..], x)
  }

  lemma RemovePassed(l: seq<nat>, x: nat, i: nat)
    requires i < |l| && l[i] != x
    ensures l[..i] + RemoveFirst(l[i..], x) == l[..i + 1] + RemoveFirst(l[i + 1..], x)
  {
    assert l[..i] + [l[i]] == l[..i + 1] && l[i..][1..] == l[i + 1..];
  }

  lemma RemoveReached(l: seq<nat>, x: nat, i: nat)
    requires i <= |l| && (i < |l| ==> l[i] == x)
    ensures l[..i] + RemoveFirst(l[i..], x) == if i < |l| then l[..i] + l[i + 1..] else l
  {
    if i < |l| { assert l[i..][1..] == l[i + 1..]; }
  }

  lemma {:induction false} RemoveIsWithout(s: seq<nat>, out: set<nat>, x: nat)
    requires Distinct(s)
    ensures RemoveFirst(Without(s, out), x) == Without(s, out + {x})
  {
    if s != [] {
      var t := Without(s[1..], out);
      if s[0] in out {
        RemoveIsWithout(s[1..], out, x);
        assert Without(s, out) == t && Without(s, out + {x}) == Without(s[1..], out + {x});
      } else if s[0] == x {
        assert x !in s[1..];
        assert Without(s, out) == [x] + t;
        WithoutSame(s[1..], out, out + {x});
      } else {
        RemoveIsWithout(s[1..], out, x);
        assert Without(s, out) == [s[0]] + t && ([s[0]] + t)[1..] == t;
      }
    }
  }

  // Steps of the walk.

  /** What numbering block b adds to the replacements. */
  ghost predicate GoneFrom(g: Graph, first: Lists, gone: map<nat, Value>, more: map<nat, Value>, b: Block) {
    && (forall x :: x in gone ==> x in more && more[x] == gone[x])
    && (forall x :: x in more && x !in gone ==>
                      b in first && x in first[b] && (more[x].Var? ==> more[x].id in AvailOut(g, first, b)))
  }

  lemma SeenSplit(first: Lists, order: seq<Block>, b: Block)
    requires b in first
    ensures SeenIds(first, order + [b]) == SeenIds(first, order) + Ids(first[b])
  {
    assert forall d :: d in order + [b] <==> d in order || d == b;
  }

  lemma AvailIsSeen(g: Graph, first: Lists, order: seq<Block>, b: Block)
    requires first.Keys == g.succs.Keys && DomsDone(g, order, b)
    ensures AvailIn(g, first, b) <= SeenIds(first, order)
  {
  }

  /** The instructions of a block not yet numbered were not seen. */
  lemma UnseenIds(g: Graph, code: Code, first: Lists, before: Before, order: seq<Block>, b: Block)
    requires InSsa(g, code, first, before) && b in first && b !in order
    ensures SeenIds(first, order) !! Ids(first[b])
  {
    hide InSsa;
    forall x | x in SeenIds(first, order) ensures x !in Ids(first[b]) {
      var d :| d in order && d in first && x in first[d];
      var j := IdAt(first[d], x);
      assert At(first, d, j, x);
      if x in Ids(first[b]) {
        var k := IdAt(first[b], x);
        OnePlace(g, code, first, before, b, k, d, j, x);
      }
    }
  }

  lemma WalkParts(f: Interp, g: Graph, code: Code, first: Lists, before: Before, w: Walk)
    requires WalkOk(f, g, code, first, before, w)
    ensures Commutes(f) && InSsa(g, code, first, before) && Ordered(code, before) && SingleEdges(g)
    ensures GoneOk(f, code, before, w.gone) && Orderly(g, w) && GoneIn(first, w.order, w.gone) && ListsOk(first, w)
    ensures RepeatsOk(code, first, w)
  {
  }

  lemma SsaParts(g: Graph, code: Code, first: Lists, before: Before)
    requires InSsa(g, code, first, before)
    ensures g.Valid() && g.preds[g.entry] == [] && first.Keys == g.succs.Keys
    ensures forall b :: b in g.succs ==> Reachable(g, b)
  {
  }

  /** Before a block is numbered nothing in it is replaced or replaces anything. */
  lemma BlockUntouched(f: Interp, g: Graph, code: Code, first: Lists, before: Before, w: Walk, b: Block)
    requires WalkOk(f, g, code, first, before, w) && Next(g, w, b)
    ensures b in first && AvailIn(g, first, b) <= SeenIds(first, w.order)
    ensures forall x :: x in first[b] ==> x !in w.gone && forall y :: y in w.gone ==> w.gone[y] != Var(x)
  {
    hide WalkOk, InSsa, Orderly, Ordered, GoneOk, AvailIn, SeenIds;
    WalkParts(f, g, code, first, before, w);
    SsaParts(g, code, first, before);
    UnseenIds(g, code, first, before, w.order, b);
    AvailIsSeen(g, first, w.order, b);
  }

  lemma BlockOrderly(g: Graph, w: Walk, b: Block, gone: map<nat, Value>, lists: Lists)
    requires Orderly(g, w) && Next(g, w, b)
    ensures Orderly(g, Walk(w.order + [b], w.visited + {b}, w.queue, gone, lists))
  {
    hide StrictDom;
    var order := w.order + [b];
    forall c | c in order ensures DomsDone(g, order, c) { assert DomsDone(g, w.order, c); }
    forall c | c in w.queue ensures DomsDone(g, order, c) { assert DomsDone(g, w.order, c); }
    assert forall c :: c in order <==> c in w.order || c == b;
    assert Blocks(order) == Blocks(w.order) + {b};
  }

  lemma BlockLists(g: Graph, code: Code, first: Lists, before: Before, w: Walk, b: Block, gone: map<nat, Value>)
    requires InSsa(g, code, first, before) && ListsOk(first, w) && b in first && b !in w.order
    requires GoneFrom(g, first, w.gone, gone, b)
    ensures ListsOk(first, Walk(w.order + [b], w.visited + {b}, w.queue, gone,
            w.lists[b := Without(first[b], gone.Keys)]))
  {
    hide InSsa, AvailOut;
    UnseenIds(g, code, first, before, w.order, b);
    forall c | c in first && c in w.order ensures Without(first[c], gone.Keys) == Without(first[c], w.gone.Keys) {
      assert forall x :: x in first[c] ==> x in SeenIds(first, w.order);
      WithoutSame(first[c], gone.Keys, w.gone.Keys);
    }
  }

  /** The operands of a numbered block have been seen. */
  lemma OperandsSeen(g: Graph, code: Code, first: Lists, before: Before, order: seq<Block>, c: Block)
    requires InSsa(g, code, first, before) && c in first && c in order && DomsDone(g, order, c)
    ensures Settled(code, SeenIds(first, order), first[c], |first[c]|)
    ensures forall i :: 0 <= i < |first[c]| ==> first[c][i] in SeenIds(first, order)
  {
    hide AvailIn, Placed, Reachable, DomsDone;
    var seen := SeenIds(first, order);
    AvailIsSeen(g, first, order, c);
    forall i | 0 <= i < |first[c]| ensures first[c][i] in seen { assert first[c][i] in first[c]; }
    forall i | 0 <= i < |first[c]| && IsBinary(code, Var(first[c][i]))
      ensures forall v :: v in code[first[c][i]].args && v.Var? ==> v.id in seen
    {
      var x := first[c][i];
      assert At(first, c, i, x);
      PlacedAt(g, code, first, before, c, i, x);
      assert ArgsIn(code, x, before[x]);
      assert Ids(first[c][..i]) <= seen by {
        forall y | y in Ids(first[c][..i]) ensures y in seen { var j := IdAt(first[c][..i], y); }
      }
    }
  }

  lemma BlockRepeats(g: Graph, code: Code, first: Lists, before: Before, w: Walk, b: Block, gone: map<nat, Value>)
    requires InSsa(g, code, first, before) && first.Keys == g.succs.Keys && RepeatsOk(code, first, w) && Orderly(g, w)
    requires GoneFrom(g, first, w.gone, gone, b) && b in first && b !in w.order
    requires RepeatsGone(code, gone, first[b], |first[b]|)
    ensures forall c :: c in w.order + [b] && c in first ==> RepeatsGone(code, gone, first[c], |first[c]|)
  {
    hide InSsa, RepeatsGone, Settled, SeenIds, AvailOut, Orderly;
    UnseenIds(g, code, first, before, w.order, b);
    forall c | c in w.order && c in first ensures RepeatsGone(code, gone, first[c], |first[c]|) {
      DoneDoms(g, w, c);
      OperandsSeen(g, code, first, before, w.order, c);
      RepeatsStay(code, w.gone, gone, SeenIds(first, w.order), first[c]);
    }
  }

  /** A block has been numbered and its replaced instructions deleted. */
  lemma BlockDone(f: Interp, g: Graph, code: Code, first: Lists, before: Before, w: Walk, b: Block,
      gone: map<nat, Value>)
    requires WalkOk(f, g, code, first, before, w) && Next(g, w, b)
    requires GoneOk(f, code, before, gone) && GoneFrom(g, first, w.gone, gone, b)
    requires b in first && RepeatsGone(code, gone, first[b], |first[b]|)
    ensures b in first && WalkOk(f, g, code, first, before,
        Walk(w.order + [b], w.visited + {b}, w.queue, gone, w.lists[b := Without(first[b], gone.Keys)]))
  {
    hide WalkOk, InSsa, Orderly, Ordered, GoneOk, ListsOk, Without, Next, AvailIn, SeenIds, RepeatsGone, RepeatsOk;
    WalkParts(f, g, code, first, before, w);
    SsaParts(g, code, first, before);
    NextParts(g, w, b);
    BlockOrderly(g, w, b, gone, w.lists[b := Without(first[b], gone.Keys)]);
    BlockLists(g, code, first, before, w, b, gone);
    SeenSplit(first, w.order, b);
    AvailIsSeen(g, first, w.order, b);
    BlockRepeats(g, code, first, before, w, b, gone);
    WalkWhole(f, g, code, first, before,
        Walk(w.order + [b], w.visited + {b}, w.queue, gone, w.lists[b := Without(first[b], gone.Keys)]));
  }

  lemma NextParts(g: Graph, w: Walk, b: Block)
    requires Next(g, w, b)
    ensures b in g.succs && b !in w.order && DomsDone(g, w.order, b)
  {
  }

  lemma WalkWhole(f: Interp, g: Graph, code: Code, first: Lists, before: Before, w: Walk)
    requires Commutes(f) && InSsa(g, code, first, before) && Ordered(code, before) && SingleEdges(g)
    requires GoneOk(f, code, before, w.gone) && Orderly(g, w) && GoneIn(first, w.order, w.gone) && ListsOk(first, w)
    requires RepeatsOk(code, first, w)
    ensures WalkOk(f, g, code, first, before, w)
  {
  }

  /** Dominators of a successor are done once the block is. */
  lemma SuccDomsDone(g: Graph, order: seq<Block>, b: Block, s: Block)
    requires g.Edge(b, s) && b in order && DomsDone(g, order, b)
    ensures DomsDone(g, order, s)
  {
    forall d | d in g.succs && StrictDom(g, d, s) ensures d in order {
      StrictDomOfPred(g, d, s, b);
      if d != b { assert StrictDom(g, d, b); }
    }
  }

  lemma DoneDoms(g: Graph, w: Walk, b: Block)
    requires Orderly(g, w) && b in w.order
    ensures DomsDone(g, w.order, b)
  {
  }

  lemma QueueOrderly(g: Graph, w: Walk, s: Block)
    requires Orderly(g, w) && s in g.preds && s in g.succs && |g.preds[s]| != 1 && s !in w.visited && s != g.entry &&
        DomsDone(g, w.order, s)
    ensures Orderly(g, Walk(w.order, w.visited + {s}, w.queue + [s], w.gone, w.lists))
  {
    hide DomsDone;
    assert s !in Blocks(w.order) && s !in Blocks(w.queue);
    assert forall c :: c in w.queue + [s] <==> c in w.queue || c == s;
    assert Blocks(w.queue + [s]) == Blocks(w.queue) + {s};
  }

  /** Queueing a join that has not been visited. */
  lemma QueueStep(f: Interp, g: Graph, code: Code, first: Lists, before: Before, w: Walk, b: Block, s: Block)
    requires WalkOk(f, g, code, first, before, w) && b in w.order && g.Edge(b, s) && s in g.preds && |g.preds[s]| != 1
    requires s !in w.visited
    ensures WalkOk(f, g, code, first, before, Walk(w.order, w.visited + {s}, w.queue + [s], w.gone, w.lists))
  {
    hide RepeatsGone, WalkOk, InSsa, Ordered, Orderly, GoneOk, ListsOk, Without, GoneIn, DomsDone;
    WalkParts(f, g, code, first, before, w);
    SsaParts(g, code, first, before);
    var u := Walk(w.order, w.visited + {s}, w.queue + [s], w.gone, w.lists);
    EntryNotSucc(g, b, s);
    DoneDoms(g, w, b);
    SuccDomsDone(g, w.order, b, s);
    QueueOrderly(g, w, s);
    ListsKept(first, w, u);
    WalkWhole(f, g, code, first, before, u);
  }

  lemma ListsKept(first: Lists, w: Walk, u: Walk)
    requires ListsOk(first, w) && u.order == w.order && u.gone == w.gone && u.lists == w.lists
    ensures ListsOk(first, u)
  {
  }

  lemma EntryNotSucc(g: Graph, b: Block, s: Block)
    requires g.Valid() && g.preds[g.entry] == [] && g.Edge(b, s)
    ensures s != g.entry && s in g.preds && b in g.preds[s] && s in g.succs
  {
  }

  /** An only successor's child may be numbered next if it was not yet. */
  lemma ChildNext(f: Interp, g: Graph, code: Code, first: Lists, before: Before, w: Walk, b: Block, s: Block)
    requires WalkOk(f, g, code, first, before, w) && b in w.order && g.Edge(b, s) && s in g.preds && |g.preds[s]| == 1
    requires s !in w.order
    ensures Next(g, w, s) && g.preds[s] == [b] && AvailIn(g, first, s) == AvailOut(g, first, b)
  {
    hide WalkOk, InSsa, Ordered, GoneOk, ListsOk, Without, GoneIn, StrictDom, AvailIn, AvailOut;
    WalkParts(f, g, code, first, before, w);
    SsaParts(g, code, first, before);
    EntryNotSucc(g, b, s);
    SuccDomsDone(g, w.order, b, s);
    assert g.preds[s] == [b];
    OnlyPredAvail(g, first, b, s);
  }

  /** A child with one predecessor is not numbered before that predecessor. */
  lemma ChildNotDone(f: Interp, g: Graph, code: Code, first: Lists, before: Before, w: Walk, b: Block, s: Block)
    requires WalkOk(f, g, code, first, before, w) && b !in w.order && g.Edge(b, s) && s in g.preds && |g.preds[s]| == 1
    ensures s !in w.order && s != b
  {
    hide WalkOk, Ordered, GoneOk, ListsOk, Without, GoneIn, StrictDom, Placed, ArgsIn, At;
    WalkParts(f, g, code, first, before, w);
    SsaParts(g, code, first, before);
    EntryNotSucc(g, b, s);
    assert g.preds[s] == [b];
    if s == b {
      var q :| PathTo(g, q, b);
      LoopAlone(g, b, q);
    }
  }

  /** What numbering from block b on has added. */
  ghost predicate Grew(g: Graph, first: Lists, w: Walk, u: Walk, b: Block) {
    && |w.order| < |u.order| && u.order[..|w.order|] == w.order && u.order[|w.order|] == b
    && Hanging(g, u.order, |w.order|)
    && (forall x :: x in w.gone ==> x in u.gone && u.gone[x] == w.gone[x])
    && (forall x :: x in u.gone && x !in w.gone ==> x !in SeenIds(first, w.order))
    && |w.queue| <= |u.queue| && u.queue[..|w.queue|] == w.queue
  }

  /** The successors of the blocks numbered from position n on are numbered or queued. */
  ghost predicate Onward(g: Graph, u: Walk, n: nat) {
    forall k, s :: n <= k < |u.order| && u.order[k] in g.succs && s in g.succs[u.order[k]] ==>
                     s in u.order || s in u.queue
  }

  /** While the successors of b are gone through: the first i are numbered or queued, those after them with no other
      predecessor are not numbered. */
  ghost predicate Midway(g: Graph, u: Walk, n: nat, b: Block, i: nat) {
    && n < |u.order| && u.order[n] == b && b in g.succs && i <= |g.succs[b]|
    && Onward(g, u, n + 1)
    && (forall j :: 0 <= j < i ==> g.succs[b][j] in u.order || g.succs[b][j] in u.queue)
    && (forall j :: i <= j < |g.succs[b]| && g.succs[b][j] in g.preds && |g.preds[g.succs[b][j]]| == 1 ==>
                      g.succs[b][j] !in u.order)
  }

  lemma MidwayEnds(g: Graph, u: Walk, n: nat, b: Block)
    requires b in g.succs && Midway(g, u, n, b, |g.succs[b]|)
    ensures Onward(g, u, n)
  {
    forall k, s | n <= k < |u.order| && u.order[k] in g.succs && s in g.succs[u.order[k]]
      ensures s in u.order || s in u.queue
    {
      if k == n { var j :| 0 <= j < |g.succs[b]| && g.succs[b][j] == s; }
    }
  }

  lemma MidwayBegins(f: Interp, g: Graph, code: Code, first: Lists, before: Before, w: Walk, u: Walk, b: Block)
    requires WalkOk(f, g, code, first, before, w) && b !in w.order && b in g.succs && u.order == w.order + [b]
    ensures Midway(g, u, |w.order|, b, 0)
  {
    hide WalkOk;
    forall j | 0 <= j < |g.succs[b]| && g.succs[b][j] in g.preds && |g.preds[g.succs[b][j]]| == 1
      ensures g.succs[b][j] !in u.order
    {
      assert g.Edge(b, g.succs[b][j]);
      ChildNotDone(f, g, code, first, before, w, b, g.succs[b][j]);
    }
  }

  /** What was numbered or queued stays so, in the same positions. */
  lemma GrewPrefix(g: Graph, first: Lists, u: Walk, v: Walk, s: Block)
    requires Grew(g, first, u, v, s)
    ensures |u.order| < |v.order| && v.order[|u.order|] == s
    ensures forall k :: 0 <= k < |u.order| ==> v.order[k] == u.order[k]
    ensures forall x :: (x in u.order ==> x in v.order) && (x in u.queue ==> x in v.queue)
  {
    forall x ensures (x in u.order ==> x in v.order) && (x in u.queue ==> x in v.queue) {
      assert x in u.order ==> x in v.order[..|u.order|];
      assert x in u.queue ==> x in v.queue[..|u.queue|];
    }
    forall k | 0 <= k < |u.order| ensures v.order[k] == u.order[k] { assert v.order[..|u.order|][k] == v.order[k]; }
  }

  lemma OnlyPredIs(g: Graph, b: Block, c: Block)
    requires g.Valid() && g.Edge(b, c) && c in g.preds && |g.preds[c]| == 1
    ensures g.preds[c] == [b]
  {
  }

  /** The next successor was numbered with everything below it. */
  lemma MidwayChild(g: Graph, first: Lists, u: Walk, v: Walk, n: nat, b: Block, i: nat)
    requires g.Valid() && Midway(g, u, n, b, i) && i < |g.succs[b]| && SingleEdges(g) &&
        Grew(g, first, u, v, g.succs[b][i]) && Distinct(v.order)
    requires g.succs[b][i] in g.preds && g.preds[g.succs[b][i]] == [b] && Onward(g, v, |u.order|)
    ensures Midway(g, v, n, b, i + 1)
  {
    hide Grew, Distinct;
    var s := g.succs[b][i];
    GrewPrefix(g, first, u, v, s);
    assert v.order[|u.order|] in v.order;
    assert Onward(g, v, n + 1) by { OnwardChild(g, u, v, n + 1); }
    forall j | i + 1 <= j < |g.succs[b]| && g.succs[b][j] in g.preds && |g.preds[g.succs[b][j]]| == 1
      ensures g.succs[b][j] !in v.order
    {
      OnlyPredIs(g, b, g.succs[b][j]);
      ChildApart(g, first, u, v, n, b, s, g.succs[b][j]);
    }
  }

  lemma OnwardChild(g: Graph, u: Walk, v: Walk, n: nat)
    requires Onward(g, u, n) && Onward(g, v, |u.order|) && |u.order| < |v.order| && forall k :: 0 <= k < |u.order| ==>
        v.order[k] == u.order[k]
    requires forall x :: (x in u.order ==> x in v.order) && (x in u.queue ==> x in v.queue)
    ensures Onward(g, v, n)
  {
    forall k, s | n <= k < |v.order| && v.order[k] in g.succs && s in g.succs[v.order[k]]
      ensures s in v.order || s in v.queue
    {
      if k < |u.order| { assert u.order[k] == v.order[k]; }
    }
  }

  lemma ChildApart(g: Graph, first: Lists, u: Walk, v: Walk, n: nat, b: Block, s: Block, c: Block)
    requires Grew(g, first, u, v, s) && Distinct(v.order) && n < |u.order| && u.order[n] == b
    requires c in g.preds && g.preds[c] == [b] && c != s && c !in u.order
    ensures c !in v.order
  {
    GrewPrefix(g, first, u, v, s);
    assert b !in v.order[|u.order|..] by { assert v.order[n] == b; }
    forall k | 0 <= k < |v.order| ensures v.order[k] != c {
      if k > |u.order| { assert HangsFrom(g, v.order, |u.order|, v.order[k]); }
    }
  }

  /** A join was queued, or the successor was visited before. */
  lemma MidwayJoin(g: Graph, u: Walk, v: Walk, n: nat, b: Block, i: nat)
    requires Midway(g, u, n, b, i) && i < |g.succs[b]| && v.order == u.order
    requires (v.queue == u.queue || v.queue == u.queue + [g.succs[b][i]])
    requires g.succs[b][i] in v.order || g.succs[b][i] in v.queue
    ensures Midway(g, v, n, b, i + 1)
  {
    forall x | x in u.queue ensures x in v.queue { }
  }

  lemma GrewBegins(g: Graph, first: Lists, w: Walk, u: Walk, code: Code, before: Before, b: Block)
    requires InSsa(g, code, first, before) && b in first && b !in w.order && u.order == w.order + [b]
    requires u.queue == w.queue
    requires GoneFrom(g, first, w.gone, u.gone, b)
    ensures Grew(g, first, w, u, b)
  {
    hide InSsa;
    UnseenIds(g, code, first, before, w.order, b);
  }

  /** Every block numbered from position n on but the first has its only predecessor among them. */
  ghost predicate Hanging(g: Graph, order: seq<Block>, n: nat) {
    forall k :: n < k < |order| ==> HangsFrom(g, order, n, order[k])
  }

  ghost predicate HangsFrom(g: Graph, order: seq<Block>, n: nat, c: Block) {
    n <= |order| && c in g.preds && exists p :: p in order[n..] && g.preds[c] == [p]
  }

  lemma HangsLonger(g: Graph, short: seq<Block>, long: seq<Block>, n: nat, c: Block)
    requires HangsFrom(g, short, n, c) && |short| <= |long| && long[..|short|] == short
    ensures HangsFrom(g, long, n, c)
  {
    var p :| p in short[n..] && g.preds[c] == [p];
    assert short[n..] == long[n..|short|];
    assert p in long[n..];
  }

  lemma HangsWider(g: Graph, order: seq<Block>, n: nat, m: nat, c: Block)
    requires HangsFrom(g, order, m, c) && n <= m
    ensures HangsFrom(g, order, n, c)
  {
    var p :| p in order[m..] && g.preds[c] == [p];
    assert order[m..] == order[n..][m - n..];
    assert p in order[n..];
  }

  lemma HangingChild(g: Graph, short: seq<Block>, long: seq<Block>, n: nat, b: Block, s: Block)
    requires Hanging(g, short, n) && Hanging(g, long, |short|) && n < |short| < |long| && long[..|short|] == short
    requires short[n] == b && long[|short|] == s && s in g.preds && g.preds[s] == [b]
    ensures Hanging(g, long, n)
  {
    hide HangsFrom;
    forall k | n < k < |long| ensures HangsFrom(g, long, n, long[k]) {
      if k < |short| {
        assert long[..|short|][k] == short[k];
        HangsLonger(g, short, long, n, short[k]);
      } else if k == |short| {
        assert long[n] == long[..|short|][n] == b;
        HangsBy(g, long, n, b, s);
      } else {
        HangsWider(g, long, n, |short|, long[k]);
      }
    }
  }

  lemma HangsBy(g: Graph, order: seq<Block>, n: nat, b: Block, s: Block)
    requires n < |order| && order[n] == b && s in g.preds && g.preds[s] == [b]
    ensures HangsFrom(g, order, n, s)
  {
    assert order[n..][0] == b;
  }

  lemma GrewChild(g: Graph, first: Lists, w: Walk, u: Walk, v: Walk, b: Block, s: Block)
    requires Grew(g, first, w, u, b) && Grew(g, first, u, v, s) && s in g.preds && g.preds[s] == [b]
    ensures Grew(g, first, w, v, b)
  {
    hide Hanging;
    var n, m := |w.order|, |u.order|;
    assert v.order[..n] == v.order[..m][..n];
    assert v.order[n] == v.order[..m][n];
    assert v.queue[..|w.queue|] == v.queue[..|u.queue|][..|w.queue|];
    HangingChild(g, u.order, v.order, n, b, s);
    assert forall x :: x in w.order ==> x in u.order by { assert forall x :: x in u.order[..n] ==> x in u.order; }
  }

  lemma GrewJoin(g: Graph, first: Lists, w: Walk, u: Walk, v: Walk, b: Block)
    requires Grew(g, first, w, u, b) && v.order == u.order && v.gone == u.gone && |u.queue| <= |v.queue|
    requires v.queue[..|u.queue|] == u.queue
    ensures Grew(g, first, w, v, b)
  {
    assert v.queue[..|w.queue|] == v.queue[..|u.queue|][..|w.queue|];
  }

  /** Fewer blocks are left. */
  lemma FewerLeft(g: Graph, first: Lists, w: Walk, u: Walk, b: Block)
    requires Grew(g, first, w, u, b) && b in g.succs && b !in w.order
    ensures g.succs.Keys - Blocks(u.order) < g.succs.Keys - Blocks(w.order) && b in u.order
  {
    forall x | x in w.order ensures x in u.order { assert x in u.order[..|w.order|]; }
    assert b in u.order;
    assert b in g.succs.Keys - Blocks(w.order);
  }

  /** What is available at the end of a numbered block has been seen. */
  lemma AvailOutSeen(f: Interp, g: Graph, code: Code, first: Lists, before: Before, w: Walk, b: Block)
    requires WalkOk(f, g, code, first, before, w) && b in w.order
    ensures AvailOut(g, first, b) <= SeenIds(first, w.order)
  {
    hide WalkOk, InSsa, Ordered, GoneOk, GoneIn, AvailIn, ListsOk;
    WalkParts(f, g, code, first, before, w);
    SsaParts(g, code, first, before);
    DoneDoms(g, w, b);
    AvailIsSeen(g, first, w.order, b);
  }

  /** The tables stay sound for b after a child was numbered. */
  lemma ChildKeepsSound(f: Interp, g: Graph, code: Code, first: Lists, before: Before, u: Walk, v: Walk, b: Block,
      s: Block, t: Tables, t': Tables)
    requires WalkOk(f, g, code, first, before, u) && b in u.order && Grew(g, first, u, v, s)
    requires Sound(f, code, AvailOut(g, first, b), u.gone, t) && Within(t', t)
    ensures Sound(f, code, AvailOut(g, first, b), v.gone, t')
  {
    hide WalkOk, Sound, Within, AvailOut, SeenIds;
    AvailOutSeen(f, g, code, first, before, u, b);
    WithinSound(f, code, AvailOut(g, first, b), u.gone, t', t);
    GoneKeepsSound(f, code, AvailOut(g, first, b), u.gone, v.gone, t');
  }

  lemma DistinctList(g: Graph, code: Code, first: Lists, before: Before, b: Block)
    requires InSsa(g, code, first, before) && b in first
    ensures Distinct(first[b])
  {
    hide InSsa;
    forall i, j | 0 <= i < j < |first[b]| ensures first[b][i] != first[b][j] {
      if first[b][i] == first[b][j] {
        OnePlace(g, code, first, before, b, i, b, j, first[b][i]);
      }
    }
  }

  /** Nothing is queued or on the stack any more: every block was numbered. */
  lemma {:induction false} AllNumbered(g: Graph, w: Walk, p: Path)
    requires g.Valid() && w.queue == [] && Onward(g, w, 0) && g.entry in w.order && IsPath(g, p)
    ensures End(g, p) in w.order
  {
    if p.Then? {
      AllNumbered(g, w, p.front);
      assert g.Edge(End(g, p.front), p.to);
      var k :| 0 <= k < |w.order| && w.order[k] == End(g, p.front);
      assert w.order[k] in g.succs && p.to in g.succs[w.order[k]];
    }
  }

  // Inside one block.

  /** The first k instructions of b have been numbered, starting from the replacements was. */
  ghost predicate InBlock(g: Graph, first: Lists, was: map<nat, Value>, gone: map<nat, Value>, b: Block, k: nat) {
    && b in first && k <= |first[b]|
    && (forall x :: x in was ==> x in gone && gone[x] == was[x])
    && (forall x :: x in gone && x !in was ==>
                      x in Ids(first[b][..k]) && (gone[x].Var? ==>
                            gone[x].id in AvailIn(g, first, b) + Ids(first[b][..k])))
  }

  lemma IdsNext(s: seq<nat>, k: nat)
    requires k < |s|
    ensures Ids(s[..k + 1]) == Ids(s[..k]) + {s[k]}
  {
    assert s[..k + 1] == s[..k] + [s[k]];
  }

  /** The instruction reached has not been replaced, nor does it replace any. */
  lemma Reached(f: Interp, g: Graph, code: Code, first: Lists, before: Before, w: Walk, gone: map<nat, Value>, b: Block,
      k: nat)
    requires WalkOk(f, g, code, first, before, w) && Next(g, w, b) && InBlock(g, first, w.gone, gone, b, k)
    requires k < |first[b]|
    ensures var d := first[b][k];
            && d in code && d in before && before[d] == AvailIn(g, first, b) + Ids(first[b][..k]) &&
                ArgsIn(code, d, before[d])
            && d !in gone && d !in before[d] && forall y :: y in gone ==> gone[y] != Var(d)
  {
    hide WalkOk, Next, Ordered, GoneOk, ListsOk, Orderly, GoneIn, AvailIn, Placed, Reachable;
    var d := first[b][k];
    WalkParts(f, g, code, first, before, w);
    BlockUntouched(f, g, code, first, before, w, b);
    assert At(first, b, k, d);
    PlacedAt(g, code, first, before, b, k, d);
    NotBeforeItself(g, code, first, before, d);
    forall y | y in gone ensures gone[y] != Var(d) {
      if y in w.gone { assert gone[y] == w.gone[y]; }
    }
  }

  lemma InBlockStep(g: Graph, first: Lists, was: map<nat, Value>, gone: map<nat, Value>, b: Block, k: nat, r: Value)
    requires InBlock(g, first, was, gone, b, k) && k < |first[b]| && first[b][k] !in gone
    requires r.Var? ==> r.id in AvailIn(g, first, b) + Ids(first[b][..k])
    ensures InBlock(g, first, was, gone[first[b][k] := r], b, k + 1)
  {
    hide AvailIn;
    IdsNext(first[b], k);
  }

  lemma InBlockSkip(g: Graph, first: Lists, was: map<nat, Value>, gone: map<nat, Value>, b: Block, k: nat)
    requires InBlock(g, first, was, gone, b, k) && k < |first[b]|
    ensures InBlock(g, first, was, gone, b, k + 1)
  {
    hide AvailIn;
    IdsNext(first[b], k);
  }

  lemma BlockNumbered(g: Graph, first: Lists, was: map<nat, Value>, gone: map<nat, Value>, b: Block)
    requires b in first && InBlock(g, first, was, gone, b, |first[b]|)
    ensures GoneFrom(g, first, was, gone, b)
  {
    assert first[b][..|first[b]|] == first[b];
  }

  lemma UnnumberedList(f: Interp, g: Graph, code: Code, first: Lists, before: Before, w: Walk, b: Block)
    requires WalkOk(f, g, code, first, before, w) && Next(g, w, b)
    ensures b in first && b in w.lists && w.lists[b] == first[b] && Reachable(g, b)
  {
    hide WalkOk, Orderly, Ordered, GoneOk, GoneIn, Reachable, Without;
    WalkParts(f, g, code, first, before, w);
    SsaParts(g, code, first, before);
  }

  /** Deleting what was replaced in the block removes all replaced instructions from it. */
  lemma DeletesAll(f: Interp, g: Graph, code: Code, first: Lists, before: Before, w: Walk, gone: map<nat, Value>,
      b: Block, out: set<nat>)
    requires WalkOk(f, g, code, first, before, w) && Next(g, w, b)
    requires b in first && out == gone.Keys - w.gone.Keys
    ensures Without(first[b], out) == Without(first[b], gone.Keys)
  {
    hide WalkOk, Next, Without;
    BlockUntouched(f, g, code, first, before, w, b);
    WithoutSame(first[b], out, gone.Keys);
  }

  /** One instruction has been numbered. */
  lemma NumberedStep(g: Graph, first: Lists, was: map<nat, Value>, prev: map<nat, Value>, gone: map<nat, Value>,
      b: Block, k: nat, prevWait: seq<nat>, wait: seq<nat>)
    requires InBlock(g, first, was, prev, b, k) && k < |first[b]| && first[b][k] !in prev
    requires (gone == prev && wait == prevWait) ||
             (exists r :: gone == prev[first[b][k] := r] && wait == prevWait + [first[b][k]] &&
                          (r.Var? ==> r.id in AvailIn(g, first, b) + Ids(first[b][..k])))
    requires Ids(prevWait) == prev.Keys - was.Keys
    ensures InBlock(g, first, was, gone, b, k + 1) && Ids(wait) == gone.Keys - was.Keys
  {
    hide AvailIn;
    if gone == prev && wait == prevWait {
      InBlockSkip(g, first, was, prev, b, k);
    } else {
      var d := first[b][k];
      var r :| gone == prev[d := r] && wait == prevWait + [d] &&
          (r.Var? ==> r.id in AvailIn(g, first, b) + Ids(first[b][..k]));
      InBlockStep(g, first, was, prev, b, k, r);
      assert Ids(wait) == Ids(prevWait) + {d};
    }
  }

  lemma BlockBegins(g: Graph, first: Lists, was: map<nat, Value>, b: Block)
    requires b in first
    ensures InBlock(g, first, was, was, b, 0) && Ids(first[b][..0]) == {} &&
        AvailIn(g, first, b) + Ids(first[b][..0]) == AvailIn(g, first, b)
    ensures was.Keys - was.Keys == {}
  {
  }

  lemma NoIds()
    ensures Ids([]) == {}
  {
  }

  // The steps of numbering a block and what hangs below it.

  lemma StartBlock(f: Interp, g: Graph, code: Code, first: Lists, before: Before, w: Walk, b: Block, t: Tables)
    requires WalkOk(f, g, code, first, before, w) && Next(g, w, b) && Sound(f, code, AvailIn(g, first, b), w.gone, t)
    ensures Ready(f, code, before, w.gone, AvailIn(g, first, b), PushScope(t)) && Shrunk(PushScope(t), PushScope(t))
    ensures b in first && b in g.succs && b !in w.order && b in w.lists && w.lists[b] == first[b]
    ensures Distinct(w.lists[b])
  {
    hide WalkOk, Next, InSsa, Ordered, GoneOk, GoneIn, Orderly, ListsOk, Sound, AvailIn, SeenIds, Reachable;
    WalkParts(f, g, code, first, before, w);
    NextParts(g, w, b);
    UnnumberedList(f, g, code, first, before, w, b);
    DistinctList(g, code, first, before, b);
    AvailInDown(g, code, first, before, b);
    PushScopeSound(f, code, AvailIn(g, first, b), w.gone, t);
    ReadyWhole(f, code, before, w.gone, AvailIn(g, first, b), PushScope(t));
  }

  lemma ReadySound(f: Interp, code: Code, before: Before, gone: map<nat, Value>, avail: set<nat>, t: Tables)
    requires Ready(f, code, before, gone, avail, t)
    ensures Sound(f, code, avail, gone, t) && GoneOk(f, code, before, gone)
  {
  }

  lemma BeginChildren(f: Interp, g: Graph, code: Code, first: Lists, before: Before, w: Walk, u: Walk, b: Block)
    requires WalkOk(f, g, code, first, before, w) && Next(g, w, b) && GoneFrom(g, first, w.gone, u.gone, b)
    requires u.order == w.order + [b] && u.queue == w.queue
    ensures Grew(g, first, w, u, b) && Midway(g, u, |w.order|, b, 0) && b in u.order && b in g.succs
  {
    hide WalkOk, Next, InSsa, Ordered, GoneOk, GoneIn, Orderly, ListsOk, GoneFrom, Grew, Midway;
    WalkParts(f, g, code, first, before, w);
    SsaParts(g, code, first, before);
    NextParts(g, w, b);
    GrewBegins(g, first, w, u, code, before, b);
    MidwayBegins(f, g, code, first, before, w, u, b);
  }

  lemma EdgeFacts(f: Interp, g: Graph, code: Code, first: Lists, before: Before, u: Walk, b: Block, i: nat)
    requires WalkOk(f, g, code, first, before, u) && b in g.succs && i < |g.succs[b]|
    ensures g.Valid() && SingleEdges(g) && Distinct(u.order)
    ensures var s := g.succs[b][i]; g.Edge(b, s) && s in g.preds && s in g.succs && s != g.entry
  {
    hide WalkOk, InSsa, Ordered, GoneOk, GoneIn, ListsOk, DomsDone;
    WalkParts(f, g, code, first, before, u);
    SsaParts(g, code, first, before);
    EntryNotSucc(g, b, g.succs[b][i]);
  }

  lemma ChildReady(f: Interp, g: Graph, code: Code, first: Lists, before: Before, w: Walk, u: Walk, b: Block, i: nat)
    requires WalkOk(f, g, code, first, before, u) && b in g.succs && i < |g.succs[b]| && b in u.order && b !in w.order
    requires Midway(g, u, |w.order|, b, i) && Grew(g, first, w, u, b)
    requires var s := g.succs[b][i]; g.Edge(b, s) && s in g.preds && |g.preds[s]| == 1
    ensures Next(g, u, g.succs[b][i]) && AvailIn(g, first, g.succs[b][i]) == AvailOut(g, first, b)
    ensures g.succs.Keys - Blocks(u.order) < g.succs.Keys - Blocks(w.order)
  {
    hide WalkOk, Next, AvailIn, AvailOut, Grew;
    ChildNext(f, g, code, first, before, u, b, g.succs[b][i]);
    FewerLeft(g, first, w, u, b);
  }

  lemma ChildDone(f: Interp, g: Graph, code: Code, first: Lists, before: Before, w: Walk, u: Walk, v: Walk, b: Block,
      i: nat)
    requires WalkOk(f, g, code, first, before, v) && b in g.succs && i < |g.succs[b]| && b in u.order
    requires Midway(g, u, |w.order|, b, i) && Grew(g, first, w, u, b) && Grew(g, first, u, v, g.succs[b][i])
    requires Onward(g, v, |u.order|)
    requires var s := g.succs[b][i]; g.Edge(b, s) && s in g.preds && |g.preds[s]| == 1
    ensures Midway(g, v, |w.order|, b, i + 1) && Grew(g, first, w, v, b) && b in v.order
  {
    hide WalkOk, Grew, Midway, Onward;
    var s := g.succs[b][i];
    EdgeFacts(f, g, code, first, before, v, b, i);
    OnlyPredIs(g, b, s);
    MidwayChild(g, first, u, v, |w.order|, b, i);
    GrewChild(g, first, w, u, v, b, s);
    GrewPrefix(g, first, u, v, s);
  }

  lemma JoinQueued(f: Interp, g: Graph, code: Code, first: Lists, before: Before, w: Walk, u: Walk, v: Walk, b: Block,
      i: nat)
    requires WalkOk(f, g, code, first, before, u) && b in g.succs && i < |g.succs[b]| && b in u.order
    requires g.succs[b][i] !in u.visited
    requires var s := g.succs[b][i]; g.Edge(b, s) && s in g.preds && |g.preds[s]| != 1
    requires Midway(g, u, |w.order|, b, i) && Grew(g, first, w, u, b)
    requires v == Walk(u.order, u.visited + {g.succs[b][i]}, u.queue + [g.succs[b][i]], u.gone, u.lists)
    ensures WalkOk(f, g, code, first, before, v) && Midway(g, v, |w.order|, b, i + 1) && Grew(g, first, w, v, b)
  {
    hide WalkOk, Grew, Midway;
    QueueStep(f, g, code, first, before, u, b, g.succs[b][i]);
    MidwayJoin(g, u, v, |w.order|, b, i);
    GrewJoin(g, first, w, u, v, b);
  }

  lemma JoinSeen(f: Interp, g: Graph, code: Code, first: Lists, before: Before, u: Walk, b: Block, i: nat)
    requires WalkOk(f, g, code, first, before, u) && b in g.succs && i < |g.succs[b]| && g.succs[b][i] in u.visited
    ensures forall n: nat :: Midway(g, u, n, b, i) ==> Midway(g, u, n, b, i + 1)
  {
    hide WalkOk, InSsa, Ordered, GoneOk, GoneIn, ListsOk, DomsDone, Midway;
    WalkParts(f, g, code, first, before, u);
    forall n: nat | Midway(g, u, n, b, i) ensures Midway(g, u, n, b, i + 1) { MidwayJoin(g, u, u, n, b, i); }
  }

  // The queue.

  /** The blocks numbered or queued count as visited. */
  ghost function Canon(g: Graph, w: Walk): Walk {
    Walk(w.order, Blocks(w.order) + (Blocks(w.queue) - {g.entry}), w.queue, w.gone, w.lists)
  }

  lemma CanonFields(g: Graph, w: Walk, b: Block)
    requires Next(g, w, b)
    ensures Canon(g, w).order == w.order && Canon(g, w).queue == w.queue && Canon(g, w).gone == w.gone
    ensures Canon(g, w).lists == w.lists
    ensures Next(g, Canon(g, w), b)
  {
  }

  lemma CanonSame(f: Interp, g: Graph, code: Code, first: Lists, before: Before, w: Walk)
    requires WalkOk(f, g, code, first, before, w)
    ensures Canon(g, w) == w
  {
    hide InSsa, Ordered, GoneOk, GoneIn, ListsOk, DomsDone;
  }

  lemma WalkBegins(f: Interp, g: Graph, code: Code, first: Lists, before: Before)
    requires InSsa(g, code, first, before) && Commutes(f) && SingleEdges(g)
    ensures var w := Walk([], {}, [g.entry], map[], first); WalkOk(f, g, code, first, before, w) && Onward(g, w, 0)
  {
    hide InSsa, Ordered, Placed, SingleEdges, Commutes;
    var w := Walk([], {}, [g.entry], map[], first);
    SsaParts(g, code, first, before);
    DominanceOrders(g, code, first, before);
    forall d | d in g.succs && StrictDom(g, d, g.entry) ensures false { EntryAlone(g, d); }
    assert DomsDone(g, [], g.entry);
    assert Blocks([]) == {} && Blocks([g.entry]) == {g.entry};
    assert Orderly(g, w);
    WalkWhole(f, g, code, first, before, w);
  }

  lemma EntryAlone(g: Graph, d: Block)
    ensures !StrictDom(g, d, g.entry)
  {
    assert PathTo(g, Begin, g.entry);
  }

  lemma PopReady(f: Interp, g: Graph, code: Code, first: Lists, before: Before, w: Walk, u: Walk, b: Block)
    requires WalkOk(f, g, code, first, before, w) && w.queue != [] && w.queue[0] == b && u == w.(queue := w.queue[1..])
    ensures WalkOk(f, g, code, first, before, Canon(g, u)) && Next(g, u, b)
    ensures u.visited + {b} == Canon(g, u).visited + {b}
  {
    hide RepeatsGone, WalkOk, InSsa, Ordered, GoneOk, GoneIn, DomsDone, ListsOk;
    WalkParts(f, g, code, first, before, w);
    assert w.queue == [b] + u.queue;
    assert b in w.queue;
    assert forall c :: c in w.queue <==> c == b || c in u.queue;
    assert Blocks(w.queue) == {b} + Blocks(u.queue);
    ListsKept(first, w, Canon(g, u));
    PopOrderly(g, w, u, b);
    WalkWhole(f, g, code, first, before, Canon(g, u));
  }

  lemma PopOrderly(g: Graph, w: Walk, u: Walk, b: Block)
    requires Orderly(g, w) && w.queue == [b] + u.queue && u == w.(queue := u.queue)
    ensures Orderly(g, Canon(g, u)) && b !in u.queue
  {
    hide DomsDone;
    forall i, j | 0 <= i < j < |u.queue| ensures u.queue[i] != u.queue[j] {
      assert w.queue[i + 1] == u.queue[i] && w.queue[j + 1] == u.queue[j];
    }
    forall i | 0 <= i < |u.queue| ensures u.queue[i] != b { assert w.queue[0] == b && w.queue[i + 1] == u.queue[i]; }
    assert forall c :: c in u.queue ==> c in w.queue;
  }

  /** The block at the head of the queue is numbered, with what hangs below it. */
  lemma QueueServed(f: Interp, g: Graph, code: Code, first: Lists, before: Before, w: Walk, u: Walk, v: Walk, b: Block)
    requires WalkOk(f, g, code, first, before, w) && w.queue != [] && w.queue[0] == b && u == w.(queue := w.queue[1..])
    requires Onward(g, w, 0) && Grew(g, first, Canon(g, u), v, b) && Onward(g, v, |u.order|) && Next(g, u, b)
    requires g.entry in w.order || g.entry in w.queue
    ensures Onward(g, v, 0) && (g.entry in v.order || g.entry in v.queue)
    ensures g.succs.Keys - Blocks(v.order) < g.succs.Keys - Blocks(w.order)
  {
    hide WalkOk, Grew, Blocks;
    GrewPrefix(g, first, Canon(g, u), v, b);
    FewerLeft(g, first, Canon(g, u), v, b);
    forall x | x in w.queue ensures x in v.order || x in v.queue { assert x == b || x in u.queue; }
    forall k, s | 0 <= k < |v.order| && v.order[k] in g.succs && s in g.succs[v.order[k]]
      ensures s in v.order || s in v.queue
    {
      if k < |w.order| { assert w.order[k] == v.order[k]; }
    }
  }

  lemma EmptyWithin(t: Tables)
    requires Within(t, Tables([], [], []))
    ensures t == Tables([], [], [])
  {
  }

  lemma WalkEnds(f: Interp, g: Graph, code: Code, first: Lists, before: Before, w: Walk)
    requires WalkOk(f, g, code, first, before, w) && w.queue == [] && Onward(g, w, 0) && g.entry in w.order
    ensures Distinct(w.order) && Blocks(w.order) == g.succs.Keys && GoneOk(f, code, before, w.gone)
    ensures w.lists.Keys == first.Keys && forall b :: b in first ==> w.lists[b] == Without(first[b], w.gone.Keys)
    ensures forall b :: b in first ==> RepeatsGone(code, w.gone, first[b], |first[b]|)
  {
    hide RepeatsGone, WalkOk, InSsa, Ordered, GoneOk, GoneIn, Without, DomsDone, Onward;
    WalkParts(f, g, code, first, before, w);
    SsaParts(g, code, first, before);
    forall b | b in g.succs ensures b in w.order {
      var p :| PathTo(g, p, b);
      AllNumbered(g, w, p);
    }
  }
}
