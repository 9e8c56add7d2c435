/** Value numbering of a whole function as a function of how deep its look-ups may nest: numbering ends within some
    depth exactly when no look-up it meets is circular. */
module ValueWhole {
  import opened Cfg
  import opened ValueTable
  import opened ValueOrder
  import opened ValueFlow
  import opened ValueRepeat
  import opened ValueWalk
  import opened ValueSearch
  import opened ValueAddress
  import opened ValueExtended
  import opened Wrappers

  /** Look-ups nest to a depth, or are watched for circles. */
  datatype Bound = Deep(fuel: nat) | Watched

  /** The function that is numbered; keys are its instructions in the order of their addresses. */
  datatype Input = Input(g: Graph, code: Code, first: Lists, keys: seq<nat>)

  /** The tables, what was replaced, the numbered blocks, and the blocks seen and queued. */
  datatype Progress = Progress(t: Tables, gone: map<nat, Value>, order: seq<Block>, visited: set<Block>,
      queue: seq<Block>)

  function LimitAt(bound: Bound, t: Tables): Limit {
    match bound
    case Deep(fuel) => Fuel(fuel)
    case Watched => Watch(t, {})
  }

  ghost function SearchAt(x: Input, t: Tables, gone: map<nat, Value>, d: nat, bound: Bound): Search<Value> {
    var c := Context(x.code, gone, x.keys);
    if Fit(c) && Scoped(t) && Var(d) in Pool(x.code) then Look(c, t, Var(d), LimitAt(bound, t)) else Spent
  }

  /** One instruction, replaced by what its search gives unless that is itself. */
  ghost function NumberOne(x: Input, t: Tables, gone: map<nat, Value>, d: nat,
      bound: Bound): Option<(Tables, map<nat, Value>)> {
    if !IsNumbered(x.code, Var(d)) then Some((t, gone))
    else
      match SearchAt(x, t, gone, d, bound)
      case Spent => None
      case Ended(u, r) => Some(if r == Var(d) then (u, gone) else (Deleted(x.code, gone, u, d), gone[d := r]))
  }

  /** The instructions ds from number k on. */
  ghost function NumberList(x: Input, t: Tables, gone: map<nat, Value>, ds: seq<nat>, k: nat, bound: Bound)
    : Option<(Tables, map<nat, Value>)>
    decreases |ds| - k
  {
    if k >= |ds| then Some((t, gone))
    else
      match NumberOne(x, t, gone, ds[k], bound)
      case None => None
      case Some(u) => NumberList(x, u.0, u.1, ds, k + 1, bound)
  }

  ghost function Left(x: Input, p: Progress): set<Block> {
    x.g.succs.Keys - Blocks(p.order)
  }

  /** The innermost scope is closed. */
  function Closed(p: Option<Progress>): Option<Progress> {
    match p
    case None => None
    case Some(q) =>
      Some(if q.t.binary != [] && q.t.gep != [] && q.t.values != [] then q.(t := PopScope(q.t)) else q)
  }

  /** Block b inside a scope of its own, then what hangs below it. */
  ghost function NumberTree(x: Input, p: Progress, b: Block, bound: Bound): (r: Option<Progress>)
    ensures r.Some? ==> Left(x, r.value) < Left(x, p)
    decreases Left(x, p), 0, 0
  {
    if b !in x.g.succs || b !in x.first || b in p.order then None
    else
      match NumberList(x, PushScope(p.t), p.gone, x.first[b], 0, bound)
      case None => None
      case Some(u) =>
        var q := Progress(u.0, u.1, p.order + [b], p.visited + {b}, p.queue);
        LeftLess(x, p, q, b);
        Closed(NumberBelow(x, q, b, 0, bound))
  }

  /** The successors of b from number i on: those with no other predecessor are numbered, joins are queued. */
  ghost function NumberBelow(x: Input, p: Progress, b: Block, i: nat, bound: Bound): (r: Option<Progress>)
    ensures r.Some? ==> Left(x, r.value) <= Left(x, p)
    decreases Left(x, p), 1, if b in x.g.succs then |x.g.succs[b]| - i else 0
  {
    if b !in x.g.succs || i >= |x.g.succs[b]| then Some(p)
    else
      var s := x.g.succs[b][i];
      if s in x.g.preds && |x.g.preds[s]| == 1 then
        match NumberTree(x, p, s, bound)
        case None => None
        case Some(q) => NumberBelow(x, q, b, i + 1, bound)
      else if s !in p.visited then
        NumberBelow(x, p.(visited := p.visited + {s}, queue := p.queue + [s]), b, i + 1, bound)
      else
        NumberBelow(x, p, b, i + 1, bound)
  }

  /** The queue until it is empty. */
  ghost function NumberAll(x: Input, p: Progress, bound: Bound): Option<Progress>
    decreases Left(x, p)
  {
    if p.queue == [] then Some(p)
    else
      match NumberTree(x, p.(queue := p.queue[1..]), p.queue[0], bound)
      case None => None
      case Some(q) => NumberAll(x, q, bound)
  }

  ghost function Beginning(x: Input): Progress {
    Progress(Tables([], [], []), map[], [], {}, [x.g.entry])
  }

  ghost function Numbering(x: Input, bound: Bound): Option<Progress> {
    NumberAll(x, Beginning(x), bound)
  }

  lemma LeftLess(x: Input, p: Progress, q: Progress, b: Block)
    requires b in x.g.succs && b !in p.order && q.order == p.order + [b]
    ensures Left(x, q) < Left(x, p)
  {
    assert b in Left(x, p) && b !in Left(x, q);
    assert forall c :: c in p.order ==> c in q.order;
  }

  // Depth and circles.

  /** A result within a depth is the watched one, and with enough depth there is no other. */
  ghost predicate Agree<T>(r: Option<T>, w: Option<T>, enough: bool) {
    (r.Some? || enough) ==> r == w
  }

  lemma AgreeOne(x: Input, t: Tables, gone: map<nat, Value>, d: nat, n: nat)
    ensures Agree(NumberOne(x, t, gone, d, Deep(n)), NumberOne(x, t, gone, d, Watched), n >= Enough(x.code))
  {
    hide Fit, Pool, Scoped, Look, Nesting, Deleted;
    var c := Context(x.code, gone, x.keys);
    if Fit(c) && Scoped(t) && Var(d) in Pool(x.code) { EndsWithin(c, t, Var(d), n); }
  }

  lemma {:induction false} AgreeList(x: Input, t: Tables, gone: map<nat, Value>, ds: seq<nat>, k: nat, n: nat)
    ensures Agree(NumberList(x, t, gone, ds, k, Deep(n)), NumberList(x, t, gone, ds, k, Watched), n >= Enough(x.code))
    decreases |ds| - k
  {
    hide NumberOne, Nesting, Pool;
    if k < |ds| {
      AgreeOne(x, t, gone, ds[k], n);
      var u := NumberOne(x, t, gone, ds[k], Deep(n));
      var w := NumberOne(x, t, gone, ds[k], Watched);
      if u.Some? { AgreeList(x, u.value.0, u.value.1, ds, k + 1, n); }
    }
  }

  lemma {:induction false} AgreeTree(x: Input, p: Progress, b: Block, n: nat)
    ensures Agree(NumberTree(x, p, b, Deep(n)), NumberTree(x, p, b, Watched), n >= Enough(x.code))
    decreases Left(x, p), 0, 0
  {
    hide NumberList, Nesting, Pool, PushScope, PopScope, Left;
    if b in x.g.succs && b in x.first && b !in p.order {
      AgreeList(x, PushScope(p.t), p.gone, x.first[b], 0, n);
      var u := NumberList(x, PushScope(p.t), p.gone, x.first[b], 0, Deep(n));
      if u.Some? {
        var q := Progress(u.value.0, u.value.1, p.order + [b], p.visited + {b}, p.queue);
        LeftLess(x, p, q, b);
        AgreeBelow(x, q, b, 0, n);
      }
    }
  }

  lemma {:induction false} AgreeBelow(x: Input, p: Progress, b: Block, i: nat, n: nat)
    ensures Agree(NumberBelow(x, p, b, i, Deep(n)), NumberBelow(x, p, b, i, Watched), n >= Enough(x.code))
    decreases Left(x, p), 1, if b in x.g.succs then |x.g.succs[b]| - i else 0
  {
    hide NumberTree, Nesting, Pool;
    if b in x.g.succs && i < |x.g.succs[b]| {
      var s := x.g.succs[b][i];
      if s in x.g.preds && |x.g.preds[s]| == 1 {
        AgreeTree(x, p, s, n);
        var q := NumberTree(x, p, s, Deep(n));
        if q.Some? { AgreeBelow(x, q.value, b, i + 1, n); }
      } else if s !in p.visited {
        AgreeBelow(x, p.(visited := p.visited + {s}, queue := p.queue + [s]), b, i + 1, n);
      } else {
        AgreeBelow(x, p, b, i + 1, n);
      }
    }
  }

  lemma {:induction false} AgreeAll(x: Input, p: Progress, n: nat)
    ensures Agree(NumberAll(x, p, Deep(n)), NumberAll(x, p, Watched), n >= Enough(x.code))
    decreases Left(x, p)
  {
    hide NumberTree, Nesting, Pool, Left;
    if p.queue != [] {
      AgreeTree(x, p.(queue := p.queue[1..]), p.queue[0], n);
      var q := NumberTree(x, p.(queue := p.queue[1..]), p.queue[0], Deep(n));
      if q.Some? {
        LeftQueue(x, p, p.queue[1..]);
        AgreeAll(x, q.value, n);
      }
    }
  }

  lemma LeftQueue(x: Input, p: Progress, queue: seq<Block>)
    ensures Left(x, p.(queue := queue)) == Left(x, p)
  {
  }

  /** Numbering ends within some depth exactly when it meets no circular look-up, and every depth from Enough on gives
      the same result. */
  lemma NumberingEnds(x: Input, n: nat)
    ensures (exists m: nat :: Numbering(x, Deep(m)).Some?) <==> Numbering(x, Watched).Some?
    ensures n >= Enough(x.code) ==> Numbering(x, Deep(n)) == Numbering(x, Watched)
    ensures Numbering(x, Deep(n)).Some? ==> Numbering(x, Deep(n)) == Numbering(x, Watched)
  {
    hide NumberAll, Nesting, Pool;
    AgreeAll(x, Beginning(x), n);
    AgreeAll(x, Beginning(x), Enough(x.code));
    if m: nat :| Numbering(x, Deep(m)).Some? { AgreeAll(x, Beginning(x), m); }
  }

  // One step at a time.

  lemma ListStep(x: Input, t: Tables, gone: map<nat, Value>, ds: seq<nat>, k: nat, bound: Bound, u: Tables,
      more: map<nat, Value>)
    requires k < |ds| && NumberOne(x, t, gone, ds[k], bound) == Some((u, more))
    ensures NumberList(x, t, gone, ds, k, bound) == NumberList(x, u, more, ds, k + 1, bound)
  {
    hide NumberOne;
  }

  lemma ListFails(x: Input, t: Tables, gone: map<nat, Value>, ds: seq<nat>, k: nat, bound: Bound)
    requires k < |ds| && NumberOne(x, t, gone, ds[k], bound).None?
    ensures NumberList(x, t, gone, ds, k, bound).None?
  {
    hide NumberOne;
  }

  lemma TreeBegins(x: Input, p: Progress, b: Block, bound: Bound, q: Progress)
    requires b in x.g.succs && b in x.first && b !in p.order
    requires NumberList(x, PushScope(p.t), p.gone, x.first[b], 0, bound) == Some((q.t, q.gone))
    requires q.order == p.order + [b] && q.visited == p.visited + {b} && q.queue == p.queue
    ensures NumberTree(x, p, b, bound) == Closed(NumberBelow(x, q, b, 0, bound))
  {
    hide NumberList, PushScope, PopScope, NumberBelow;
  }

  lemma TreeFails(x: Input, p: Progress, b: Block, bound: Bound)
    requires b in x.first ==> NumberList(x, PushScope(p.t), p.gone, x.first[b], 0, bound).None?
    ensures NumberTree(x, p, b, bound).None?
  {
    hide NumberList, PushScope, PopScope, NumberBelow;
  }

  lemma BelowChild(x: Input, p: Progress, b: Block, i: nat, bound: Bound, r: Option<Progress>)
    requires b in x.g.succs && i < |x.g.succs[b]|
    requires var s := x.g.succs[b][i]; s in x.g.preds && |x.g.preds[s]| == 1 && NumberTree(x, p, s, bound) == r
    ensures NumberBelow(x, p, b, i, bound) == if r.None? then None else NumberBelow(x, r.value, b, i + 1, bound)
  {
    hide NumberTree;
  }

  lemma BelowJoin(x: Input, p: Progress, b: Block, i: nat, bound: Bound, q: Progress)
    requires b in x.g.succs && i < |x.g.succs[b]|
    requires var s := x.g.succs[b][i];
             && !(s in x.g.preds && |x.g.preds[s]| == 1)
             && q == if s in p.visited then p else p.(visited := p.visited + {s}, queue := p.queue + [s])
    ensures NumberBelow(x, p, b, i, bound) == NumberBelow(x, q, b, i + 1, bound)
  {
    hide NumberTree;
  }

  lemma BelowEnds(x: Input, p: Progress, b: Block, bound: Bound)
    requires b in x.g.succs
    ensures NumberBelow(x, p, b, |x.g.succs[b]|, bound) == Some(p)
  {
  }

  lemma AllStep(x: Input, p: Progress, bound: Bound, r: Option<Progress>)
    requires p.queue != [] && NumberTree(x, p.(queue := p.queue[1..]), p.queue[0], bound) == r
    ensures NumberAll(x, p, bound) == if r.None? then None else NumberAll(x, r.value, bound)
  {
    hide NumberTree;
  }

  lemma AllEnds(x: Input, p: Progress, bound: Bound)
    requires p.queue == []
    ensures NumberAll(x, p, bound) == Some(p)
  {
  }

  // The successors of a block.

  /** While the successors of b are gone through: u is the walk and v are the tables, w and t those before b. */
  ghost predicate Among(f: Interp, x: Input, before: Before, path: seq<Block>, w: Walk, t: Tables, b: Block,
                        i: nat, u: Walk, v: Tables) {
    var holds :=
      && WalkOk(f, x.g, x.code, x.first, before, u) && Grew(x.g, x.first, w, u, b) && b in u.order && b in x.g.succs
      && b !in w.order && Midway(x.g, u, |w.order|, b, i) && Shrunk(PushScope(t), v)
      && Sound(f, x.code, AvailOut(x.g, x.first, b), u.gone, v) && Tidy(x.code, v) && GoneKinds(x.code, u.gone)
      && path != [] && path[|path| - 1] == b && Branch(x.g, path) && Blocks(path) <= Blocks(u.order)
      && (AddressesLocal(x.g, x.code, x.first) ==> Opened(x.code, u.gone, v, SeenIds(x.first, path)));
    holds
  }

  /** The block itself has been numbered. */
  lemma AmongBegins(f: Interp, x: Input, before: Before, up: seq<Block>, w: Walk, t: Tables, b: Block, u: Walk,
      v: Tables)
    requires WalkOk(f, x.g, x.code, x.first, before, w) && Next(x.g, w, b) && GoneFrom(x.g, x.first, w.gone, u.gone, b)
    requires u.order == w.order + [b] && u.queue == w.queue && u.visited == w.visited + {b}
    requires b in w.lists && b in x.first && u.lists == w.lists[b := Without(x.first[b], u.gone.Keys)]
    requires Ready(f, x.code, before, u.gone, AvailOut(x.g, x.first, b), v) && Shrunk(PushScope(t), v)
    requires Tidy(x.code, v) && GoneKinds(x.code, u.gone) && Branch(x.g, up + [b]) && Blocks(up) <= Blocks(w.order)
    requires AddressesLocal(x.g, x.code, x.first) ==> Opened(x.code, u.gone, v, SeenIds(x.first, up + [b]))
    requires RepeatsGone(x.code, u.gone, x.first[b], |x.first[b]|)
    ensures Among(f, x, before, up + [b], w, t, b, 0, u, v)
  {
    hide WalkOk, Next, GoneFrom, Grew, Midway, Shrunk, Sound, AvailIn, AvailOut, Ready, Tidy, GoneKinds, Branch, Blocks,
      AddressesLocal, Opened, SeenIds, PushScope, Without, RepeatsGone;
    NextParts(x.g, w, b);
    ReadySound(f, x.code, before, u.gone, AvailOut(x.g, x.first, b), v);
    BlockDone(f, x.g, x.code, x.first, before, w, b, u.gone);
    BeginChildren(f, x.g, x.code, x.first, before, w, u, b);
    PathSeen(up, b, w.order, u.order);
  }

  /** A successor without other predecessors can be numbered. */
  lemma AmongChild(f: Interp, x: Input, before: Before, path: seq<Block>, w: Walk, t: Tables, b: Block,
                   i: nat, u: Walk, v: Tables)
    requires Among(f, x, before, path, w, t, b, i, u, v) && b in x.g.succs && i < |x.g.succs[b]|
    ensures var s := x.g.succs[b][i]; s in x.g.preds
    ensures var s := x.g.succs[b][i]; |x.g.preds[s]| == 1 ==>
              && WalkOk(f, x.g, x.code, x.first, before, Canon(x.g, u)) && Canon(x.g, u) == u && Next(x.g, u, s)
              && Sound(f, x.code, AvailIn(x.g, x.first, s), u.gone, v) && Tidy(x.code, v) && GoneKinds(x.code, u.gone)
              && Branch(x.g, path + [s]) && Blocks(path) <= Blocks(u.order)
              && (AddressesLocal(x.g, x.code, x.first) ==> Opened(x.code, u.gone, v, SeenIds(x.first, path)))
              && x.g.succs.Keys - Blocks(u.order) < x.g.succs.Keys - Blocks(w.order)
  {
    hide WalkOk, Grew, Midway, Shrunk, Sound, AvailIn, AvailOut, Tidy, GoneKinds, Branch, Blocks, AddressesLocal,
        Opened,
      SeenIds, Next, Canon, PushScope;
    var s := x.g.succs[b][i];
    EdgeFacts(f, x.g, x.code, x.first, before, u, b, i);
    if |x.g.preds[s]| == 1 {
      ChildReady(f, x.g, x.code, x.first, before, w, u, b, i);
      CanonSame(f, x.g, x.code, x.first, before, u);
      ChildBranch(f, x.g, x.code, x.first, before, u, path, b, s);
    }
  }

  /** It has been numbered. */
  lemma AmongNext(f: Interp, x: Input, before: Before, path: seq<Block>, w: Walk, t: Tables, b: Block,
                  i: nat, u: Walk, v: Tables, u': Walk, v': Tables)
    requires Among(f, x, before, path, w, t, b, i, u, v) && b in x.g.succs && i < |x.g.succs[b]|
    requires var s := x.g.succs[b][i]; s in x.g.preds && |x.g.preds[s]| == 1 && Grew(x.g, x.first, u, u', s)
    requires WalkOk(f, x.g, x.code, x.first, before, u') && Onward(x.g, u', |u.order|)
    requires Within(v', v) && v'.gep == v.gep && Tidy(x.code, v') && GoneKinds(x.code, u'.gone)
    ensures Among(f, x, before, path, w, t, b, i + 1, u', v')
  {
    hide WalkOk, Grew, Midway, Shrunk, Sound, AvailIn, AvailOut, Tidy, GoneKinds, Branch, Blocks, AddressesLocal,
        Opened,
      SeenIds, Within, Onward, PushScope;
    var s := x.g.succs[b][i];
    EdgeFacts(f, x.g, x.code, x.first, before, u, b, i);
    ChildDone(f, x.g, x.code, x.first, before, w, u, u', b, i);
    assert Sound(f, x.code, AvailOut(x.g, x.first, b), u'.gone, v') by {
      ChildKeepsSound(f, x.g, x.code, x.first, before, u, u', b, s, v, v');
    }
    assert Shrunk(PushScope(t), v') by {
      WithinShrunk(v, v');
      ShrunkTrans(PushScope(t), v, v');
    }
    assert Blocks(path) <= Blocks(u'.order) by { GrewBlocks(x.g, x.first, u, u', s); }
    if AddressesLocal(x.g, x.code, x.first) { OpenedGrew(x.g, x.code, x.first, u, u', s, path, v, v'); }
  }

  /** A join has been queued, or was seen before. */
  lemma AmongJoin(f: Interp, x: Input, before: Before, path: seq<Block>, w: Walk, t: Tables, b: Block,
                  i: nat, u: Walk, v: Tables, u': Walk)
    requires Among(f, x, before, path, w, t, b, i, u, v) && b in x.g.succs && i < |x.g.succs[b]|
    requires var s := x.g.succs[b][i];
             && s in x.g.preds && |x.g.preds[s]| != 1
             && u' == if s in u.visited then u else u.(visited := u.visited + {s}, queue := u.queue + [s])
    ensures Among(f, x, before, path, w, t, b, i + 1, u', v)
  {
    hide WalkOk, Grew, Midway, Shrunk, Sound, AvailIn, AvailOut, Tidy, GoneKinds, Branch, Blocks, AddressesLocal,
        Opened,
      SeenIds, PushScope;
    EdgeFacts(f, x.g, x.code, x.first, before, u, b, i);
    if x.g.succs[b][i] in u.visited {
      JoinSeen(f, x.g, x.code, x.first, before, u, b, i);
    } else {
      JoinQueued(f, x.g, x.code, x.first, before, w, u, u', b, i);
    }
  }

  /** All successors have been gone through. */
  lemma AmongEnds(f: Interp, x: Input, before: Before, path: seq<Block>, w: Walk, t: Tables, b: Block,
                  u: Walk, v: Tables)
    requires b in x.g.succs && Among(f, x, before, path, w, t, b, |x.g.succs[b]|, u, v)
    ensures v.binary != [] && v.gep != [] && v.values != []
    ensures Within(PopScope(v), t) && PopScope(v).gep == t.gep && Tidy(x.code, PopScope(v)) && GoneKinds(x.code, u.gone)
    ensures WalkOk(f, x.g, x.code, x.first, before, u) && Grew(x.g, x.first, w, u, b) && Onward(x.g, u, |w.order|)
  {
    hide WalkOk, Grew, Midway, Sound, AvailOut, Tidy, GoneKinds, Branch, Blocks, AddressesLocal, Opened, SeenIds,
        Shrunk;
    MidwayEnds(x.g, u, |w.order|, b);
    PopWithin(t, v);
    PopScopeTidy(x.code, v);
  }

  // The queue.

  /** Between two blocks from the queue all tables are closed. */
  ghost predicate Queueing(f: Interp, x: Input, before: Before, w: Walk) {
    var holds :=
      && WalkOk(f, x.g, x.code, x.first, before, w) && Onward(x.g, w, 0) && GoneKinds(x.code, w.gone)
      && (x.g.entry in w.order || x.g.entry in w.queue);
    holds
  }

  lemma QueueBegins(f: Interp, x: Input, before: Before)
    requires InSsa(x.g, x.code, x.first, before) && Commutes(f) && SingleEdges(x.g)
    ensures Queueing(f, x, before, Walk([], {}, [x.g.entry], map[], x.first))
  {
    hide WalkOk, Onward, InSsa, Commutes, SingleEdges;
    WalkBegins(f, x.g, x.code, x.first, before);
  }

  /** The block at the head of the queue can be numbered. */
  lemma QueueReady(f: Interp, x: Input, before: Before, w: Walk, u: Walk, b: Block)
    requires Queueing(f, x, before, w) && w.queue != [] && w.queue[0] == b && u == w.(queue := w.queue[1..])
    ensures WalkOk(f, x.g, x.code, x.first, before, Canon(x.g, u)) && Next(x.g, u, b)
    ensures u.visited + {b} == Canon(x.g, u).visited + {b}
    ensures Sound(f, x.code, AvailIn(x.g, x.first, b), u.gone, Tables([], [], [])) && Tidy(x.code, Tables([], [], []))
    ensures GoneKinds(x.code, u.gone) && Branch(x.g, [] + [b]) && Blocks([]) <= Blocks(u.order)
    ensures Opened(x.code, u.gone, Tables([], [], []), SeenIds(x.first, []))
  {
    hide WalkOk, Onward, Next, Canon, Sound, AvailIn, GoneKinds, Branch, Blocks, Opened, SeenIds;
    PopReady(f, x.g, x.code, x.first, before, w, u, b);
    NoTables(f, x.code, AvailIn(x.g, x.first, b), u.gone);
    RootBranch(f, x.g, x.code, x.first, before, w, b);
    OpenedStart(x.code, u.gone, x.first);
  }

  lemma QueueNext(f: Interp, x: Input, before: Before, w: Walk, u: Walk, b: Block, v: Walk, t: Tables)
    requires Queueing(f, x, before, w) && w.queue != [] && w.queue[0] == b && u == w.(queue := w.queue[1..])
    requires Next(x.g, u, b)
    requires WalkOk(f, x.g, x.code, x.first, before, v) && Grew(x.g, x.first, Canon(x.g, u), v, b)
    requires Onward(x.g, v, |u.order|) && GoneKinds(x.code, v.gone) && Within(t, Tables([], [], []))
    ensures Queueing(f, x, before, v) && t == Tables([], [], [])
    ensures x.g.succs.Keys - Blocks(v.order) < x.g.succs.Keys - Blocks(w.order)
  {
    hide WalkOk, Onward, Next, Grew, Canon, GoneKinds, Blocks, Within;
    QueueServed(f, x.g, x.code, x.first, before, w, u, v, b);
    EmptyWithin(t);
  }

  lemma QueueEnds(f: Interp, x: Input, before: Before, w: Walk)
    requires Queueing(f, x, before, w) && w.queue == []
    ensures Distinct(w.order) && Blocks(w.order) == x.g.succs.Keys && GoneOk(f, x.code, before, w.gone)
    ensures w.lists.Keys == x.first.Keys && forall b :: b in x.first ==> w.lists[b] == Without(x.first[b], w.gone.Keys)
    ensures forall b :: b in x.first ==> RepeatsGone(x.code, w.gone, x.first[b], |x.first[b]|)
  {
    hide RepeatsGone, WalkOk, Onward, GoneKinds, Blocks, GoneOk, Without;
    WalkEnds(f, x.g, x.code, x.first, before, w);
  }

  /** One more instruction of a block keeps what stands remembered, and what repeats it goes. */
  lemma NumberRepeats(f: Interp, before: Before, c: Context, inside: set<nat>, t: Tables, more: map<nat, Value>,
      u: Tables, ds: seq<nat>, k: nat, lim: Limit)
    requires k < |ds| && Ready(f, c.code, before, c.gone, inside + Ids(ds[..k]), t)
    requires ds[k] in c.code && ds[k] in before && before[ds[k]] == inside + Ids(ds[..k]) && ds[k] !in c.gone
    requires ds[k] !in before[ds[k]] && Fit(c) && Scoped(t) && Var(ds[k]) in Pool(c.code)
    requires !c.code[ds[k]].op.Numbered() ==> u == t && more == c.gone
    requires c.code[ds[k]].op.Numbered() ==>
               var s := Look(c, t, Var(ds[k]), lim);
               && s.Ended? && (!NoneInside(c.code, c.gone, t, 0, Var(ds[k])) ==> ds[k] in more)
               && if s.r == Var(ds[k]) then more == c.gone && u == s.t
                  else more == c.gone[ds[k] := s.r] && u == Deleted(c.code, c.gone, s.t, ds[k])
    requires Remembered(c.code, c.gone, t, ds, k) && RepeatsGone(c.code, c.gone, ds, k)
    ensures Remembered(c.code, more, u, ds, k + 1) && RepeatsGone(c.code, more, ds, k + 1)
  {
    hide Ready, Ordered, Down, Look, NoneInside, Fit, Pool, Deleted, Remembered, RepeatsGone;
    var avail := inside + Ids(ds[..k]);
    ReadyParts(f, c.code, before, c.gone, avail, t);
    forall m | 0 <= m < k ensures ds[m] in avail { assert ds[m] in ds[..k]; }
    RepeatStep(c, before, avail, t, more, u, ds, k, lim);
  }
}
