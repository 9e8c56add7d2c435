/** Instructions that matter, and runs of a function with and without the others. */
module DeadCode {
  /** Calls are told apart by whether the callee has side effects. */
  datatype Kind = Ret | Br | Store | Call(effect: bool) | Plain

  /** An operand is the value of another instruction or something fixed: an argument, a constant, a global. */
  datatype Val = Ref(id: nat) | Fixed(n: int)

  datatype Instr = Instr(id: nat, kind: Kind, tag: nat, args: seq<Val>)

  /** The phis of a block take their values together when it is entered. */
  datatype Block = Block(phis: seq<Instr>, body: seq<Instr>)

  type Program = map<nat, Block>

  predicate HasSideEffect(x: Instr) {
    x.kind.Ret? || x.kind.Br? || x.kind.Store? || (x.kind.Call? && x.kind.effect)
  }

  datatype Event = Event(tag: nat, vals: seq<int>)

  /** What plain instructions and phis compute, what effects return, and where branches go. Plain instructions may
      look at all effects so far, as loads do. */
  datatype Machine = Machine(plain: (nat, seq<int>, seq<Event>) -> int, phi: (nat, seq<int>, nat) -> int,
                             answer: seq<Event> -> int, branch: (nat, seq<int>) -> nat)

  datatype State = State(env: map<nat, int>, trace: seq<Event>)

  function Eval(s: State, v: Val): int {
    match v
    case Ref(id) => if id in s.env then s.env[id] else 0
    case Fixed(n) => n
  }

  function Evals(s: State, vs: seq<Val>): (r: seq<int>)
    ensures |r| == |vs| && forall i :: 0 <= i < |r| ==> r[i] == Eval(s, vs[i])
  {
    if vs == [] then [] else [Eval(s, vs[0])] + Evals(s, vs[1..])
  }

  /** How a block ends. */
  datatype Exit = Go(to: nat) | Done | Stuck

  function Observe(s: State, x: Instr): State {
    s.(trace := s.trace + [Event(x.tag, Evals(s, x.args))])
  }

  /** Stores, branches, returns and calls of functions with side effects are seen from outside. */
  function Step(m: Machine, x: Instr, s: State): State {
    match x.kind
    case Plain => Compute(m, x, s)
    case Call(effect) => if effect then Perform(m, x, s) else Compute(m, x, s)
    case Store => Perform(m, x, s)
    case Br => Perform(m, x, s)
    case Ret => Perform(m, x, s)
  }

  function Perform(m: Machine, x: Instr, s: State): State {
    var t := Observe(s, x);
    t.(env := t.env[x.id := m.answer(t.trace)])
  }

  function Compute(m: Machine, x: Instr, s: State): State {
    s.(env := s.env[x.id := m.plain(x.tag, Evals(s, x.args), s.trace)])
  }

  function RunBody(m: Machine, body: seq<Instr>, s: State): (State, Exit) {
    if body == [] then (s, Stuck)
    else
      var x := body[0];
      match x.kind
      case Ret => (Observe(s, x), Done)
      case Br => (Observe(s, x), Go(m.branch(x.tag, Evals(s, x.args))))
      case _ => RunBody(m, body[1..], Step(m, x, s))
  }

  /** The values of the phis, all taken from the state before. */
  function RunPhis(m: Machine, phis: seq<Instr>, prev: nat, s: State, env: map<nat, int>): map<nat, int> {
    if phis == [] then env
    else RunPhis(m, phis[1..], prev, s, env[phis[0].id := m.phi(phis[0].tag, Evals(s, phis[0].args), prev)])
  }

  function RunBlock(m: Machine, b: Block, prev: nat, s: State): (State, Exit) {
    RunBody(m, b.body, s.(env := RunPhis(m, b.phis, prev, s, s.env)))
  }

  /** Runs at most fuel blocks from block b on. */
  function Run(m: Machine, p: Program, b: nat, prev: nat, s: State, fuel: nat): (State, Exit)
    decreases fuel
  {
    if fuel == 0 || b !in p then (s, Stuck)
    else
      var (t, e) := RunBlock(m, p[b], prev, s);
      match e
      case Go(to) => Run(m, p, to, b, t, fuel - 1)
      case _ => (t, e)
  }

  function Kept(code: seq<Instr>, useful: set<nat>): (r: seq<Instr>)
    ensures forall x :: x in r <==> x in code && x.id in useful
  {
    if code == [] then [] else (if code[0].id in useful then [code[0]] else []) + Kept(code[1..], useful)
  }

  function Swept(p: Program, useful: set<nat>): Program {
    map b | b in p :: Block(Kept(p[b].phis, useful), Kept(p[b].body, useful))
  }

  ghost predicate InProgram(p: Program, x: Instr) {
    exists b :: b in p && (x in p[b].phis || x in p[b].body)
  }

  /** Every effect is useful, and so is everything a useful instruction uses; phis have no effects. */
  ghost predicate Needed(p: Program, useful: set<nat>) {
    && (forall x :: InProgram(p, x) && HasSideEffect(x) ==> x.id in useful)
    && (forall x, v :: InProgram(p, x) && x.id in useful && v in x.args && v.Ref? ==> v.id in useful)
    && (forall b, x :: b in p && x in p[b].phis ==> !HasSideEffect(x))
  }

  ghost predicate Agree(s: State, t: State, useful: set<nat>) {
    s.trace == t.trace && forall id :: id in useful ==> Eval(s, Ref(id)) == Eval(t, Ref(id))
  }

  lemma EvalsAgree(s: State, t: State, useful: set<nat>, vs: seq<Val>)
    requires Agree(s, t, useful) && forall v :: v in vs && v.Ref? ==> v.id in useful
    ensures Evals(s, vs) == Evals(t, vs)
  {
    forall i | 0 <= i < |vs| ensures Evals(s, vs)[i] == Evals(t, vs)[i] {
      assert vs[i] in vs;
      if vs[i].Ref? { assert Eval(s, Ref(vs[i].id)) == Eval(t, Ref(vs[i].id)); }
    }
  }

  /** What the sweep keeps uses only what it keeps, and it keeps all effects. */
  ghost predicate NeededIn(code: seq<Instr>, useful: set<nat>) {
    forall x :: x in code ==>
                  && (HasSideEffect(x) ==> x.id in useful)
                  && (x.id in useful ==> forall v :: v in x.args && v.Ref? ==> v.id in useful)
  }

  lemma StepsAgree(m: Machine, x: Instr, useful: set<nat>, s: State, t: State)
    requires NeededIn([x], useful) && Agree(s, t, useful)
    ensures x.id in useful ==>
      Agree(Step(m, x, s), Step(m, x, t), useful) && Agree(Observe(s, x), Observe(t, x), useful) &&
          Evals(s, x.args) == Evals(t, x.args)
    ensures x.id !in useful ==> !HasSideEffect(x) && Agree(Step(m, x, s), t, useful)
  {
    assert x in [x];
    if x.id in useful {
      EvalsAgree(s, t, useful, x.args);
      var s1, t1 := Step(m, x, s), Step(m, x, t);
      forall id | id in useful
        ensures Eval(s1, Ref(id)) == Eval(t1, Ref(id))
      {
        assert Eval(s, Ref(id)) == Eval(t, Ref(id));
      }
      forall id | id in useful ensures Eval(Observe(s, x), Ref(id)) == Eval(Observe(t, x),
          Ref(id)) { assert Eval(s, Ref(id)) == Eval(t, Ref(id)); }
    } else {
      var s1 := Step(m, x, s);
      forall id | id in useful
        ensures Eval(s1, Ref(id)) == Eval(t, Ref(id))
      {
        assert Eval(s, Ref(id)) == Eval(t, Ref(id));
      }
    }
  }

  lemma {:induction false} BodySwept(m: Machine, body: seq<Instr>, useful: set<nat>, s: State, t: State)
    requires NeededIn(body, useful) && Agree(s, t, useful)
    ensures var (s', e) := RunBody(m, body, s); var (t', f) := RunBody(m, Kept(body, useful), t);
            e == f && Agree(s', t', useful)
    decreases body
  {
    hide Step, Observe, Agree, Evals;
    if body != [] {
      var x := body[0];
      assert x in body;
      StepsAgree(m, x, useful, s, t);
      if x.id in useful {
        assert Kept(body, useful) == [x] + Kept(body[1..], useful);
        assert ([x] + Kept(body[1..], useful))[1..] == Kept(body[1..], useful);
        if !x.kind.Ret? && !x.kind.Br? { BodySwept(m, body[1..], useful, Step(m, x, s), Step(m, x, t)); }
      } else {
        assert Kept(body, useful) == Kept(body[1..], useful);
        BodySwept(m, body[1..], useful, Step(m, x, s), t);
      }
    }
  }

  ghost predicate EnvAgree(a: map<nat, int>, b: map<nat, int>, useful: set<nat>) {
    forall id :: id in useful ==> (if id in a then a[id] else 0) == if id in b then b[id] else 0
  }

  lemma {:induction false} PhisSwept(m: Machine, phis: seq<Instr>, useful: set<nat>, prev: nat, s: State, t: State,
      a: map<nat, int>, b: map<nat, int>)
    requires NeededIn(phis, useful) && Agree(s, t, useful) && EnvAgree(a, b, useful)
    ensures EnvAgree(RunPhis(m, phis, prev, s, a), RunPhis(m, Kept(phis, useful), prev, t, b), useful)
    decreases phis
  {
    if phis != [] {
      var x := phis[0];
      assert x in phis;
      var a' := a[x.id := m.phi(x.tag, Evals(s, x.args), prev)];
      if x.id in useful {
        assert Kept(phis, useful) == [x] + Kept(phis[1..], useful);
        assert ([x] + Kept(phis[1..], useful))[1..] == Kept(phis[1..], useful);
        EvalsAgree(s, t, useful, x.args);
        PhisSwept(m, phis[1..], useful, prev, s, t, a', b[x.id := m.phi(x.tag, Evals(t, x.args), prev)]);
      } else {
        assert Kept(phis, useful) == Kept(phis[1..], useful);
        PhisSwept(m, phis[1..], useful, prev, s, t, a', b);
      }
    }
  }

  lemma NeededParts(p: Program, useful: set<nat>, b: nat)
    requires Needed(p, useful) && b in p
    ensures NeededIn(p[b].phis, useful) && NeededIn(p[b].body, useful)
  {
    forall x | x in p[b].phis || x in p[b].body ensures InProgram(p, x) { }
  }

  /** Every run of the swept function has the same effects, branches and return as the same run of the function, and the
      same values of all useful instructions. */
  lemma {:induction false} SweepPreserves(m: Machine, p: Program, useful: set<nat>, b: nat, prev: nat, s: State,
      t: State, fuel: nat)
    requires Needed(p, useful) && Agree(s, t, useful)
    ensures var (s', e) := Run(m, p, b, prev, s, fuel); var (t', f) := Run(m, Swept(p, useful), b, prev, t,
        fuel); e == f && Agree(s', t', useful)
    decreases fuel
  {
    hide Needed, Agree, RunBlock, Kept;
    if fuel > 0 && b in p {
      BlockSwept(m, p, useful, b, prev, s, t);
      var (s', e) := RunBlock(m, p[b], prev, s);
      var (t', f) := RunBlock(m, Swept(p, useful)[b], prev, t);
      if e.Go? { SweepPreserves(m, p, useful, e.to, b, s', t', fuel - 1); }
    }
  }

  lemma BlockSwept(m: Machine, p: Program, useful: set<nat>, b: nat, prev: nat, s: State, t: State)
    requires Needed(p, useful) && Agree(s, t, useful) && b in p
    ensures var (s', e) := RunBlock(m, p[b], prev, s); var (t', f) := RunBlock(m, Swept(p, useful)[b], prev,
        t); e == f && Agree(s', t', useful)
  {
    hide Needed;
    NeededParts(p, useful, b);
    AgreeEnv(s, t, useful);
    PhisSwept(m, p[b].phis, useful, prev, s, t, s.env, t.env);
    var s1 := s.(env := RunPhis(m, p[b].phis, prev, s, s.env));
    var t1 := t.(env := RunPhis(m, Kept(p[b].phis, useful), prev, t, t.env));
    EnvAgrees(s1, t1, useful);
    BodySwept(m, p[b].body, useful, s1, t1);
  }

  lemma AgreeEnv(s: State, t: State, useful: set<nat>)
    requires Agree(s, t, useful)
    ensures EnvAgree(s.env, t.env, useful)
  {
    forall id | id in useful ensures (if id in s.env then s.env[id] else 0) == if id in t.env then t.env[id] else 0 {
      assert Eval(s, Ref(id)) == Eval(t, Ref(id));
    }
  }

  lemma EnvAgrees(s: State, t: State, useful: set<nat>)
    requires EnvAgree(s.env, t.env, useful) && s.trace == t.trace
    ensures Agree(s, t, useful)
  {
  }

  /** The useful instructions are the least set that meets every need. */
  ghost predicate Least(p: Program, useful: set<nat>) {
    Needed(p, useful) && forall s :: Needed(p, s) ==> useful <= s
  }

  /** Numbers name instructions uniquely, and operands are instructions of the function. */
  ghost predicate Listed(p: Program, instrs: map<nat, Instr>) {
    && (forall x :: InProgram(p, x) ==> x.id in instrs && instrs[x.id] == x)
    && (forall id :: id in instrs ==> instrs[id].id == id && InProgram(p, instrs[id]) && ArgsIn(instrs[id],
                     instrs.Keys))
    && (forall b, x :: b in p && x in p[b].phis ==> x.kind.Plain?)
  }

  ghost predicate ArgsIn(x: Instr, s: set<nat>) {
    forall v :: v in x.args && v.Ref? ==> v.id in s
  }

  /** Every member's operands are members. */
  ghost predicate UseClosed(instrs: map<nat, Instr>, s: set<nat>) {
    forall id :: id in s && id in instrs ==> ArgsIn(instrs[id], s)
  }

  lemma NeededClosed(p: Program, instrs: map<nat, Instr>, s: set<nat>)
    requires Listed(p, instrs) && Needed(p, s)
    ensures UseClosed(instrs, s)
  {
  }

  lemma ClosedNeeded(p: Program, instrs: map<nat, Instr>, s: set<nat>)
    requires Listed(p, instrs) && UseClosed(instrs, s) && forall x :: InProgram(p, x) && HasSideEffect(x) ==> x.id in s
    ensures Needed(p, s)
  {
  }

  /** A useful instruction without effect is an operand of another useful one. */
  lemma HasUser(p: Program, instrs: map<nat, Instr>, useful: set<nat>, id: nat)
    requires Listed(p, instrs) && Least(p, useful) && id in useful && id in instrs && !HasSideEffect(instrs[id])
    ensures exists u :: u in useful && u in instrs && u != id && Ref(id) in instrs[u].args
  {
    if forall u :: u in useful && u in instrs && u != id ==> Ref(id) !in instrs[u].args {
      var s := useful - {id};
      NeededClosed(p, instrs, useful);
      forall u | u in s && u in instrs ensures ArgsIn(instrs[u], s) {
        assert ArgsIn(instrs[u], useful);
      }
      ClosedNeeded(p, instrs, s);
    }
  }

  /** After the sweep every return, branch, store and call with side effects still stands in its block, and what else
      stands is an operand of something that stands. */
  ghost predicate Cleaned(p: Program, q: Program) {
    && q.Keys == p.Keys
    && (forall b, x :: b in p && x in p[b].body &&
                       (x.kind.Ret? || x.kind.Br? || x.kind.Store? || x.kind == Call(true)) ==>
                         x in q[b].body)
    && (forall x :: InProgram(q, x) ==> InProgram(p, x))
    && (forall x :: InProgram(q, x) && (x.kind.Plain? || x.kind == Call(false)) ==>
                      exists u :: InProgram(q, u) && u.id != x.id && Ref(x.id) in u.args)
  }

  lemma SweptCleaned(p: Program, instrs: map<nat, Instr>, useful: set<nat>)
    requires Listed(p, instrs) && Least(p, useful) && useful <= instrs.Keys
    ensures Cleaned(p, Swept(p, useful))
  {
    hide Least, Kept;
    LeastNeeded(p, useful);
    var q := Swept(p, useful);
    forall b, x | b in p && x in p[b].body && (x.kind.Ret? || x.kind.Br? || x.kind.Store? || x.kind == Call(true))
      ensures x in q[b].body
    {
      assert InProgram(p, x);
    }
    forall x | InProgram(q, x)
      ensures InProgram(p, x) && x.id in useful
    {
      var b :| b in q && (x in q[b].phis || x in q[b].body);
      assert x in p[b].phis || x in p[b].body;
    }
    forall x | InProgram(q, x) && (x.kind.Plain? || x.kind == Call(false))
      ensures exists u :: InProgram(q, u) && u.id != x.id && Ref(x.id) in u.args
    {
      HasUser(p, instrs, useful, x.id);
      var u :| u in useful && u in instrs && u != x.id && Ref(x.id) in instrs[u].args;
      var b :| b in p && (instrs[u] in p[b].phis || instrs[u] in p[b].body);
      assert instrs[u] in q[b].phis || instrs[u] in q[b].body;
    }
  }

  lemma LeastNeeded(p: Program, useful: set<nat>)
    requires Least(p, useful)
    ensures Needed(p, useful)
  {
  }

  /** The use list of each instruction counts how often each useful instruction uses it. */
  ghost predicate UsesCounted(instrs: map<nat, Instr>, users: map<nat, multiset<nat>>, of: set<nat>) {
    users.Keys == instrs.Keys &&
    forall v, u :: v in instrs && u in of && u in instrs ==> users[v][u] == multiset(instrs[u].args)[Ref(v)]
  }

  function Dropped(code: seq<Instr>, gone: set<nat>): seq<Instr> {
    if code == [] then [] else (if code[0].id in gone then [] else [code[0]]) + Dropped(code[1..], gone)
  }

  lemma {:induction false} DroppedTwice(code: seq<Instr>, a: set<nat>, b: set<nat>)
    ensures Dropped(Dropped(code, a), b) == Dropped(code, a + b)
    decreases code
  {
    if code != [] {
      DroppedTwice(code[1..], a, b);
      var x := code[0];
      var rest := Dropped(code[1..], a);
      if x.id in a {
        assert Dropped(code, a) == rest;
        assert Dropped(code, a + b) == Dropped(code[1..], a + b);
      } else {
        assert Dropped(code, a) == [x] + rest;
        assert ([x] + rest)[1..] == rest;
      }
    }
  }

  lemma {:induction false} DroppedIsKept(code: seq<Instr>, gone: set<nat>, useful: set<nat>)
    requires forall x :: x in code ==> (x.id in gone <==> x.id !in useful)
    ensures Dropped(code, gone) == Kept(code, useful)
    decreases code
  {
    if code != [] {
      assert code == [code[0]] + code[1..];
      DroppedIsKept(code[1..], gone, useful);
    }
  }
}
