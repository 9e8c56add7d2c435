/** Marking the useful instructions and sweeping the others. */
module DeadCodeElimination {
  import opened DeadCode

  class DeadCodeElimination {
    var program: Program
    /** Every instruction by its number, and the use list of each. */
    var instrs: map<nat, Instr>
    var users: map<nat, multiset<nat>>
    var useful: set<nat>

    constructor (program: Program, instrs: map<nat, Instr>, users: map<nat, multiset<nat>>)
      ensures this.program == program && this.instrs == instrs && this.users == users && useful == {}
    {
      this.program, this.instrs, this.users, useful := program, instrs, users, {};
    }

    /** Marks an instruction and everything it needs. */
    method MarkInstrUseful(i: nat)
      requires i in instrs && useful <= instrs.Keys && forall id :: id in instrs ==> ArgsIn(instrs[id], instrs.Keys)
      modifies this`useful
      ensures old(useful) <= useful <= instrs.Keys && i in useful
      ensures Followed(instrs, old(useful), useful) && NoMore(instrs, old(useful), useful, i)
      decreases instrs.Keys - useful
    {
      hide ArgsIn, UseClosed, Followed, NoMore;
      MarkNothing(instrs, useful, i);
      if i in useful {
        return;
      }
      ghost var before := useful;
      useful := useful + {i};
      MarkSelf(instrs, before, i);
      var args := instrs[i].args;
      for k := 0 to |args|
        invariant before + {i} <= useful <= instrs.Keys
        invariant forall j :: 0 <= j < k && args[j].Ref? ==> args[j].id in useful
        invariant Followed(instrs, before + {i}, useful) && NoMore(instrs, before, useful, i)
      {
        if args[k].Ref? {
          ArgIsIn(instrs[i], instrs.Keys, args[k]);
          ghost var now := useful;
          MarkInstrUseful(args[k].id);
          MarkMore(instrs, before, now, useful, i, args[k]);
        }
      }
      AllArgsIn(instrs[i], useful);
      MarkDone(instrs, before, useful, i);
    }
  
    /** Marks from the effects of one list of instructions. */
    method MarkEffects(code: seq<Instr>, ghost marked: set<nat>)
      requires (forall x :: x in code ==> x.id in instrs && instrs[x.id] == x) && Marking(instrs, useful, marked)
      modifies this`useful
      ensures old(useful) <= useful && Marking(instrs, useful, marked + EffectsOf(code, |code|))
    {
      hide Marking, EffectsOf;
      NoEffects(code, marked);
      for i := 0 to |code|
        invariant old(useful) <= useful && Marking(instrs, useful, marked + EffectsOf(code, i))
      {
        EffectsStep(code, i);
        MarkingReady(instrs, useful, marked + EffectsOf(code, i));
        if HasSideEffect(code[i]) {
          ghost var before := useful;
          MarkInstrUseful(code[i].id);
          MarkingStep(instrs, before, useful, marked + EffectsOf(code, i), code[i].id);
          assert marked + EffectsOf(code, i) + {code[i].id} == marked + EffectsOf(code, i + 1);
        } else {
          assert EffectsOf(code, i) + {} == EffectsOf(code, i);
        }
      }
    }

    /** Marks everything that effects need, directly or indirectly. */
    method MarkAll(order: seq<nat>)
      requires useful == {} && Listed(program, instrs) && forall b :: b in order <==> b in program
      modifies this`useful
      ensures Least(program, useful) && useful <= instrs.Keys
    {
      hide Marking, EffectsOf, Least, Needed;
      ghost var marked := {};
      MarkingBegins(program, instrs);
      for i := 0 to |order|
        invariant Marking(instrs, useful, marked)
        invariant forall k :: 0 <= k < i ==> EffectsIn(program, order[k], marked)
        invariant OnlyEffects(program, marked)
      {
        assert order[i] in order;
        BlockListed(program, instrs, order[i]);
        ghost var m0 := marked;
        MarkEffects(program[order[i]].phis, marked);
        marked := marked + EffectsOf(program[order[i]].phis, |program[order[i]].phis|);
        MarkEffects(program[order[i]].body, marked);
        marked := marked + EffectsOf(program[order[i]].body, |program[order[i]].body|);
        BlockEffects(program, order[i], m0, marked);
        forall k | 0 <= k < i
          ensures EffectsIn(program, order[k], marked)
        {
          EffectsMore(program, order[k], m0, marked);
        }
      }
      MarkedIsLeast(program, instrs, order, useful, marked);
    }

    /** Removes the records of the uses that an instruction makes. */
    method RemoveUseOps(x: Instr, ghost kept: set<nat>)
      requires UsesCounted(instrs, users, kept) && x.id !in kept && ArgsIn(x, instrs.Keys)
      modifies this`users
      ensures UsesCounted(instrs, users, kept)
    {
      for k := 0 to |x.args|
        invariant UsesCounted(instrs, users, kept)
      {
        if x.args[k].Ref? {
          var v := x.args[k].id;
          assert x.args[k] in x.args;
          users := users[v := users[v] - multiset{x.id}];
        }
      }
    }

    /** The useless instructions of a list; ok tells whether each other one has a use or is of a kind that needs none.
        */
    method FindUseless(code: seq<Instr>, ghost p: Program) returns (useless: set<nat>, ok: bool)
      requires Listed(p, instrs) && Least(p, useful) && UsesCounted(instrs, users, useful)
      requires forall x :: x in code ==> x.id in instrs && instrs[x.id] == x
      ensures ok && forall d :: d in useless <==> d !in useful && exists x :: x in code && x.id == d
    {
      hide Listed, Least, UsesCounted;
      useless, ok := {}, true;
      for i := 0 to |code|
        invariant ok && forall d :: d in useless <==> d !in useful && exists k :: 0 <= k < i && code[k].id == d
      {
        var x := code[i];
        assert x in code;
        if x.id !in useful {
          useless := useless + {x.id};
        } else {
          UsefulHasUse(p, instrs, users, useful, x);
          var isUseful := users[x.id] != multiset{} || x.kind.Ret? || x.kind.Call? || x.kind.Br? || x.kind.Store?;
          ok := ok && isUseful;
        }
      }
    }

    /** Deletes the useless instructions of a list with the records of their uses. */
    method DeleteUseless(code: seq<Instr>, useless: set<nat>, ghost kept: set<nat>) returns (rest: seq<Instr>)
      requires UsesCounted(instrs, users, kept) && useless !! kept && useless <= instrs.Keys
      requires forall id :: id in instrs ==> instrs[id].id == id && ArgsIn(instrs[id], instrs.Keys)
      modifies this`users
      ensures UsesCounted(instrs, users, kept) && rest == Dropped(code, useless)
    {
      hide UsesCounted, ArgsIn;
      rest := code;
      DropNothing(code);
      ghost var done := {};
      var todo := useless;
      while todo != {}
        invariant UsesCounted(instrs, users, kept) && rest == Dropped(code, done) && done + todo == useless
        invariant done !! todo
        decreases todo
      {
        var d :| d in todo;
        RemoveUseOps(instrs[d], kept);
        DroppedTwice(code, done, {d});
        rest := Dropped(rest, {d});
        done := done + {d};
        todo := todo - {d};
      }
    }

    /** Sweeps one block. */
    method SweepBlock(b: nat, ghost p: Program) returns (ok: bool)
      requires b in program && b in p && program[b] == p[b] && Listed(p, instrs) && Least(p, useful)
      requires UsesCounted(instrs, users, useful)
      modifies this`program, this`users
      ensures ok && program == old(program)[b := Block(Kept(p[b].phis, useful), Kept(p[b].body, useful))] &&
          UsesCounted(instrs, users, useful)
    {
      hide Listed, Least, UsesCounted, Dropped, Kept;
      BlockListed(p, instrs, b);
      AllListed(p, instrs);
      var phis, body := program[b].phis, program[b].body;
      var useless1, ok1 := FindUseless(phis, p);
      var useless2, ok2 := FindUseless(body, p);
      ok := ok1 && ok2;
      phis := DeleteUseless(phis, useless1, useful);
      body := DeleteUseless(body, useless2, useful);
      UselessDropped(p[b].phis, useless1, useful);
      UselessDropped(p[b].body, useless2, useful);
      program := program[b := Block(phis, body)];
    }

    /** Deletes all instructions that no effect needs. The assertion of the sweep holds for every one that stays. */
    method DeleteDeadInstr(order: seq<nat>) returns (ok: bool)
      requires useful == {} && Listed(program, instrs) && UsesCounted(instrs, users, instrs.Keys)
      requires (forall b :: b in order <==> b in program)
      requires forall i, j :: 0 <= i < j < |order| ==> order[i] != order[j]
      modifies this
      ensures ok && instrs == old(instrs) && Least(old(program), useful) && program == Swept(old(program), useful)
      ensures Cleaned(old(program), program)
    {
      hide Cleaned, Listed, Least, UsesCounted, Kept;
      ghost var p := program;
      MarkAll(order);
      FewerCounted(instrs, users, instrs.Keys, useful);
      ok := true;
      for i := 0 to |order|
        invariant ok && instrs == old(instrs) && UsesCounted(instrs, users, useful) && Least(p, useful)
        invariant program.Keys == p.Keys && useful <= instrs.Keys
        invariant forall k :: 0 <= k < i ==> program[order[k]] == Block(Kept(p[order[k]].phis, useful),
                              Kept(p[order[k]].body, useful))
        invariant forall k :: i <= k < |order| ==> program[order[k]] == p[order[k]]
      {
        assert order[i] in order;
        var fine := SweepBlock(order[i], p);
        ok := ok && fine;
      }
      forall b | b in p ensures program[b] == Block(Kept(p[b].phis, useful), Kept(p[b].body, useful)) {
        assert b in order;
        var k :| 0 <= k < |order| && order[k] == b;
      }
      SweptCleaned(p, instrs, useful);
    }
  }

  /** useful is closed under use, holds the marked instructions and only what they need. */
  ghost predicate Marking(instrs: map<nat, Instr>, useful: set<nat>, marked: set<nat>) {
    && useful <= instrs.Keys && marked <= useful && (forall id :: id in instrs ==> ArgsIn(instrs[id], instrs.Keys))
    && UseClosed(instrs, useful) && forall s: set<nat> :: UseClosed(instrs, s) && marked <= s ==> useful <= s
  }

  ghost function EffectsOf(code: seq<Instr>, n: nat): set<nat>
    requires n <= |code|
  {
    if n == 0 then {} else EffectsOf(code, n - 1) + if HasSideEffect(code[n - 1]) then {code[n - 1].id} else {}
  }

  lemma NoEffects(code: seq<Instr>, marked: set<nat>)
    ensures EffectsOf(code, 0) == {} && marked + {} == marked
  {
  }

  lemma EffectsStep(code: seq<Instr>, i: nat)
    requires i < |code|
    ensures EffectsOf(code, i + 1) == EffectsOf(code, i) + if HasSideEffect(code[i]) then {code[i].id} else {}
    ensures code[i] in code
  {
  }

  lemma MarkingReady(instrs: map<nat, Instr>, useful: set<nat>, marked: set<nat>)
    requires Marking(instrs, useful, marked)
    ensures useful <= instrs.Keys && forall id :: id in instrs ==> ArgsIn(instrs[id], instrs.Keys)
  {
  }

  /** What was marked has its operands marked. */
  ghost predicate Followed(instrs: map<nat, Instr>, before: set<nat>, useful: set<nat>) {
    forall j :: j in useful && j !in before ==> j in instrs && ArgsIn(instrs[j], useful)
  }

  /** Nothing was marked but what every closed set with i holds. */
  ghost predicate NoMore(instrs: map<nat, Instr>, before: set<nat>, useful: set<nat>, i: nat) {
    forall s: set<nat> :: UseClosed(instrs, s) && i in s ==> useful <= before + s
  }

  lemma MarkNothing(instrs: map<nat, Instr>, useful: set<nat>, i: nat)
    ensures Followed(instrs, useful, useful) && NoMore(instrs, useful, useful, i)
  {
  }

  lemma MarkSelf(instrs: map<nat, Instr>, before: set<nat>, i: nat)
    ensures Followed(instrs, before + {i}, before + {i}) && NoMore(instrs, before, before + {i}, i)
  {
    hide UseClosed;
  }

  /** An operand of i has been marked with what it needs. */
  lemma MarkMore(instrs: map<nat, Instr>, before: set<nat>, now: set<nat>, useful: set<nat>, i: nat, v: Val)
    requires Followed(instrs, before + {i}, now) && NoMore(instrs, before, now, i) && now <= useful
    requires i in instrs && v in instrs[i].args && v.Ref?
    requires Followed(instrs, now, useful) && NoMore(instrs, now, useful, v.id)
    ensures Followed(instrs, before + {i}, useful) && NoMore(instrs, before, useful, i)
  {
    hide ArgsIn, UseClosed;
    forall j | j in useful && j !in before + {i} ensures j in instrs && ArgsIn(instrs[j], useful) {
      if j in now { ArgsMore(instrs[j], now, useful); }
    }
    ArgInClosed(instrs, i, v);
  }

  lemma MarkDone(instrs: map<nat, Instr>, before: set<nat>, useful: set<nat>, i: nat)
    requires Followed(instrs, before + {i}, useful) && i in instrs && ArgsIn(instrs[i], useful)
    ensures Followed(instrs, before, useful)
  {
    hide ArgsIn;
  }

  lemma MarkingStep(instrs: map<nat, Instr>, before: set<nat>, useful: set<nat>, marked: set<nat>, i: nat)
    requires Marking(instrs, before, marked) && before <= useful <= instrs.Keys && i in useful
    requires Followed(instrs, before, useful) && NoMore(instrs, before, useful, i)
    ensures Marking(instrs, useful, marked + {i})
  {
    forall j | j in useful ensures ArgsIn(instrs[j], useful) {
      if j in before { ArgsMore(instrs[j], before, useful); }
    }
    forall s: set<nat> | UseClosed(instrs, s) && marked + {i} <= s ensures useful <= s {
      assert before <= s;
    }
  }

  lemma MarkingBegins(p: Program, instrs: map<nat, Instr>)
    requires Listed(p, instrs)
    ensures Marking(instrs, {}, {})
  {
  }

  lemma BlockListed(p: Program, instrs: map<nat, Instr>, b: nat)
    requires Listed(p, instrs) && b in p
    ensures forall x :: x in p[b].phis || x in p[b].body ==> x.id in instrs && instrs[x.id] == x
  {
    forall x | x in p[b].phis || x in p[b].body ensures InProgram(p, x) { }
  }

  lemma AllListed(p: Program, instrs: map<nat, Instr>)
    requires Listed(p, instrs)
    ensures forall id :: id in instrs ==> instrs[id].id == id && ArgsIn(instrs[id], instrs.Keys)
  {
  }

  /** All effects of block b are marked. */
  ghost predicate EffectsIn(p: Program, b: nat, marked: set<nat>) {
    b in p ==> forall x :: (x in p[b].phis || x in p[b].body) && HasSideEffect(x) ==> x.id in marked
  }

  /** Only effects are marked. */
  ghost predicate OnlyEffects(p: Program, marked: set<nat>) {
    forall d :: d in marked ==> exists x :: InProgram(p, x) && HasSideEffect(x) && x.id == d
  }

  lemma {:induction false} EffectsAre(code: seq<Instr>, n: nat)
    requires n <= |code|
    ensures forall d :: d in EffectsOf(code, n) <==> exists k :: 0 <= k < n && HasSideEffect(code[k]) && code[k].id == d
    decreases n
  {
    if n > 0 { EffectsAre(code, n - 1); }
  }

  lemma BlockEffects(p: Program, b: nat, m0: set<nat>, marked: set<nat>)
    requires b in p && marked == m0 + EffectsOf(p[b].phis, |p[b].phis|) + EffectsOf(p[b].body, |p[b].body|)
    requires OnlyEffects(p, m0)
    ensures EffectsIn(p, b, marked) && OnlyEffects(p, marked)
  {
    EffectsAre(p[b].phis, |p[b].phis|);
    EffectsAre(p[b].body, |p[b].body|);
    forall d | d in marked ensures exists x :: InProgram(p, x) && HasSideEffect(x) && x.id == d {
      if d !in m0 {
        if d in EffectsOf(p[b].phis, |p[b].phis|) {
          var k :| 0 <= k < |p[b].phis| && HasSideEffect(p[b].phis[k]) && p[b].phis[k].id == d;
          assert InProgram(p, p[b].phis[k]);
        } else {
          var k :| 0 <= k < |p[b].body| && HasSideEffect(p[b].body[k]) && p[b].body[k].id == d;
          assert InProgram(p, p[b].body[k]);
        }
      }
    }
  }

  lemma EffectsMore(p: Program, b: nat, m0: set<nat>, marked: set<nat>)
    requires EffectsIn(p, b, m0) && m0 <= marked
    ensures EffectsIn(p, b, marked)
  {
  }

  /** Marking from all effects gives the least set that meets every need. */
  lemma MarkedIsLeast(p: Program, instrs: map<nat, Instr>, order: seq<nat>, useful: set<nat>, marked: set<nat>)
    requires Listed(p, instrs) && Marking(instrs, useful, marked) && (forall b :: b in order <==> b in p)
    requires (forall k :: 0 <= k < |order| ==> EffectsIn(p, order[k], marked)) && OnlyEffects(p, marked)
    ensures Least(p, useful) && useful <= instrs.Keys
  {
    forall x | InProgram(p, x) && HasSideEffect(x) ensures x.id in useful {
      var b :| b in p && (x in p[b].phis || x in p[b].body);
      assert b in order;
      var k :| 0 <= k < |order| && order[k] == b;
      assert EffectsIn(p, order[k], marked);
    }
    ClosedNeeded(p, instrs, useful);
    forall s | Needed(p, s) ensures useful <= s {
      NeededClosed(p, instrs, s);
      forall d | d in marked ensures d in s { }
    }
  }

  lemma UsefulHasUse(p: Program, instrs: map<nat, Instr>, users: map<nat, multiset<nat>>, useful: set<nat>, x: Instr)
    requires Listed(p, instrs) && Least(p, useful) && UsesCounted(instrs, users, useful)
    requires x.id in instrs && instrs[x.id] == x && x.id in useful
    ensures x.id in users
    ensures users[x.id] != multiset{} || x.kind.Ret? || x.kind.Br? || x.kind.Store? || x.kind == Call(true)
  {
    if !HasSideEffect(x) {
      HasUser(p, instrs, useful, x.id);
      var u :| u in useful && u in instrs && u != x.id && Ref(x.id) in instrs[u].args;
      assert users[x.id][u] == multiset(instrs[u].args)[Ref(x.id)];
    }
  }

  lemma DropNothing(code: seq<Instr>)
    ensures Dropped(code, {}) == code
  {
  }

  lemma UselessDropped(code: seq<Instr>, useless: set<nat>, useful: set<nat>)
    requires forall d :: d in useless <==> d !in useful && exists x :: x in code && x.id == d
    ensures Dropped(code, useless) == Kept(code, useful)
  {
    DroppedIsKept(code, useless, useful);
  }

  lemma FewerCounted(instrs: map<nat, Instr>, users: map<nat, multiset<nat>>, all: set<nat>, some: set<nat>)
    requires UsesCounted(instrs, users, all) && some <= all
    ensures UsesCounted(instrs, users, some)
  {
  }

  lemma ArgIsIn(x: Instr, s: set<nat>, v: Val)
    requires ArgsIn(x, s) && v in x.args && v.Ref?
    ensures v.id in s
  {
  }

  lemma ArgInClosed(instrs: map<nat, Instr>, i: nat, v: Val)
    requires i in instrs && v in instrs[i].args && v.Ref?
    ensures forall s: set<nat> :: UseClosed(instrs, s) && i in s ==> v.id in s
  {
  }

  lemma ArgsMore(x: Instr, s: set<nat>, t: set<nat>)
    requires ArgsIn(x, s) && s <= t
    ensures ArgsIn(x, t)
  {
  }

  lemma AllArgsIn(x: Instr, s: set<nat>)
    requires forall j :: 0 <= j < |x.args| && x.args[j].Ref? ==> x.args[j].id in s
    ensures ArgsIn(x, s)
  {
  }
}
