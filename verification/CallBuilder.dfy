/** The code that passes arguments, built argument by argument. */
module CallBuilder {
  import opened CallMachine
  import opened PushPop
  import opened CallFrame
  import opened CallArgs

  lemma {:induction false} RunsAfterTable(table: seq<seq<Reg>>, groups: seq<seq<Reg>>, i: nat)
    requires TableOf(table, groups) && i < |groups|
    ensures RunsAfter(table, i) == RunsAfter(groups, i)
    decreases RUNS - i
  {
    if i + 1 < |groups| {
      assert table[i + 1] == groups[i + 1];
      RunsAfterTable(table, groups, i + 1);
    } else {
      EmptyRuns(table, i);
    }
  }

  lemma {:induction false} EmptyRuns(table: seq<seq<Reg>>, i: nat)
    requires forall n :: i < n < |table| ==> table[n] == []
    ensures RunsAfter(table, i) == 0
    decreases |table| - i
  {
    if i + 1 < |table| { EmptyRuns(table, i + 1); }
  }

  lemma {:induction false} RunsAfterDrop(groups: seq<seq<Reg>>, i: nat, k: nat)
    requires i < k < |groups|
    ensures RunsAfter(groups, i) >= RunsAfter(groups, k) + |groups[k]|
    decreases k - i
  {
    if i + 1 < k { RunsAfterDrop(groups, i + 1, k); }
  }

  /** The offset of the register at position m of run i of the table. */
  lemma TableOffset(saved: seq<Reg>, table: seq<seq<Reg>>, i: nat, m: nat)
    requires SavedOk(saved) && TableOf(table, Groups(FpRegs(saved))) && i < RUNS && m < |table[i]|
    ensures SavedOffset(saved, table[i][m]) == 4 * (RunsAfter(table, i) + m)
  {
    hide Groups, FpRegs, Sorted, SavedOffset;
    var groups := Groups(FpRegs(saved));
    assert i < |groups| && table[i] == groups[i] by {
      if i < |groups| { assert table[..|groups|][i] == groups[i]; }
    }
    FpOffset(saved, i, m);
    RunsAfterTable(table, groups, i);
  }

  /** A register is in one run only. */
  lemma OneRun(saved: seq<Reg>, table: seq<seq<Reg>>, i: nat, m: nat, k: nat, r: Reg)
    requires SavedOk(saved) && TableOf(table, Groups(FpRegs(saved))) && i < k < RUNS && m < |table[i]|
    requires table[i][m] == r
    ensures r !in table[k]
  {
    hide Groups, FpRegs, Sorted, SavedOffset;
    if r in table[k] {
      var n :| 0 <= n < |table[k]| && table[k][n] == r;
      TableOffset(saved, table, i, m);
      TableOffset(saved, table, k, n);
      RunsAfterDrop(table, i, k);
    }
  }

  lemma InTable(saved: seq<Reg>, table: seq<seq<Reg>>, r: Reg)
    requires SavedOk(saved) && TableOf(table, Groups(FpRegs(saved))) && r in saved && r.S?
    ensures exists i :: 0 <= i < RUNS && r in table[i]
  {
    hide Groups, FpRegs, IntRegs, Sorted;
    var groups := Groups(FpRegs(saved));
    PartsOf(saved);
    ImageSize(groups, FpRegs(saved));
    var i, m := RunWith(groups, r);
    assert table[..|groups|][i] == groups[i];
    assert r in table[i];
  }

  /** The table after one more register. */
  lemma TableGrows(table: seq<seq<Reg>>, fs: seq<Reg>, r: Reg, j: nat)
    requires TableOf(table, Groups(fs)) && |Groups(fs + [r])| <= RUNS
    requires j == if fs == [] then 0 else if fs[|fs| - 1].id + 1 != r.id then |Groups(fs)| else |Groups(fs)| - 1
    ensures j < RUNS && TableOf(table[j := table[j] + [r]], Groups(fs + [r])) && j == |Groups(fs + [r])| - 1
  {
    hide Groups;
    var groups, next := Groups(fs), Groups(fs + [r]);
    NoGroups();
    if fs == [] {
      GroupsStep(fs, r, [], []);
      var none: seq<Reg> := [];
      assert none + [r] == [r];
      assert next == [[r]];
    } else {
      var n := |groups| - 1;
      assert groups == groups[..n] + [groups[n]];
      GroupsStep(fs, r, groups[..n], groups[n]);
      assert next == if j == n then groups[..n] + [groups[n] + [r]] else groups + [[r]];
    }
    assert forall k :: 0 <= k < |groups| ==> table[..|groups|][k] == groups[k];
    assert forall k :: 0 <= k < |groups| ==> table[k] == groups[k];
    var table' := table[j := table[j] + [r]];
    forall k | 0 <= k < |next| ensures table'[k] == next[k] { }
    assert table'[..|next|] == next;
  }

  /** The runs of a part of the list are no more than those of the list. */
  lemma PrefixRuns(saved: seq<Reg>, n: nat)
    requires SavedOk(saved) && n <= |saved|
    ensures |Groups(FpRegs(saved[..n]))| <= RUNS
  {
    hide Groups, FpRegs;
    forall r | r in saved[..n] ensures r in saved { }
    SavedRuns(saved[..n]);
  }

  method SumAfter(table: seq<seq<Reg>>, i: nat) returns (sum: nat)
    requires i < |table|
    ensures sum == RunsAfter(table, i)
  {
    sum := 0;
    var n := i + 1;
    while n < |table|
      invariant i + 1 <= n <= |table| && sum + RunsAfter(table, n - 1) == RunsAfter(table, i)
    {
      sum := sum + |table[n]|;
      n := n + 1;
    }
  }

  /** Looks a register up in the table: the registers of all later runs and the earlier ones of its own lie below it. */
  method FindOffset(saved: seq<Reg>, table: seq<seq<Reg>>, id: nat) returns (off: nat)
    requires SavedOk(saved) && TableOf(table, Groups(FpRegs(saved))) && S(id) in saved
    ensures off == SavedOffset(saved, S(id))
  {
    hide Groups, FpRegs, SavedOk, SavedOffset, TableOf, RunsAfter;
    InTable(saved, table, S(id));
    TableSize(table, Groups(FpRegs(saved)));
    var total: nat := 0;
    ghost var found, at := false, 0;
    for i := 0 to RUNS
      invariant !found ==> total == 0 && forall k :: 0 <= k < i ==> S(id) !in table[k]
      invariant found ==> 4 * total == SavedOffset(saved, S(id)) && at < i && S(id) in table[at]
    {
      if found {
        ghost var m :| 0 <= m < |table[at]| && table[at][m] == S(id);
        OneRun(saved, table, at, m, i, S(id));
      }
      for m := 0 to |table[i]|
        invariant forall n :: 0 <= n < m ==> table[i][n] != S(id)
      {
        if table[i][m] == S(id) {
          var sum := SumAfter(table, i);
          TableOffset(saved, table, i, m);
          total := total + sum;
          total := total + m;
          found, at := true, i;
          break;
        }
      }
    }
    off := 4 * total;
  }

  class CallBuilder {
    /** The runs of saved single-precision registers, once they have been worked out. */
    var pushedRegs: seq<seq<Reg>>
    var haveCal: bool

    ghost predicate Ready(saved: seq<Reg>)
      reads this
    {
      TableOf(pushedRegs, if haveCal then Groups(FpRegs(saved)) else [])
    }

    constructor ()
      ensures !haveCal && TableOf(pushedRegs, [])
    {
      pushedRegs, haveCal := seq(RUNS, _ => []), false;
    }

    /** Works out the table of runs. */
    method FillTable(saved: seq<Reg>)
      requires SavedOk(saved) && TableOf(pushedRegs, [])
      modifies this`pushedRegs
      ensures TableOf(pushedRegs, Groups(FpRegs(saved)))
    {
      hide Groups, FpRegs, IntRegs, TableOf, SavedOk;
      var j, pre, flag := 0, 0, false;
      NoGroups();
      ghost var fs := [];
      assert saved[..0] == [];
      NoFp();
      for i := 0 to |saved|
        invariant fs == FpRegs(saved[..i]) && (flag <==> fs != []) && (flag ==> pre == fs[|fs| - 1].id)
        invariant TableOf(pushedRegs, Groups(fs)) && j == if flag then |Groups(fs)| - 1 else 0
      {
        FpStep(saved, i);
        if saved[i].S? {
          PrefixRuns(saved, i + 1);
          if flag && pre + 1 != saved[i].id {
            j := j + 1;
          }
          TableSize(pushedRegs, Groups(fs));
          TableGrows(pushedRegs, fs, saved[i], j);
          pushedRegs := pushedRegs[j := pushedRegs[j] + [saved[i]]];
          flag := true;
          pre := saved[i].id;
          fs := fs + [saved[i]];
        }
      }
      assert saved[..|saved|] == saved;
    }

    /** The offset of the saved copy of a single-precision register. */
    method CalRegPosition(saved: seq<Reg>, id: nat) returns (off: nat)
      requires SavedOk(saved) && S(id) in saved && Ready(saved)
      modifies this
      ensures off == SavedOffset(saved, S(id)) && haveCal && Ready(saved)
    {
      hide Groups, FpRegs, SavedOk, SavedOffset, TableOf;
      if !haveCal {
        FillTable(saved);
        haveCal := true;
      }
      off := FindOffset(saved, pushedRegs, id);
    }

    /** The offset of the saved copy of a register, if it has been saved. */
    method FindSaved(saved: seq<Reg>, reg: Reg, savedFp: nat) returns (off: int)
      requires SavedOk(saved) && Ready(saved) && savedFp == |FpRegs(saved)|
      modifies this
      ensures Ready(saved) && off == if reg in saved then SavedOffset(saved, reg) else -1
    {
      hide SavedOffset, FpRegs, TableOf, Groups;
      for k := 0 to |saved|
        invariant Ready(saved) && forall l :: 0 <= l < k ==> saved[l] != reg
      {
        if saved[k] == reg {
          if reg.S? {
            off := CalRegPosition(saved, reg.id);
          } else {
            IntOffset(saved, k);
            off := 4 * (k + savedFp);
          }
          return;
        }
      }
      off := -1;
    }

    /** The code for one argument. ok is false where one of the source's assertions fails: the one about saved
        registers or the one in the emitter of stores. */
    method PassOne(a: Arg, ghost before: seq<bool>, intArgs: nat, floatArgs: nat, useFp: bool, saved: seq<Reg>,
        savedFp: nat, frame: int)
        returns (ok: bool, code: seq<Instr>)
      requires SavedOk(saved) && Ready(saved) && savedFp == |FpRegs(saved)|
      requires floatArgs == Fps(before) && intArgs == |before| - Fps(before)
      modifies this
      ensures Ready(saved) && (ok <==> ClashSaved(a, before, useFp, saved) && StoreOk(a, before, useFp, frame))
      ensures ok ==> code == ArgStep(a, before, useFp, saved, frame)
      ensures (useFp ==> a.isFp) && (a.isFp && !useFp ==> Fps(before) == 0) ==>
                (ok <==> Accepts(a, before, useFp, saved, frame))
      ensures useFp == a.isFp && !CallerPlace(before, useFp).OnStack? &&
              (a.InReg? ==> !Overwritten(before, Home(a))) ==>
                ok
    {
      hide SavedOffset, Accepts, Overwritten, FpRegs, TableOf, Groups, Sorted, SavedOk, Fps;
      ok := true;
      if (!useFp && intArgs <= 3) || (useFp && floatArgs <= 15) {
        var dst := if useFp then S(floatArgs) else R(intArgs);
        match a {
          case Const(v, isFp) =>
            code := if isFp then [Set(TEMP, v), Mov(dst, TEMP)] else [Set(dst, v)];
          case InReg(id, isFp) =>
            if (id < intArgs && intArgs < 4 && !isFp) || (id < floatArgs && floatArgs < 16 && isFp) {
              var off := FindSaved(saved, Home(a), savedFp);
              ok := off != -1;
              code := LoadCode(dst, off);
            } else {
              code := [Mov(dst, Home(a))];
            }
          case InFrame(off, _) =>
            code := LoadCode(dst, off + 4 * |saved|);
        }
      } else {
        var offset := (Max(floatArgs, 16) - 16) * 4 + (Max(intArgs, 4) - 4) * 4;
        var at := offset - frame;
        match a {
          case Const(v, _) =>
            ok := StoreAllowed(TEMP, at);
            code := [Set(TEMP, v)] + StoreCode(TEMP, at);
          case InReg(id, isFp) =>
            if (id < 4 && !isFp) || (id < 16 && isFp) {
              var off := FindSaved(saved, Home(a), savedFp);
              ok := off != -1 && StoreAllowed(TEMP, at);
              code := LoadCode(TEMP, off) + StoreCode(TEMP, at);
            } else {
              ok := StoreAllowed(Home(a), at);
              code := StoreCode(Home(a), at);
            }
          case InFrame(off, _) =>
            ok := StoreAllowed(TEMP, at);
            code := LoadCode(TEMP, off + 4 * |saved|) + StoreCode(TEMP, at);
        }
      }
      if (useFp ==> a.isFp) && (a.isFp && !useFp ==> Fps(before) == 0) {
        AcceptsIs(a, before, useFp, saved, frame);
      }
      NothingSavedNeeded(a, before, useFp, saved, frame);
    }

    /** The code for all arguments of a call. */
    method PassFunctionArgs(args: seq<Arg>, isCast: bool, saved: seq<Reg>, calleeSaved: int,
        calleeStack: int) returns (ok: bool, code: seq<Instr>)
      requires SavedOk(saved) && !haveCal && TableOf(pushedRegs, [])
      modifies this
      ensures ok <==> ClashesSaved(args, isCast, saved) && StoresOk(args, isCast, calleeSaved + calleeStack)
      ensures ok <==> forall i :: 0 <= i < |args| ==>
        Accepts(args[i], UsesFp(args, isCast)[..i], UsesFp(args, isCast)[i], saved, calleeSaved + calleeStack)
      ensures ok ==> code == ArgCode(args, isCast, saved, calleeSaved + calleeStack) && !haveCal && TableOf(pushedRegs,
              [])
    {
      hide SavedOk, TableOf, Groups, FpRegs, Fps, ArgStep, Ready, ClashSaved, StoreOk, ArgCode, Accepts, CallerPlace,
          Overwritten;
      AllAccepted(args, isCast, saved, calleeSaved + calleeStack);
      var frame := calleeSaved + calleeStack;
      var savedFp := CountFp(saved);
      var intArgs, floatArgs := 0, 0;
      ghost var u := UsesFp(args, isCast);
      TableReady(saved);
      NothingPassed(args, u, isCast, saved, frame);
      code, ok := [], true;
      for n := 0 to |args|
        invariant Ready(saved) && ok && floatArgs == Fps(u[..n]) && intArgs == n - Fps(u[..n]) && intArgs >= 0
        invariant code == ArgCode(args[..n], isCast, saved, frame)
        invariant forall i :: 0 <= i < n ==>
                                ClashSaved(args[i], u[..i], u[i], saved) && StoreOk(args[i], u[..i], u[i], frame)
      {
        var useFp := args[n].isFp && !isCast;
        var done, next := PassOne(args[n], u[..n], intArgs, floatArgs, useFp, saved, savedFp, frame);
        if !done {
          ok := false;
          return;
        }
        CodeStep(args, n, isCast, saved, frame);
        code := code + next;
        if useFp {
          floatArgs := floatArgs + 1;
        } else {
          intArgs := intArgs + 1;
        }
      }
      assert args[..|args|] == args;
      if haveCal {
        pushedRegs := seq(RUNS, _ => []);
        haveCal := false;
        EmptyTable(pushedRegs);
      }
      TableReady(saved);
    }

    lemma TableReady(saved: seq<Reg>)
      ensures !haveCal ==> (Ready(saved) <==> TableOf(pushedRegs, []))
    {
    }
  }

  lemma NothingSavedNeeded(a: Arg, before: seq<bool>, useFp: bool, saved: seq<Reg>, frame: int)
    ensures useFp == a.isFp && !CallerPlace(before, useFp).OnStack? && (a.InReg? ==> !Overwritten(before, Home(a))) ==>
              ClashSaved(a, before, useFp, saved) && StoreOk(a, before, useFp, frame)
  {
    hide Overwritten, Clashes, CallerPlace;
    ClashExact(a, before, useFp);
  }

  lemma EmptyTable(table: seq<seq<Reg>>)
    requires |table| == RUNS && forall i :: 0 <= i < RUNS ==> table[i] == []
    ensures TableOf(table, [])
  {
  }

  lemma NothingPassed(args: seq<Arg>, u: seq<bool>, isCast: bool, saved: seq<Reg>, frame: int)
    ensures args[..0] == [] && u[..0] == [] && Fps([]) == 0 && ArgCode([], isCast, saved, frame) == []
  {
  }

  lemma CodeStep(args: seq<Arg>, n: nat, isCast: bool, saved: seq<Reg>, frame: int)
    requires n < |args|
    ensures var u := UsesFp(args, isCast);
      && ArgCode(args[..n + 1], isCast, saved, frame) == ArgCode(args[..n], isCast, saved, frame) + ArgStep(args[n],
          u[..n], u[n], saved, frame)
      && Fps(u[..n + 1]) == Fps(u[..n]) + if u[n] then 1 else 0
  {
    CodeSplits(args, n, isCast, saved, frame);
    var u := UsesFp(args, isCast);
    assert u[..n + 1][..n] == u[..n];
  }

  method CountFp(saved: seq<Reg>) returns (n: nat)
    ensures n == |FpRegs(saved)|
  {
    n := 0;
    for i := 0 to |saved|
      invariant n == |FpRegs(saved[..i])|
    {
      FpStep(saved, i);
      if saved[i].S? { n := n + 1; }
    }
    assert saved[..|saved|] == saved;
  }

  lemma NoFp()
    ensures FpRegs([]) == []
  {
  }

  lemma TableSize(table: seq<seq<Reg>>, groups: seq<seq<Reg>>)
    requires TableOf(table, groups)
    ensures |table| == RUNS && |groups| <= RUNS
  {
  }
}
