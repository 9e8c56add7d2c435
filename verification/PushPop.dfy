/** Saving and restoring registers: one push for the integer registers, one vpush for each run of consecutive
    single-precision registers. */
module PushPop {
  import opened CallMachine

  function IntRegs(list: seq<Reg>): seq<Reg> {
    if list == [] then []
    else IntRegs(list[..|list| - 1]) + if list[|list| - 1].R? then [list[|list| - 1]] else []
  }

  function FpRegs(list: seq<Reg>): seq<Reg> {
    if list == [] then []
    else FpRegs(list[..|list| - 1]) + if list[|list| - 1].S? then [list[|list| - 1]] else []
  }

  /** The runs of consecutive registers. */
  function Groups(fs: seq<Reg>): (g: seq<seq<Reg>>)
    ensures forall i :: 0 <= i < |g| ==> g[i] != []
    ensures fs != [] ==> g != [] && g[|g| - 1][|g[|g| - 1]| - 1] == fs[|fs| - 1]
  {
    if fs == [] then []
    else
      var n := |fs| - 1;
      var g := Groups(fs[..n]);
      if n > 0 && fs[n - 1].id + 1 == fs[n].id then g[..|g| - 1] + [g[|g| - 1] + [fs[n]]] else g + [[fs[n]]]
  }

  function Pushes(groups: seq<seq<Reg>>): seq<Instr> {
    if groups == [] then [] else Pushes(groups[..|groups| - 1]) + [Push(groups[|groups| - 1])]
  }

  /** The last group pushed is the first one popped. */
  function Pops(groups: seq<seq<Reg>>): seq<Instr> {
    if groups == [] then [] else [Pop(groups[|groups| - 1])] + Pops(groups[..|groups| - 1])
  }

  function PushCode(list: seq<Reg>): seq<Instr> {
    if list == [] then [] else [Push(IntRegs(list))] + Pushes(Groups(FpRegs(list)))
  }

  function PopCode(list: seq<Reg>): seq<Instr> {
    if list == [] then [] else Pops(Groups(FpRegs(list))) + [Pop(IntRegs(list))]
  }

  /** What lies on the stack after pushing the groups, from the lowest address on. */
  function Image(groups: seq<seq<Reg>>): seq<Reg> {
    if groups == [] then [] else groups[|groups| - 1] + Image(groups[..|groups| - 1])
  }

  /** All saved registers in the order of their addresses: the last run first, the integer registers on top. */
  function SavedImage(list: seq<Reg>): seq<Reg> {
    Image(Groups(FpRegs(list))) + IntRegs(list)
  }

  /** The words from address a on are the values that the listed registers have in s0. */
  ghost predicate Holds(s: State, a: int, img: seq<Reg>, s0: State) {
    forall i :: 0 <= i < |img| ==> Load(s, a + 4 * i) == Val(s0, img[i])
  }

  ghost predicate SameAbove(s: State, s': State, a: int) {
    forall b :: b >= a ==> Load(s', b) == Load(s, b)
  }

  ghost predicate SameBelow(s: State, s': State, a: int) {
    forall b :: b < a ==> Load(s', b) == Load(s, b)
  }

  ghost predicate NoRepeats(list: seq<Reg>) {
    forall i, j :: 0 <= i < j < |list| ==> list[i] != list[j]
  }

  lemma PushOne(s: State, rs: seq<Reg>, s0: State)
    requires s.regs == s0.regs
    ensures var s' := Step(Push(rs), s);
            && s'.regs == s0.regs && s'.sp == s.sp - 4 * |rs| && Holds(s', s'.sp, rs, s0)
            && SameAbove(s, s', s.sp) && SameBelow(s, s', s'.sp)
  {
    var a := s.sp - 4 * |rs|;
    var s' := Step(Push(rs), s);
    forall i | 0 <= i < |rs| ensures Load(s', a + 4 * i) == Val(s0, rs[i]) {
      StoreAllAt(s, rs, a, a + 4 * i);
    }
    forall b | b >= s.sp || b < a ensures Load(s', b) == Load(s, b) {
      StoreAllAt(s, rs, a, b);
    }
  }

  lemma HoldsConcat(s: State, a: int, x: seq<Reg>, y: seq<Reg>, s0: State)
    requires Holds(s, a, x, s0) && Holds(s, a + 4 * |x|, y, s0)
    ensures Holds(s, a, x + y, s0)
  {
    forall i | 0 <= i < |x + y| ensures Load(s, a + 4 * i) == Val(s0, (x + y)[i]) {
      if i >= |x| { assert a + 4 * i == (a + 4 * |x|) + 4 * (i - |x|); }
    }
  }

  lemma HoldsStay(s: State, s': State, a: int, img: seq<Reg>, s0: State)
    requires Holds(s, a, img, s0) && SameAbove(s, s', a)
    ensures Holds(s', a, img, s0)
  {
  }

  /** Pushing the groups builds their image below the stack pointer. */
  lemma {:induction false} PushesBuild(groups: seq<seq<Reg>>, s: State)
    ensures var s' := Run(Pushes(groups), s);
      s'.regs == s.regs && s'.sp == s.sp - 4 * |Image(groups)| && Holds(s', s'.sp, Image(groups), s) &&
          SameAbove(s, s', s.sp) && SameBelow(s, s', s'.sp)
    decreases |groups|
  {
    if groups != [] {
      var n := |groups| - 1;
      var g := groups[n];
      PushesBuild(groups[..n], s);
      var s1 := Run(Pushes(groups[..n]), s);
      RunConcat(Pushes(groups[..n]), [Push(g)], s);
      RunOne(Push(g), s1);
      PushOne(s1, g, s);
      var s2 := Step(Push(g), s1);
      HoldsStay(s1, s2, s1.sp, Image(groups[..n]), s);
      HoldsConcat(s2, s2.sp, g, Image(groups[..n]), s);
    }
  }

  /** The registers listed have their values of s0, the others those of s. */
  ghost predicate Restored(s: State, s': State, img: seq<Reg>, s0: State) {
    forall r :: Val(s', r) == if r in img then Val(s0, r) else Val(s, r)
  }

  lemma PopOne(s: State, rs: seq<Reg>, s0: State)
    requires Holds(s, s.sp, rs, s0) && NoRepeats(rs)
    ensures var s' := Step(Pop(rs), s); s'.sp == s.sp + 4 * |rs| && s'.mem == s.mem && Restored(s, s', rs, s0)
  {
    var s' := Step(Pop(rs), s);
    forall r ensures Val(s', r) == if r in rs then Val(s0, r) else Val(s, r) {
      LoadAllAt(s, rs, s.sp, r);
      if r in rs {
        var i :| 0 <= i < |rs| && rs[i] == r;
      }
    }
  }

  lemma NoRepeatsParts(x: seq<Reg>, y: seq<Reg>)
    requires NoRepeats(x + y)
    ensures NoRepeats(x) && NoRepeats(y)
  {
    var s := x + y;
    forall i, j | 0 <= i < j < |x| ensures x[i] != x[j] { assert s[i] == x[i] && s[j] == x[j]; }
    forall i, j | 0 <= i < j < |y| ensures y[i] != y[j] { assert s[|x| + i] == y[i] && s[|x| + j] == y[j]; }
  }

  lemma HoldsParts(s: State, a: int, x: seq<Reg>, y: seq<Reg>, s0: State)
    requires Holds(s, a, x + y, s0)
    ensures Holds(s, a, x, s0) && Holds(s, a + 4 * |x|, y, s0)
  {
    var z := x + y;
    forall i | 0 <= i < |x| ensures Load(s, a + 4 * i) == Val(s0, x[i]) { assert z[i] == x[i]; }
    forall i | 0 <= i < |y| ensures Load(s, a + 4 * |x| + 4 * i) == Val(s0, y[i]) {
      assert z[|x| + i] == y[i] && a + 4 * (|x| + i) == a + 4 * |x| + 4 * i;
    }
  }

  /** Popping the groups in reverse order reads their image back. */
  lemma {:induction false} PopsRestore(groups: seq<seq<Reg>>, s: State, s0: State)
    requires Holds(s, s.sp, Image(groups), s0) && NoRepeats(Image(groups))
    ensures var s' := Run(Pops(groups), s); s'.sp == s.sp + 4 * |Image(groups)| && s'.mem == s.mem &&
                                            Restored(s, s', Image(groups), s0)
    decreases |groups|
  {
    if groups != [] {
      var n := |groups| - 1;
      var g, rest := groups[n], Image(groups[..n]);
      HoldsParts(s, s.sp, g, rest, s0);
      NoRepeatsParts(g, rest);
      PopOne(s, g, s0);
      var s1 := Step(Pop(g), s);
      HoldsMem(s, s1, s1.sp, rest, s0);
      PopsRestore(groups[..n], s1, s0);
      RunOne(Pop(g), s);
      RunConcat([Pop(g)], Pops(groups[..n]), s);
      RestoredConcat(s, s1, Run(Pops(groups), s), g, rest, s0);
    }
  }

  lemma HoldsMem(s: State, s': State, a: int, img: seq<Reg>, s0: State)
    requires Holds(s, a, img, s0) && s'.mem == s.mem
    ensures Holds(s', a, img, s0)
  {
    forall i | 0 <= i < |img| ensures Load(s', a + 4 * i) == Val(s0, img[i]) {
      assert Load(s, a + 4 * i) == Val(s0, img[i]);
    }
  }

  lemma RestoredConcat(s: State, s1: State, s2: State, x: seq<Reg>, y: seq<Reg>, s0: State)
    requires Restored(s, s1, x, s0) && Restored(s1, s2, y, s0)
    ensures Restored(s, s2, x + y, s0)
  {
    forall r ensures Val(s2, r) == if r in x + y then Val(s0, r) else Val(s, r) {
      assert r in x + y <==> r in x || r in y;
    }
  }

  lemma {:induction false} ImageSize(groups: seq<seq<Reg>>, fs: seq<Reg>)
    requires groups == Groups(fs)
    ensures |Image(groups)| == |fs| && forall r :: r in Image(groups) <==> r in fs
    decreases |fs|
  {
    if fs != [] {
      var n := |fs| - 1;
      var g := Groups(fs[..n]);
      ImageSize(g, fs[..n]);
      assert fs == fs[..n] + [fs[n]];
      if n > 0 && fs[n - 1].id + 1 == fs[n].id {
        assert groups[..|groups| - 1] == g[..|g| - 1];
      } else {
        assert groups[..|groups| - 1] == g;
      }
    }
  }

  lemma {:induction false} PartsOf(list: seq<Reg>)
    ensures |IntRegs(list)| + |FpRegs(list)| == |list|
    ensures forall r :: (r in IntRegs(list) <==> r in list && r.R?) && (r in FpRegs(list) <==> r in list && r.S?)
    decreases list
  {
    if list != [] {
      var n := |list| - 1;
      PartsOf(list[..n]);
      assert list == list[..n] + [list[n]];
    }
  }

  lemma SavedSize(list: seq<Reg>)
    ensures |SavedImage(list)| == |list| && forall r :: r in SavedImage(list) <==> r in list
  {
    PartsOf(list);
    ImageSize(Groups(FpRegs(list)), FpRegs(list));
    forall r ensures r in SavedImage(list) <==> r in list {
      assert r in SavedImage(list) <==> r in Image(Groups(FpRegs(list))) || r in IntRegs(list);
      assert r.R? || r.S?;
    }
  }

  /** Saving pushes each register of the list exactly once, in the order of the image. */
  lemma PushSaves(list: seq<Reg>, s: State)
    ensures var s' := Run(PushCode(list), s);
      s'.regs == s.regs && s'.sp == s.sp - 4 * |list| && Holds(s', s'.sp, SavedImage(list), s) &&
          SameAbove(s, s', s.sp) && SameBelow(s, s', s'.sp)
  {
    SavedSize(list);
    if list != [] {
      var ints, groups := IntRegs(list), Groups(FpRegs(list));
      RunConcat([Push(ints)], Pushes(groups), s);
      RunOne(Push(ints), s);
      PushOne(s, ints, s);
      var s1 := Step(Push(ints), s);
      PushesBuild(groups, s1);
      var s2 := Run(Pushes(groups), s1);
      HoldsStay(s1, s2, s1.sp, ints, s);
      HoldsFrom(s2, s2.sp, Image(groups), s1, s);
      HoldsConcat(s2, s2.sp, Image(groups), ints, s);
    }
  }

  lemma HoldsFrom(s: State, a: int, img: seq<Reg>, s1: State, s0: State)
    requires Holds(s, a, img, s1) && s1.regs == s0.regs
    ensures Holds(s, a, img, s0)
  {
  }

  lemma {:induction false} GroupsKeep(fs: seq<Reg>)
    requires NoRepeats(fs)
    ensures NoRepeats(Image(Groups(fs)))
    decreases |fs|
  {
    if fs != [] {
      var n := |fs| - 1;
      var g, groups := Groups(fs[..n]), Groups(fs);
      GroupsKeep(fs[..n]);
      ImageSize(g, fs[..n]);
      var img := Image(g);
      assert fs[n] !in fs[..n];
      if n > 0 && fs[n - 1].id + 1 == fs[n].id {
        assert groups[..|groups| - 1] == g[..|g| - 1];
        var last, rest := g[|g| - 1], Image(g[..|g| - 1]);
        InsertedOnce(last, fs[n], rest);
      } else {
        assert groups[..|groups| - 1] == g;
        InsertedOnce([], fs[n], img);
        assert [] + [fs[n]] + img == [fs[n]] + img;
        assert [] + img == img;
      }
    }
  }

  lemma InsertedOnce(x: seq<Reg>, r: Reg, y: seq<Reg>)
    requires NoRepeats(x + y) && r !in x + y
    ensures NoRepeats(x + [r] + y)
  {
    var z, w := x + y, x + [r] + y;
    forall i, j | 0 <= i < j < |w| ensures w[i] != w[j] {
      if i == |x| {
        assert w[j] == z[j - 1];
      } else if j == |x| {
        assert w[i] == z[i];
      } else {
        assert w[i] == z[if i < |x| then i else i - 1] && w[j] == z[if j < |x| then j else j - 1];
      }
    }
  }

  lemma {:induction false} PartsKeep(list: seq<Reg>)
    requires NoRepeats(list)
    ensures NoRepeats(IntRegs(list)) && NoRepeats(FpRegs(list))
    decreases list
  {
    if list != [] {
      var n := |list| - 1;
      PartsKeep(list[..n]);
      PartsOf(list[..n]);
      assert list[n] !in list[..n];
    }
  }

  lemma SavedKeep(list: seq<Reg>)
    requires NoRepeats(list)
    ensures NoRepeats(SavedImage(list))
  {
    PartsKeep(list);
    GroupsKeep(FpRegs(list));
    PartsOf(list);
    ImageSize(Groups(FpRegs(list)), FpRegs(list));
    var x, y := Image(Groups(FpRegs(list))), IntRegs(list);
    forall i, j | 0 <= i < |x| && 0 <= j < |y| ensures x[i] != y[j] {
      assert x[i] in x && y[j] in y;
      assert x[i] in FpRegs(list);
    }
  }

  /** Restoring undoes saving: whatever happened in between, as long as the saved words are intact and the stack pointer
      is back, each listed register has its old value, the others are as they were left. */
  lemma PopUndoesPush(list: seq<Reg>, s0: State, s: State)
    requires NoRepeats(list)
    requires s.sp == s0.sp - 4 * |list| && Holds(s, s.sp, SavedImage(list), s0)
    ensures var s' := Run(PopCode(list), s); s'.sp == s0.sp && s'.mem == s.mem && Restored(s, s', list, s0)
  {
    hide Groups, IntRegs, FpRegs, Image, Holds, Restored;
    SavedSize(list);
    SavedKeep(list);
    if list != [] {
      var ints, groups := IntRegs(list), Groups(FpRegs(list));
      var img := Image(groups);
      HoldsParts(s, s.sp, img, ints, s0);
      NoRepeatsParts(img, ints);
      PopsRestore(groups, s, s0);
      var s1 := Run(Pops(groups), s);
      HoldsMem(s, s1, s1.sp, ints, s0);
      PopOne(s1, ints, s0);
      RunConcat(Pops(groups), [Pop(ints)], s);
      RunOne(Pop(ints), s1);
      RestoredConcat(s, s1, Step(Pop(ints), s1), img, ints, s0);
      RestoredSame(s, Run(PopCode(list), s), SavedImage(list), list, s0);
    } else {
      RestoredNothing(s, s0);
    }
  }

  lemma RestoredNothing(s: State, s0: State)
    ensures Restored(s, s, [], s0)
  {
  }

  lemma RestoredSame(s: State, s': State, x: seq<Reg>, y: seq<Reg>, s0: State)
    requires Restored(s, s', x, s0) && forall r :: r in x <==> r in y
    ensures Restored(s, s', y, s0)
  {
  }

  /** Every vpush and vpop names one run of consecutive registers. */
  lemma {:induction false} GroupsAreRuns(fs: seq<Reg>, i: nat, j: nat)
    requires i < |Groups(fs)| && j + 1 < |Groups(fs)[i]| && forall k :: 0 <= k < |fs| ==> fs[k].S?
    ensures Groups(fs)[i][j].S? && Groups(fs)[i][j + 1] == S(Groups(fs)[i][j].id + 1)
    decreases |fs|
  {
    var n := |fs| - 1;
    var g := Groups(fs[..n]);
    if i < |g| && j + 1 < |g[i]| {
      GroupsAreRuns(fs[..n], i, j);
    }
  }

  /** An assembler accepts no push or pop without registers. */
  ghost predicate Encodable(code: seq<Instr>) {
    forall i :: 0 <= i < |code| ==> (code[i].Push? ==> code[i].rs != []) && (code[i].Pop? ==> code[i].rs != [])
  }

  lemma {:induction false} PushesEncodable(groups: seq<seq<Reg>>)
    requires forall i :: 0 <= i < |groups| ==> groups[i] != []
    ensures Encodable(Pushes(groups)) && Encodable(Pops(groups))
    decreases |groups|
  {
    if groups != [] { PushesEncodable(groups[..|groups| - 1]); }
  }

  /** The code for a list is valid exactly if the list is empty or names an integer register. */
  lemma CodeEncodable(list: seq<Reg>)
    ensures Encodable(PushCode(list)) <==> list == [] || exists r :: r in list && r.R?
    ensures Encodable(PopCode(list)) <==> list == [] || exists r :: r in list && r.R?
  {
    hide Groups, IntRegs, FpRegs, Pushes, Pops;
    var ints, groups := IntRegs(list), Groups(FpRegs(list));
    PushesEncodable(groups);
    PartsOf(list);
    if list != [] {
      assert PushCode(list)[0] == Push(ints);
      assert PopCode(list)[|Pops(groups)|] == Pop(ints);
      assert ints != [] ==> ints[0] in ints;
      if exists r :: r in list && r.R? {
        var r :| r in list && r.R?;
        assert r in ints;
      }
    }
  }

  /** The order of the saved registers: integer registers first, then by number. */
  predicate Less(x: Reg, y: Reg) {
    if x.S? == y.S? then x.id < y.id else y.S?
  }

  ghost predicate Sorted(list: seq<Reg>) {
    forall i, j :: 0 <= i < j < |list| ==> Less(list[i], list[j])
  }

  lemma {:induction false} SortedParts(list: seq<Reg>)
    requires Sorted(list)
    ensures list == IntRegs(list) + FpRegs(list) && NoRepeats(list)
    decreases list
  {
    if list != [] {
      var n := |list| - 1;
      SortedParts(list[..n]);
      PartsOf(list[..n]);
      assert list == list[..n] + [list[n]];
      forall x | x in list[..n] ensures Less(x, list[n]) { }
      if list[n].R? { NoFpBefore(list[..n], list[n]); }
    }
  }

  lemma {:induction false} NoFpBefore(list: seq<Reg>, r: Reg)
    requires r.R? && forall x :: x in list ==> Less(x, r)
    ensures FpRegs(list) == []
    decreases list
  {
    if list != [] {
      assert Less(list[|list| - 1], r);
      NoFpBefore(list[..|list| - 1], r);
    }
  }

  lemma FpStep(list: seq<Reg>, i: nat)
    requires i < |list|
    ensures IntRegs(list[..i + 1]) == IntRegs(list[..i]) + if list[i].R? then [list[i]] else []
    ensures FpRegs(list[..i + 1]) == FpRegs(list[..i]) + if list[i].S? then [list[i]] else []
    ensures list[..|list|] == list
  {
    assert list[..i + 1][..i] == list[..i];
  }

  /** The integer registers of a list in their order. */
  method IntsOf(list: seq<Reg>) returns (ints: seq<Reg>)
    ensures ints == IntRegs(list)
  {
    ints := [];
    for i := 0 to |list|
      invariant ints == IntRegs(list[..i])
    {
      FpStep(list, i);
      if list[i].R? { ints := ints + [list[i]]; }
    }
    assert list[..|list|] == list;
  }

  lemma GroupsStep(fs: seq<Reg>, r: Reg, done: seq<seq<Reg>>, open: seq<Reg>)
    requires if fs == [] then done == [] && open == [] else Groups(fs) == done + [open]
    ensures Groups(fs + [r]) ==
      if fs != [] && fs[|fs| - 1].id + 1 != r.id then done + [open] + [[r]] else done + [open + [r]]
  {
    assert (fs + [r])[..|fs|] == fs;
    if fs != [] {
      assert (fs + [r])[|fs| - 1] == fs[|fs| - 1];
      assert Groups(fs)[..|done|] == done;
    } else {
      assert Groups([r]) == [[r]];
    }
  }

  /** The runs of consecutive single-precision registers of a list. */
  method RunsOf(list: seq<Reg>) returns (groups: seq<seq<Reg>>)
    ensures groups == Groups(FpRegs(list))
  {
    hide Groups;
    var done: seq<seq<Reg>>, open: seq<Reg>, pre := [], [], 0;
    ghost var fs := [];
    for i := 0 to |list|
      invariant fs == FpRegs(list[..i]) && (open == [] <==> fs == []) && (fs != [] ==> pre == fs[|fs| - 1].id)
      invariant if fs == [] then done == [] && open == [] else Groups(fs) == done + [open]
    {
      FpStep(list, i);
      if list[i].S? {
        GroupsStep(fs, list[i], done, open);
        if open != [] && pre + 1 != list[i].id {
          done := done + [open];
          open := [list[i]];
        } else {
          open := open + [list[i]];
        }
        pre := list[i].id;
        fs := fs + [list[i]];
      }
    }
    assert list[..|list|] == list;
    if open != [] {
      groups := done + [open];
    } else {
      NoGroups();
      groups := [];
    }
  }

  lemma NoGroups()
    ensures Groups([]) == []
  {
  }

  /** Emits the pushes of a list of registers. */
  method EmitPush(list: seq<Reg>) returns (code: seq<Instr>)
    ensures code == PushCode(list)
  {
    hide Groups, IntRegs, FpRegs;
    code := [];
    if |list| == 0 {
      return;
    }
    var ints := IntsOf(list);
    var groups := RunsOf(list);
    code := [Push(ints)];
    for k := 0 to |groups|
      invariant code == [Push(ints)] + Pushes(groups[..k])
    {
      assert groups[..k + 1][..k] == groups[..k];
      code := code + [Push(groups[k])];
    }
    assert groups[..|groups|] == groups;
  }

  /** Emits the pops that undo the pushes of the same list. */
  method EmitPop(list: seq<Reg>) returns (code: seq<Instr>)
    ensures code == PopCode(list)
  {
    hide Groups, IntRegs, FpRegs;
    code := [];
    if |list| == 0 {
      return;
    }
    var groups := RunsOf(list);
    var k := |groups|;
    assert groups[..k] == groups;
    while k > 0
      invariant 0 <= k <= |groups| && Pops(groups) == code + Pops(groups[..k])
    {
      assert groups[..k][..k - 1] == groups[..k - 1];
      code := code + [Pop(groups[k - 1])];
      k := k - 1;
    }
    var ints := IntsOf(list);
    code := code + [Pop(ints)];
  }
}
