/** Passing arguments: what the caller emits between saving its registers and the branch to the callee. */
module CallArgs {
  import opened CallMachine
  import opened PushPop
  import opened CallFrame

  /** Where the value of an argument is before the call: a constant, a register, or a slot of the caller's frame. */
  datatype Arg = Const(val: int, isFp: bool) | InReg(id: nat, isFp: bool) | InFrame(off: nat, isFp: bool)

  function Home(a: Arg): Reg
    requires a.InReg?
  {
    if a.isFp then S(a.id) else R(a.id)
  }

  /** The value of an argument in the state before the call. */
  function ArgVal(s: State, a: Arg): int {
    match a
    case Const(v, _) => v
    case InReg(_, _) => Val(s, Home(a))
    case InFrame(off, _) => Load(s, s.sp + off)
  }

  /** Conversion helpers take also floats in integer registers. */
  function UsesFp(args: seq<Arg>, isCast: bool): (u: seq<bool>)
    ensures |u| == |args| && forall i :: 0 <= i < |args| ==> u[i] == (args[i].isFp && !isCast)
  {
    seq(|args|, i requires 0 <= i < |args| => args[i].isFp && !isCast)
  }

  /** The register holding an argument may have been overwritten by an earlier one. */
  predicate Clashes(a: Arg, before: seq<bool>, useFp: bool) {
    a.InReg? &&
    var f := Fps(before);
    var i := |before| - f;
    match CallerPlace(before, useFp)
    case OnStack(_) => if a.isFp then a.id < 16 else a.id < 4
    case _ => if a.isFp then a.id < f && f < 16 else a.id < i && i < 4
  }

  function IndexOf(list: seq<Reg>, r: Reg): (k: nat)
    ensures k <= |list| && (k < |list| ==> list[k] == r) && (r in list ==> k < |list|)
  {
    if list == [] || list[0] == r then 0 else 1 + IndexOf(list[1..], r)
  }

  /** The offset of the saved copy of a register. */
  function SavedOffset(saved: seq<Reg>, r: Reg): nat {
    4 * IndexOf(SavedImage(saved), r)
  }

  /** What is emitted for one argument; `frame` is the size of the callee's saved registers and frame. */
  function ArgStep(a: Arg, before: seq<bool>, useFp: bool, saved: seq<Reg>, frame: int): seq<Instr> {
    match CallerPlace(before, useFp)
    case OnStack(w) => StackStep(a, w, before, useFp, saved, frame)
    case InInt(k) => RegStep(a, R(k), before, useFp, saved)
    case InFp(k) => RegStep(a, S(k), before, useFp, saved)
  }

  function RegStep(a: Arg, dst: Reg, before: seq<bool>, useFp: bool, saved: seq<Reg>): seq<Instr> {
    match a
    case Const(v, isFp) => if isFp then [Set(TEMP, v), Mov(dst, TEMP)] else [Set(dst, v)]
    case InReg(_, _) =>
      if Clashes(a, before, useFp) then LoadCode(dst, SavedOffset(saved, Home(a))) else [Mov(dst, Home(a))]
    case InFrame(off, _) => LoadCode(dst, off + 4 * |saved|)
  }

  /** The register that a stack argument is stored from. */
  function StoredFrom(a: Arg, before: seq<bool>, useFp: bool): Reg {
    if a.InReg? && !Clashes(a, before, useFp) then Home(a) else TEMP
  }

  function StackStep(a: Arg, w: nat, before: seq<bool>, useFp: bool, saved: seq<Reg>, frame: int): seq<Instr> {
    match a
    case Const(v, _) => [Set(TEMP, v)] + StoreCode(TEMP, 4 * w - frame)
    case InReg(_, _) =>
      if Clashes(a, before, useFp) then LoadCode(TEMP, SavedOffset(saved, Home(a))) + StoreCode(TEMP, 4 * w - frame)
      else StoreCode(Home(a), 4 * w - frame)
    case InFrame(off, _) => LoadCode(TEMP, off + 4 * |saved|) + StoreCode(TEMP, 4 * w - frame)
  }

  function ArgCode(args: seq<Arg>, isCast: bool, saved: seq<Reg>, frame: int): seq<Instr> {
    if args == [] then []
    else
      var n := |args| - 1;
      var u := UsesFp(args, isCast);
      ArgCode(args[..n], isCast, saved, frame) + ArgStep(args[n], u[..n], u[n], saved, frame)
  }

  /** If the register of the argument may have been overwritten, it has been saved. */
  ghost predicate ClashSaved(a: Arg, before: seq<bool>, useFp: bool, saved: seq<Reg>) {
    Clashes(a, before, useFp) ==> Home(a) in saved
  }

  ghost predicate ClashesSaved(args: seq<Arg>, isCast: bool, saved: seq<Reg>) {
    forall i :: 0 <= i < |args| ==> ClashSaved(args[i], UsesFp(args, isCast)[..i], UsesFp(args, isCast)[i], saved)
  }

  /** The assertion in the emitter of stores holds for the argument. */
  predicate StoreOk(a: Arg, before: seq<bool>, useFp: bool, frame: int) {
    match CallerPlace(before, useFp)
    case OnStack(w) => StoreAllowed(StoredFrom(a, before, useFp), 4 * w - frame)
    case _ => true
  }

  ghost predicate StoresOk(args: seq<Arg>, isCast: bool, frame: int) {
    forall i :: 0 <= i < |args| ==> StoreOk(args[i], UsesFp(args, isCast)[..i], UsesFp(args, isCast)[i], frame)
  }

  /** A stack argument goes through the scratch register to a word farther away than a store can name. */
  predicate Lost(a: Arg, before: seq<bool>, useFp: bool, frame: int) {
    match CallerPlace(before, useFp)
    case OnStack(w) => StoredFrom(a, before, useFp) == TEMP && Far(TEMP, 4 * w - frame)
    case _ => false
  }

  /** What reaches the callee for an argument: its value, or the distance that took its place. */
  function Given(s0: State, a: Arg, before: seq<bool>, useFp: bool, frame: int): int {
    match CallerPlace(before, useFp)
    case OnStack(w) => if Lost(a, before, useFp, frame) then 4 * w - frame else ArgVal(s0, a)
    case _ => ArgVal(s0, a)
  }

  /** The argument is where the callee expects it. */
  ghost predicate Delivered(s: State, p: Passed, v: int, frame: int) {
    match p
    case InInt(k) => Val(s, R(k)) == v
    case InFp(k) => Val(s, S(k)) == v
    case OnStack(w) => Load(s, s.sp + 4 * w - frame) == v
  }

  /** The registers that the arguments before have overwritten. */
  ghost predicate Written(before: seq<bool>, r: Reg) {
    r == TEMP || match r
    case R(id) => id < Min(|before| - Fps(before), 4)
    case S(id) => id < Min(Fps(before), 16)
  }

  /** s0 is the state before the call, s the state after passing some arguments. */
  ghost predicate Passing(s0: State, s: State, before: seq<bool>, saved: seq<Reg>) {
    && s.sp == s0.sp - 4 * |saved|
    && Holds(s, s.sp, SavedImage(saved), s0) && SameAbove(s0, s, s0.sp)
    && (forall r :: !Written(before, r) ==> Val(s, r) == Val(s0, r))
  }

  ghost predicate AllDelivered(s0: State, s: State, args: seq<Arg>, n: nat, isCast: bool, frame: int)
    requires n <= |args|
  {
    forall i :: 0 <= i < n ==> Delivered(s, CallerPlace(UsesFp(args, isCast)[..i], UsesFp(args, isCast)[i]),
                ArgVal(s0, args[i]), frame)
  }

  /** What is given for argument i. */
  function GivenAt(s0: State, args: seq<Arg>, i: nat, isCast: bool, frame: int): int
    requires i < |args|
  {
    Given(s0, args[i], UsesFp(args, isCast)[..i], UsesFp(args, isCast)[i], frame)
  }

  ghost predicate AllGiven(s0: State, s: State, args: seq<Arg>, n: nat, isCast: bool, frame: int)
    requires n <= |args|
  {
    forall i :: 0 <= i < n ==> Delivered(s, CallerPlace(UsesFp(args, isCast)[..i], UsesFp(args, isCast)[i]),
        GivenAt(s0, args, i, isCast, frame), frame)
  }

  /** An argument as the front end gives it: never in the scratch register. */
  predicate ArgOk(a: Arg) {
    a.InReg? ==> Home(a) != TEMP
  }

  lemma FpsBound(before: seq<bool>)
    ensures Fps(before) <= |before|
  {
    CountersAre(before);
  }

  /** The argument's value is still available when its turn comes. */
  lemma SourceIntact(s0: State, s: State, a: Arg, before: seq<bool>, useFp: bool, saved: seq<Reg>)
    requires Passing(s0, s, before, saved) && ArgOk(a) && (useFp ==> a.isFp)
    requires a.isFp && !useFp ==> Fps(before) == 0
    requires ClashSaved(a, before, useFp, saved)
    ensures a.InReg? && Clashes(a, before, useFp) ==> Load(s, s.sp + SavedOffset(saved, Home(a))) == ArgVal(s0, a)
    ensures a.InReg? && !Clashes(a, before, useFp) ==> Val(s, Home(a)) == ArgVal(s0, a)
    ensures a.InFrame? ==> Load(s, s.sp + (a.off + 4 * |saved|)) == ArgVal(s0, a)
  {
    FpsBound(before);
    if a.InReg? && Clashes(a, before, useFp) {
      SavedSize(saved);
      var k := IndexOf(SavedImage(saved), Home(a));
      assert Load(s, s.sp + 4 * k) == Val(s0, SavedImage(saved)[k]);
    } else if a.InReg? {
      assert !Written(before, Home(a));
    }
  }

  /** Register arguments: dst receives the value, only dst and the scratch register change. */
  lemma RegStepRuns(s0: State, s: State, a: Arg, dst: Reg, before: seq<bool>, useFp: bool, saved: seq<Reg>)
    requires Passing(s0, s, before, saved) && ArgOk(a) && (useFp ==> a.isFp) && (a.isFp && !useFp ==> Fps(before) == 0)
    requires ClashSaved(a, before, useFp, saved)
    ensures var s' := Run(RegStep(a, dst, before, useFp, saved), s);
      s'.sp == s.sp && s'.mem == s.mem && Val(s', dst) == ArgVal(s0, a) &&
      forall r :: r != dst && r != TEMP ==> Val(s', r) == Val(s, r)
  {
    hide Clashes, SavedOffset, CallerPlace, Passing;
    SourceIntact(s0, s, a, before, useFp, saved);
    match a
    case Const(v, isFp) =>
      RunTwo(Set(TEMP, v), Mov(dst, TEMP), s);
      RunOne(Set(dst, v), s);
    case InReg(_, _) =>
      LoadRuns(dst, SavedOffset(saved, Home(a)), s);
      RunOne(Mov(dst, Home(a)), s);
    case InFrame(off, _) =>
      LoadRuns(dst, off + 4 * |saved|, s);
  }

  /** Stack arguments: only the word and the scratch register change. */
  lemma StackStepRuns(s0: State, s: State, a: Arg, w: nat, before: seq<bool>, useFp: bool, saved: seq<Reg>, frame: int)
    requires Passing(s0, s, before, saved) && ArgOk(a) && (useFp ==> a.isFp) && (a.isFp && !useFp ==> Fps(before) == 0)
    requires ClashSaved(a, before, useFp, saved) && CallerPlace(before, useFp) == OnStack(w)
    ensures var s' := Run(StackStep(a, w, before, useFp, saved, frame), s);
      var at := s.sp + (4 * w - frame);
      s'.sp == s.sp && Load(s', at) == Given(s0, a, before, useFp, frame) &&
          (forall r :: r != TEMP ==> Val(s', r) == Val(s, r)) && forall b :: b != at ==> Load(s', b) == Load(s, b)
  {
    hide Clashes, SavedOffset, CallerPlace, Passing, Run, LoadCode, StoreCode;
    SourceIntact(s0, s, a, before, useFp, saved);
    var off := 4 * w - frame;
    var store := StoreCode(TEMP, off);
    if a.InReg? && !Clashes(a, before, useFp) {
      StoreRuns(Home(a), off, s);
    } else {
      var fetch := if a.Const? then [Set(TEMP, a.val)] else if a.InReg? then LoadCode(TEMP,
          SavedOffset(saved, Home(a))) else LoadCode(TEMP, a.off + 4 * |saved|);
      var s1 := Run(fetch, s);
      match a {
        case Const(v, _) => RunOne(Set(TEMP, v), s);
        case InReg(_, _) => LoadRuns(TEMP, SavedOffset(saved, Home(a)), s);
        case InFrame(o, _) => LoadRuns(TEMP, o + 4 * |saved|, s);
      }
      RunConcat(fetch, store, s);
      StoreRuns(TEMP, off, s1);
      SameMemLoads(s, s1);
    }
  }

  lemma SameMemLoads(s: State, s1: State)
    requires s1.mem == s.mem
    ensures forall b :: Load(s1, b) == Load(s, b)
  {
  }

  /** The place of an earlier argument is one that later arguments do not use. */
  lemma {:induction false} PlaceTaken(u: seq<bool>, i: nat, n: nat)
    requires i < n <= |u|
    ensures match CallerPlace(u[..i], u[i]) {
      case InInt(k) => k < n - Fps(u[..n]) && k < 4
      case InFp(k) => k < Fps(u[..n]) && k < 16
      case OnStack(w) => w < StackWords(u[..n]) }
    decreases n
  {
    assert u[..n][..n - 1] == u[..n - 1];
    FpsBound(u[..n - 1]);
    if i < n - 1 {
      PlaceTaken(u, i, n - 1);
    }
  }

  /** Nothing that the arguments before use changes. */
  ghost predicate Keeps(s: State, s': State, before: seq<bool>, frame: int) {
    && s'.sp == s.sp
    && (forall k: nat :: k < |before| - Fps(before) && k < 4 ==> Val(s', R(k)) == Val(s, R(k)))
    && (forall k: nat :: k < Fps(before) && k < 16 ==> Val(s', S(k)) == Val(s, S(k)))
    && (forall w: nat :: w < StackWords(before) ==> Load(s', s.sp + 4 * w - frame) == Load(s, s.sp + 4 * w - frame))
  }

  ghost predicate StepGood(s0: State, s: State, s': State, a: Arg, before: seq<bool>, useFp: bool, saved: seq<Reg>,
      frame: int) {
    && Passing(s0, s', before + [useFp], saved) && Keeps(s, s', before, frame)
    && Delivered(s', CallerPlace(before, useFp), Given(s0, a, before, useFp, frame), frame)
  }

  lemma StackPasses(s0: State, s: State, a: Arg, before: seq<bool>, useFp: bool, saved: seq<Reg>, frame: int)
    requires Passing(s0, s, before, saved) && ArgOk(a) && (useFp ==> a.isFp) && (a.isFp && !useFp ==> Fps(before) == 0)
    requires ClashSaved(a, before, useFp, saved) && 4 * StackWords(before + [useFp]) <= frame
    requires CallerPlace(before, useFp).OnStack?
    ensures StepGood(s0, s, Run(ArgStep(a, before, useFp, saved, frame), s), a, before, useFp, saved, frame)
  {
    hide SavedImage, Holds, SameAbove, ClashSaved, ArgVal, StackStep, Given;
    var w := CallerPlace(before, useFp).k;
    assert (before + [useFp])[..|before|] == before;
    FpsBound(before);
    StackStepRuns(s0, s, a, w, before, useFp, saved, frame);
    StackKeeps(s0, s, Run(StackStep(a, w, before, useFp, saved, frame), s), before, saved, s.sp + (4 * w - frame));
  }

  lemma RegPasses(s0: State, s: State, a: Arg, dst: Reg, before: seq<bool>, useFp: bool, saved: seq<Reg>, frame: int)
    requires Passing(s0, s, before, saved) && ArgOk(a) && (useFp ==> a.isFp) && (a.isFp && !useFp ==> Fps(before) == 0)
    requires ClashSaved(a, before, useFp, saved)
    requires match CallerPlace(before, useFp)
             case InInt(k) => dst == R(k)
             case InFp(k) => dst == S(k)
             case OnStack(_) => false
    ensures StepGood(s0, s, Run(ArgStep(a, before, useFp, saved, frame), s), a, before, useFp, saved, frame)
  {
    hide SavedImage, Holds, SameAbove, ClashSaved, ArgVal, RegStep, StackWords;
    assert (before + [useFp])[..|before|] == before;
    FpsBound(before);
    RegStepRuns(s0, s, a, dst, before, useFp, saved);
    var s' := Run(RegStep(a, dst, before, useFp, saved), s);
    RegKeeps(s0, s, s', before, saved);
    forall w: nat ensures Load(s', s.sp + 4 * w - frame) == Load(s, s.sp + 4 * w - frame) { }
  }

  lemma StepPasses(s0: State, s: State, a: Arg, before: seq<bool>, useFp: bool, saved: seq<Reg>, frame: int)
    requires Passing(s0, s, before, saved) && ArgOk(a) && (useFp ==> a.isFp) && (a.isFp && !useFp ==> Fps(before) == 0)
    requires ClashSaved(a, before, useFp, saved) && 4 * StackWords(before + [useFp]) <= frame
    ensures StepGood(s0, s, Run(ArgStep(a, before, useFp, saved, frame), s), a, before, useFp, saved, frame)
  {
    hide Passing, ClashSaved, CallerPlace, StackWords, StepGood, ArgStep, Run;
    match CallerPlace(before, useFp) {
      case OnStack(_) => StackPasses(s0, s, a, before, useFp, saved, frame);
      case InInt(k) => RegPasses(s0, s, a, R(k), before, useFp, saved, frame);
      case InFp(k) => RegPasses(s0, s, a, S(k), before, useFp, saved, frame);
    }
  }

  /** One more argument is delivered and none of the earlier ones is disturbed. */
  lemma StepDelivers(s0: State, s: State, args: seq<Arg>, n: nat, isCast: bool, saved: seq<Reg>, frame: int)
    requires n < |args| && ArgOk(args[n])
    requires var u := UsesFp(args, isCast);
      Passing(s0, s, u[..n], saved) && ClashSaved(args[n], u[..n], u[n], saved) && 4 * StackWords(u[..n + 1]) <= frame
    requires AllGiven(s0, s, args, n, isCast, frame)
    ensures var u := UsesFp(args, isCast);
      var s' := Run(ArgStep(args[n], u[..n], u[n], saved, frame), s);
      Passing(s0, s', u[..n + 1], saved) && AllGiven(s0, s', args, n + 1, isCast, frame)
  {
    hide Passing, ClashSaved, Given, ArgStep, StackWords, Run, Delivered, Keeps, CallerPlace, Fps;
    var u := UsesFp(args, isCast);
    var before := u[..n];
    assert u[..n + 1] == before + [u[n]];
    if isCast { NoFps(before); }
    var s' := Run(ArgStep(args[n], before, u[n], saved, frame), s);
    StepPasses(s0, s, args[n], before, u[n], saved, frame);
    forall i | 0 <= i < n + 1
      ensures Delivered(s', CallerPlace(u[..i], u[i]), GivenAt(s0, args, i, isCast, frame), frame)
    {
      if i < n {
        assert Delivered(s, CallerPlace(u[..i], u[i]), GivenAt(s0, args, i, isCast, frame), frame);
        PlaceTaken(u, i, n);
        StaysDelivered(s, s', before, CallerPlace(u[..i], u[i]), GivenAt(s0, args, i, isCast, frame), frame);
      }
    }
  }

  lemma StaysDelivered(s: State, s': State, before: seq<bool>, p: Passed, v: int, frame: int)
    requires Keeps(s, s', before, frame) && Delivered(s, p, v, frame)
    requires match p {
      case InInt(k) => k < |before| - Fps(before) && k < 4
      case InFp(k) => k < Fps(before) && k < 16
      case OnStack(w) => w < StackWords(before) }
    ensures Delivered(s', p, v, frame)
  {
  }

  lemma {:induction false} NoFps(before: seq<bool>)
    requires forall i :: 0 <= i < |before| ==> !before[i]
    ensures Fps(before) == 0
    decreases |before|
  {
    if before != [] { NoFps(before[..|before| - 1]); }
  }

  lemma RegKeeps(s0: State, s: State, s': State, before: seq<bool>, saved: seq<Reg>)
    requires Passing(s0, s, before, saved) && s'.sp == s.sp && s'.mem == s.mem
    ensures Holds(s', s'.sp, SavedImage(saved), s0) && SameAbove(s0, s', s0.sp)
  {
    HoldsMem(s, s', s.sp, SavedImage(saved), s0);
    forall b | b >= s0.sp ensures Load(s', b) == Load(s0, b) { assert Load(s, b) == Load(s0, b); }
  }

  lemma StackKeeps(s0: State, s: State, s': State, before: seq<bool>, saved: seq<Reg>, at: int)
    requires Passing(s0, s, before, saved) && s'.sp == s.sp && at < s.sp
    requires forall b :: b != at ==> Load(s', b) == Load(s, b)
    ensures Holds(s', s'.sp, SavedImage(saved), s0) && SameAbove(s0, s', s0.sp)
  {
    forall i | 0 <= i < |SavedImage(saved)| ensures Load(s', s'.sp + 4 * i) == Val(s0, SavedImage(saved)[i]) {
      assert Load(s, s.sp + 4 * i) == Val(s0, SavedImage(saved)[i]);
    }
  }

  lemma UsesPrefix(args: seq<Arg>, isCast: bool, n: nat)
    requires n <= |args|
    ensures UsesFp(args[..n], isCast) == UsesFp(args, isCast)[..n]
  {
  }

  lemma {:induction false} WordsGrow(u: seq<bool>, n: nat)
    requires n <= |u|
    ensures StackWords(u[..n]) <= StackWords(u)
    decreases |u| - n
  {
    if n < |u| {
      assert u[..n + 1][..n] == u[..n];
      FpsBound(u[..n]);
      WordsGrow(u, n + 1);
    } else {
      assert u[..n] == u;
    }
  }

  lemma ArgsBegin(s0: State, args: seq<Arg>, isCast: bool, saved: seq<Reg>, frame: int)
    ensures ArgCode([], isCast, saved, frame) == []
    ensures var s1 := Run(PushCode(saved), s0); Passing(s0, s1, [], saved) && AllGiven(s0, s1, args, 0, isCast, frame)
  {
    PushSaves(saved, s0);
  }

  lemma CodeSplits(args: seq<Arg>, n: nat, isCast: bool, saved: seq<Reg>, frame: int)
    requires n < |args|
    ensures var u := UsesFp(args, isCast);
      ArgCode(args[..n + 1], isCast, saved, frame) == ArgCode(args[..n], isCast, saved, frame) + ArgStep(args[n],
          u[..n], u[n], saved, frame)
  {
    hide ArgStep;
    var some := args[..n + 1];
    assert some[..n] == args[..n];
    UsesPrefix(args, isCast, n + 1);
    assert UsesFp(args, isCast)[..n + 1][..n] == UsesFp(args, isCast)[..n];
  }

  /** After the first n arguments each has left what it gives, all read from the state before the call. */
  lemma {:induction false} ArgsGiven(s0: State, args: seq<Arg>, n: nat, isCast: bool, saved: seq<Reg>, frame: int)
    requires n <= |args| && (forall i :: 0 <= i < |args| ==> ArgOk(args[i]))
    requires ClashesSaved(args, isCast, saved) && 4 * StackWords(UsesFp(args, isCast)) <= frame
    ensures var s := Run(ArgCode(args[..n], isCast, saved, frame), Run(PushCode(saved), s0));
      Passing(s0, s, UsesFp(args, isCast)[..n], saved) && AllGiven(s0, s, args, n, isCast, frame)
    decreases n
  {
    hide PushCode, ArgStep, StackWords, ClashSaved, Passing, AllGiven, UsesFp, ArgCode;
    var u := UsesFp(args, isCast);
    var s1 := Run(PushCode(saved), s0);
    if n == 0 {
      ArgsBegin(s0, args, isCast, saved, frame);
      assert args[..0] == [] && u[..0] == [];
    } else {
      ArgsGiven(s0, args, n - 1, isCast, saved, frame);
      var s := Run(ArgCode(args[..n - 1], isCast, saved, frame), s1);
      WordsGrow(u, n);
      StepDelivers(s0, s, args, n - 1, isCast, saved, frame);
      CodeSplits(args, n - 1, isCast, saved, frame);
      RunConcat(ArgCode(args[..n - 1], isCast, saved, frame), ArgStep(args[n - 1], u[..n - 1], u[n - 1], saved, frame),
          s1);
    }
  }

  /** Passing the arguments acts like a parallel copy from the state before the call exactly when each lost argument
      happens to be the distance that takes its place. */
  lemma ArgsDelivered(s0: State, args: seq<Arg>, isCast: bool, saved: seq<Reg>, frame: int)
    requires (forall i :: 0 <= i < |args| ==> ArgOk(args[i])) && ClashesSaved(args, isCast, saved) &&
        4 * StackWords(UsesFp(args, isCast)) <= frame
    ensures var s := Run(ArgCode(args, isCast, saved, frame), Run(PushCode(saved), s0));
      && Passing(s0, s, UsesFp(args, isCast), saved)
      && (AllDelivered(s0, s, args, |args|, isCast, frame) <==> forall i :: 0 <= i < |args| ==>
          GivenAt(s0, args, i, isCast, frame) == ArgVal(s0, args[i]))
  {
    hide PushCode, StackWords, ClashSaved, Passing, UsesFp, ArgCode, Run, Given, CallerPlace;
    ArgsGiven(s0, args, |args|, isCast, saved, frame);
    assert args[..|args|] == args && UsesFp(args, isCast)[..|args|] == UsesFp(args, isCast);
  }

  /** All arguments are delivered from every state if and only if none is lost, up to a constant that is the distance
      itself. */
  lemma AlwaysDelivered(args: seq<Arg>, isCast: bool, saved: seq<Reg>, frame: int)
    requires (forall i :: 0 <= i < |args| ==> ArgOk(args[i])) && ClashesSaved(args, isCast, saved) &&
        4 * StackWords(UsesFp(args, isCast)) <= frame
    ensures (forall s0 :: AllDelivered(s0, Run(ArgCode(args, isCast, saved, frame), Run(PushCode(saved), s0)), args,
                          |args|, isCast, frame))
      <==> forall i :: 0 <= i < |args| ==> Passes(args, i, isCast, frame)
  {
    hide StackWords, ClashSaved, Passing, UsesFp, ArgCode, PushCode, Run, AllDelivered, GivenAt, Passes, ArgVal;
    if forall i :: 0 <= i < |args| ==> Passes(args, i, isCast, frame) {
      forall s0
        ensures AllDelivered(s0, Run(ArgCode(args, isCast, saved, frame), Run(PushCode(saved), s0)), args, |args|,
                isCast, frame)
      {
        forall i | 0 <= i < |args| ensures GivenAt(s0, args, i, isCast, frame) == ArgVal(s0,
            args[i]) { GivenAlways(args, i, isCast, frame); }
        ArgsDelivered(s0, args, isCast, saved, frame);
      }
    } else {
      var i :| 0 <= i < |args| && !Passes(args, i, isCast, frame);
      GivenAlways(args, i, isCast, frame);
      var s0 :| GivenAt(s0, args, i, isCast, frame) != ArgVal(s0, args[i]);
      ArgsDelivered(s0, args, isCast, saved, frame);
      assert !AllDelivered(s0, Run(ArgCode(args, isCast, saved, frame), Run(PushCode(saved), s0)), args, |args|, isCast,
          frame);
    }
  }

  /** Argument i is not lost, or it is a constant equal to the distance. */
  predicate Passes(args: seq<Arg>, i: nat, isCast: bool, frame: int)
    requires i < |args|
  {
    var u := UsesFp(args, isCast);
    Lost(args[i], u[..i], u[i], frame) ==> args[i].Const? && args[i].val == 4 * CallerPlace(u[..i], u[i]).k - frame
  }

  lemma GivenAlways(args: seq<Arg>, i: nat, isCast: bool, frame: int)
    requires i < |args|
    ensures Passes(args, i, isCast, frame) <==> forall s0 :: GivenAt(s0, args, i, isCast, frame) == ArgVal(s0, args[i])
  {
    hide UsesFp, CallerPlace, StoredFrom;
    var a, p := args[i], CallerPlace(UsesFp(args, isCast)[..i], UsesFp(args, isCast)[i]);
    if !Passes(args, i, isCast, frame) && !a.Const? {
      var v := 4 * p.k - frame + 1;
      var s0 := if a.InReg? then State(map[Home(a) := v], 0, map[]) else State(map[], 0, map[a.off := v]);
      assert ArgVal(s0, a) == v;
      assert GivenAt(s0, args, i, isCast, frame) != ArgVal(s0, a);
    } else if !Passes(args, i, isCast, frame) {
      var s0 := State(map[], 0, map[]);
      assert GivenAt(s0, args, i, isCast, frame) != ArgVal(s0, a);
    }
  }

  /** Where the emitter's assertion holds nothing is lost. */
  lemma StoresReach(args: seq<Arg>, i: nat, isCast: bool, frame: int)
    requires i < |args| && ArgOk(args[i])
    ensures var u := UsesFp(args, isCast); StoreOk(args[i], u[..i], u[i], frame) <==>
                                           !Lost(args[i], u[..i], u[i], frame)
  {
    hide Fps, StackWords;
  }

  /** What the emitter accepts is delivered from every state. */
  lemma AcceptedDelivers(args: seq<Arg>, isCast: bool, saved: seq<Reg>, frame: int)
    requires (forall i :: 0 <= i < |args| ==> ArgOk(args[i])) && ClashesSaved(args, isCast, saved) &&
        4 * StackWords(UsesFp(args, isCast)) <= frame
    requires StoresOk(args, isCast, frame)
    ensures forall s0 :: AllDelivered(s0, Run(ArgCode(args, isCast, saved, frame), Run(PushCode(saved), s0)), args,
                         |args|, isCast, frame)
  {
    hide StackWords, ClashSaved, UsesFp, ArgCode, PushCode, Run, AllDelivered, StoreOk, Lost;
    forall i | 0 <= i < |args| ensures Passes(args, i, isCast, frame) { StoresReach(args, i, isCast, frame); }
    AlwaysDelivered(args, isCast, saved, frame);
  }

  /** The number of registers in the runs after run i. */
  function RunsAfter(groups: seq<seq<Reg>>, i: nat): nat
    decreases |groups| - i
  {
    if i + 1 >= |groups| then 0 else |groups[i + 1]| + RunsAfter(groups, i + 1)
  }

  lemma {:induction false} RunsAfterPrefix(groups: seq<seq<Reg>>, i: nat)
    requires i + 1 < |groups|
    ensures RunsAfter(groups, i) == RunsAfter(groups[..|groups| - 1], i) + |groups[|groups| - 1]|
    decreases |groups| - i
  {
    var before := groups[..|groups| - 1];
    if i + 2 < |groups| {
      RunsAfterPrefix(groups, i + 1);
      assert before[i + 1] == groups[i + 1];
    }
  }

  /** A later run lies below an earlier one. */
  lemma {:induction false} ImageAt(groups: seq<seq<Reg>>, i: nat, m: nat)
    requires i < |groups| && m < |groups[i]|
    ensures RunsAfter(groups, i) + m < |Image(groups)| && Image(groups)[RunsAfter(groups, i) + m] == groups[i][m]
    decreases |groups|
  {
    var n := |groups| - 1;
    if i < n {
      ImageAt(groups[..n], i, m);
      RunsAfterPrefix(groups, i);
    }
  }

  lemma {:induction false} IndexIs(list: seq<Reg>, r: Reg, k: nat)
    requires NoRepeats(list) && k < |list| && list[k] == r
    ensures IndexOf(list, r) == k
    decreases k
  {
    if k > 0 {
      assert list[0] != r;
      NoRepeatsParts(list[..1], list[1..]);
      assert list == list[..1] + list[1..];
      IndexIs(list[1..], r, k - 1);
    }
  }

  /** The offset of a single-precision register in run i at position m. */
  lemma FpOffset(saved: seq<Reg>, i: nat, m: nat)
    requires Sorted(saved)
    requires var groups := Groups(FpRegs(saved)); i < |groups| && m < |groups[i]|
    ensures var groups := Groups(FpRegs(saved)); SavedOffset(saved, groups[i][m]) == 4 * (RunsAfter(groups, i) + m)
  {
    var groups := Groups(FpRegs(saved));
    SortedParts(saved);
    SavedKeep(saved);
    ImageAt(groups, i, m);
    IndexIs(SavedImage(saved), groups[i][m], RunsAfter(groups, i) + m);
  }

  lemma SplitAt(list: seq<Reg>, a: seq<Reg>, b: seq<Reg>, i: nat)
    requires list == a + b && i < |list|
    ensures i < |a| ==> list[i] == a[i]
    ensures i >= |a| ==> list[i] == b[i - |a|]
  {
  }

  lemma FpsAreFp(saved: seq<Reg>)
    ensures forall j :: 0 <= j < |FpRegs(saved)| ==> FpRegs(saved)[j].S? && FpRegs(saved)[j] in saved
  {
    hide FpRegs, IntRegs;
    PartsOf(saved);
    forall j | 0 <= j < |FpRegs(saved)| ensures FpRegs(saved)[j].S? && FpRegs(saved)[j] in saved {
      assert FpRegs(saved)[j] in FpRegs(saved);
    }
  }

  /** The offset of integer register k of the sorted list: all single-precision registers lie below. */
  lemma IntOffset(saved: seq<Reg>, k: nat)
    requires Sorted(saved) && k < |saved| && saved[k].R?
    ensures SavedOffset(saved, saved[k]) == 4 * (k + |FpRegs(saved)|)
  {
    hide FpRegs, IntRegs, Groups, Sorted, NoRepeats;
    var ints, fps := IntRegs(saved), FpRegs(saved);
    var img := Image(Groups(fps));
    SortedParts(saved);
    SavedKeep(saved);
    ImageSize(Groups(fps), fps);
    FpsAreFp(saved);
    SplitAt(saved, ints, fps, k);
    SplitAt(SavedImage(saved), img, ints, k + |fps|);
    IndexIs(SavedImage(saved), saved[k], k + |fps|);
  }

  /** Thirty-two registers make at most sixteen runs. */
  lemma {:induction false} FewRuns(fs: seq<Reg>)
    requires (forall i :: 0 <= i < |fs| ==> fs[i].S? && fs[i].id < 32)
    requires forall i, j :: 0 <= i < j < |fs| ==> fs[i].id < fs[j].id
    ensures |Groups(fs)| <= 16 && (fs != [] ==> 2 * (|Groups(fs)| - 1) <= fs[|fs| - 1].id)
    decreases |fs|
  {
    if fs != [] { FewRuns(fs[..|fs| - 1]); }
  }

  const RUNS: nat := 16

  /** The table of runs, padded with empty ones. */
  ghost predicate TableOf(table: seq<seq<Reg>>, groups: seq<seq<Reg>>) {
    |table| == RUNS && |groups| <= RUNS && table[..|groups|] == groups &&
    forall i :: |groups| <= i < RUNS ==> table[i] == []
  }

  ghost predicate SavedOk(saved: seq<Reg>) {
    Sorted(saved) && forall r :: r in saved && r.S? ==> r.id < 32
  }

  lemma SavedRuns(saved: seq<Reg>)
    requires SavedOk(saved)
    ensures |Groups(FpRegs(saved))| <= RUNS
  {
    hide Groups, FpRegs, IntRegs;
    var fs, ints := FpRegs(saved), IntRegs(saved);
    SortedParts(saved);
    FpsAreFp(saved);
    forall i, j | 0 <= i < j < |fs| ensures fs[i].id < fs[j].id {
      SplitAt(saved, ints, fs, |ints| + i);
      SplitAt(saved, ints, fs, |ints| + j);
      assert Less(saved[|ints| + i], saved[|ints| + j]);
    }
    FewRuns(fs);
  }

  /** A register of the image belongs to some run. */
  lemma {:induction false} RunWith(groups: seq<seq<Reg>>, r: Reg) returns (i: nat, m: nat)
    requires r in Image(groups)
    ensures i < |groups| && m < |groups[i]| && groups[i][m] == r
    decreases |groups|
  {
    var n := |groups| - 1;
    if r in groups[n] {
      i := n;
      m :| 0 <= m < |groups[n]| && groups[n][m] == r;
    } else {
      i, m := RunWith(groups[..n], r);
    }
  }

  /** The callee finds the argument: integers in r4 to r7, floats in s16 to s31, the others at the bottom of its
      frame. */
  ghost predicate Arrived(s: State, p: Passed, v: int) {
    match p
    case InInt(k) => Val(s, R(k + 4)) == v
    case InFp(k) => Val(s, S(k + 16)) == v
    case OnStack(w) => Load(s, s.sp + 4 * w) == v
  }

  lemma EntryKeeps(entry: seq<Reg>, size: int, s: State)
    requires size >= 0
    ensures var s' := Run(EntryCode(entry, size), s);
      (forall r :: r != TEMP ==> Val(s', r) == Val(s, r)) && s'.sp == s.sp - 4 * |entry| - size &&
                   SameBelow(s, s', s.sp - 4 * |entry|)
  {
    hide MoveSpCode;
    var s1 := Run(PushCode(entry), s);
    PushSaves(entry, s);
    RunConcat(PushCode(entry), MoveSpCode(size, false), s);
    MoveSpRuns(size, false, s1);
    forall b | b < s.sp - 4 * |entry| ensures Load(Run(EntryCode(entry, size), s), b) == Load(s, b) {
      assert Load(s1, b) == Load(s, b);
    }
  }

  /** The entry of the callee brings a delivered argument to where its code expects it. */
  lemma EntryBrings(called: State, types: seq<bool>, n: nat, entry: seq<Reg>, size: int, v: int)
    requires n < |types| && 4 * StackWords(types) <= size
    requires Delivered(called, CalleePlace(types[..n], types[n]), v, 4 * |entry| + size)
    ensures Arrived(Run(ArgMoves(types), Run(EntryCode(entry, size), called)), CalleePlace(types[..n], types[n]), v)
  {
    hide ArgMoves, EntryCode, StackWords, CalleePlace, Run;
    var entered := Run(EntryCode(entry, size), called);
    EntryKeeps(entry, size, called);
    ArgumentsSettled(types, n, entered);
    IntPlaces(types[..n], types[n]);
    StackPlaceFits(types, n);
  }

  lemma IntPlaces(before: seq<bool>, isFp: bool)
    ensures CalleePlace(before, isFp).InInt? ==> CalleePlace(before, isFp).k < 4
  {
  }

  lemma StackPlaceFits(types: seq<bool>, n: nat)
    requires n < |types|
    ensures CalleePlace(types[..n], types[n]).OnStack? ==> CalleePlace(types[..n], types[n]).k < StackWords(types)
  {
    hide CalleePlace, StackWords, CallerPlace;
    PlacesAgree(types[..n], types[n]);
    PlaceTaken(types, n, |types|);
    assert types[..|types|] == types;
  }

  /** From the caller's registers and frame to where the callee's code expects its arguments: an argument arrives if
      and only if it is not lost, or happens to be the distance that takes its place. */
  lemma ArgumentsArrive(s0: State, args: seq<Arg>, n: nat, saved: seq<Reg>, entry: seq<Reg>, size: int)
    requires n < |args| && (forall i :: 0 <= i < |args| ==> ArgOk(args[i])) && ClashesSaved(args, false, saved)
    requires 4 * StackWords(UsesFp(args, false)) <= size
    ensures var types := UsesFp(args, false);
      var called := Run(ArgCode(args, false, saved, 4 * |entry| + size), Run(PushCode(saved), s0));
      var started := Run(ArgMoves(types), Run(EntryCode(entry, size), called));
      Arrived(started, CalleePlace(types[..n], types[n]), ArgVal(s0, args[n])) <==>
        (Lost(args[n], types[..n], types[n], 4 * |entry| + size) ==>
            ArgVal(s0, args[n]) == 4 * CallerPlace(types[..n], types[n]).k - (4 * |entry| + size))
  {
    hide Passing, ArgCode, PushCode, ArgMoves, EntryCode, CalleePlace, CallerPlace, ArgVal, StackWords, ClashesSaved,
        Run, Delivered, StoredFrom, Far;
    var types := UsesFp(args, false);
    var frame := 4 * |entry| + size;
    var called := Run(ArgCode(args, false, saved, frame), Run(PushCode(saved), s0));
    ArgsGiven(s0, args, |args|, false, saved, frame);
    assert args[..|args|] == args;
    PlacesAgree(types[..n], types[n]);
    EntryBrings(called, types, n, entry, size, GivenAt(s0, args, n, false, frame));
  }

  /** Five integers for a function with an array of 1024 words: the constant in fifth place does not arrive, and the
      emitter's assertion fails. */
  lemma FarArgument(s0: State)
    ensures var args := [Const(1, false), Const(2, false), Const(3, false), Const(4, false), Const(5, false)];
      var entry, size := [R(12), LR], AlignedSize(4 + 16 + 4 * 1024, 8);
      var types := UsesFp(args, false);
      var called := Run(ArgCode(args, false, [], 4 * |entry| + size), Run(PushCode([]), s0));
      var started := Run(ArgMoves(types), Run(EntryCode(entry, size), called));
      && CalleePlace(types[..4], types[4]) == OnStack(0) && !Arrived(started, OnStack(0), 5)
      && !StoresOk(args, false, 4 * |entry| + size)
  {
    hide ArgCode, PushCode, ArgMoves, EntryCode, Run, Arrived;
    var args := [Const(1, false), Const(2, false), Const(3, false), Const(4, false), Const(5, false)];
    var entry, size := [R(12), LR], AlignedSize(4 + 16 + 4 * 1024, 8);
    var types := UsesFp(args, false);
    NoFps(types);
    NoFps(types[..4]);
    PlacesAgree(types[..4], types[4]);
    ArgumentsArrive(s0, args, 4, [], entry, size);
    assert !StoreOk(args[4], types[..4], types[4], 4 * |entry| + size);
  }

  /** An argument before has been put into this register. */
  ghost predicate Overwritten(before: seq<bool>, r: Reg) {
    exists i :: 0 <= i < |before| && Into(CallerPlace(before[..i], before[i]), r)
  }

  ghost predicate Into(p: Passed, r: Reg) {
    match p
    case InInt(k) => r == R(k)
    case InFp(k) => r == S(k)
    case OnStack(_) => false
  }

  lemma OverwrittenStep(before: seq<bool>, isFp: bool, r: Reg)
    ensures Overwritten(before + [isFp], r) <==> Overwritten(before, r) || Into(CallerPlace(before, isFp), r)
  {
    hide Into, CallerPlace;
    var u, n := before + [isFp], |before|;
    assert u[..n] == before && u[n] == isFp;
    assert forall i :: 0 <= i < n ==> u[..i] == before[..i] && u[i] == before[i];
    if Overwritten(before, r) {
      var i :| 0 <= i < |before| && Into(CallerPlace(before[..i], before[i]), r);
      assert Into(CallerPlace(u[..i], u[i]), r);
    }
  }

  /** The registers written are the first ones of each kind. */
  lemma {:induction false} OverwrittenIs(before: seq<bool>, r: Reg)
    ensures Overwritten(before, r) <==>
              match r
              case R(id) => id < 4 && id < |before| - Fps(before)
              case S(id) => id < 16 && id < Fps(before)
    decreases |before|
  {
    hide Overwritten;
    FpsBound(before);
    if before == [] {
      NoneOverwritten(r);
    } else {
      var n := |before| - 1;
      assert before[..n] + [before[n]] == before;
      FpsBound(before[..n]);
      OverwrittenIs(before[..n], r);
      OverwrittenStep(before[..n], before[n], r);
    }
  }

  lemma NoneOverwritten(r: Reg)
    ensures !Overwritten([], r)
  {
  }

  /** A clash is claimed exactly for an argument whose register an earlier one has overwritten. For a float that a
      conversion helper takes in an integer register it is claimed from the fifth argument on, although nothing has been
      written to the float registers. */
  lemma ClashExact(a: Arg, before: seq<bool>, useFp: bool)
    ensures useFp == a.isFp ==> (Clashes(a, before, useFp) <==> a.InReg? && Overwritten(before, Home(a)))
    ensures a.isFp && !useFp && Fps(before) == 0 ==>
              (Clashes(a, before, useFp) <==> a.InReg? && |before| >= 4 && a.id < 16) &&
              (a.InReg? ==> !Overwritten(before, Home(a)))
  {
    hide Overwritten;
    FpsBound(before);
    if a.InReg? { OverwrittenIs(before, Home(a)); }
  }

  /** When the argument is accepted: its register, if overwritten, has been saved, and a store of register number 11
      reaches the argument's word. */
  ghost predicate Accepts(a: Arg, before: seq<bool>, useFp: bool, saved: seq<Reg>, frame: int) {
    var clash := a.InReg? && if useFp == a.isFp then Overwritten(before, Home(a)) else |before| >= 4 && a.id < 16;
    && (clash ==> Home(a) in saved)
    && match CallerPlace(before, useFp)
       case OnStack(w) =>
         var off := 4 * w - frame;
         if a.InReg? && !clash then a.id == 11 ==> if a.isFp then -255 <= off <= 255 else -4095 <= off <= 4095
         else -4095 <= off <= 4095
       case _ => true
  }

  lemma AcceptsIs(a: Arg, before: seq<bool>, useFp: bool, saved: seq<Reg>, frame: int)
    requires (useFp ==> a.isFp) && (a.isFp && !useFp ==> Fps(before) == 0)
    ensures Accepts(a, before, useFp, saved, frame) <==>
              ClashSaved(a, before, useFp, saved) && StoreOk(a, before, useFp, frame)
  {
    hide Overwritten, Clashes, CallerPlace;
    ClashExact(a, before, useFp);
  }

  lemma AllAccepted(args: seq<Arg>, isCast: bool, saved: seq<Reg>, frame: int)
    ensures (forall i :: 0 <= i < |args| ==>
                Accepts(args[i], UsesFp(args, isCast)[..i], UsesFp(args, isCast)[i], saved, frame)) <==>
            ClashesSaved(args, isCast, saved) && StoresOk(args, isCast, frame)
  {
    hide Accepts, ClashSaved, StoreOk;
    var u := UsesFp(args, isCast);
    forall i | 0 <= i < |args|
      ensures Accepts(args[i], u[..i], u[i], saved, frame) <==>
                ClashSaved(args[i], u[..i], u[i], saved) && StoreOk(args[i], u[..i], u[i], frame)
    {
      if isCast { NoFps(u[..i]); }
      AcceptsIs(args[i], u[..i], u[i], saved, frame);
    }
  }

  /** The offset of a load or store fits into the instruction, and numbers are loaded into integer registers. */
  predicate Encodes(i: Instr) {
    match i
    case Ldr(r, off) => if r.R? then -4095 <= off <= 4095 else -255 <= off <= 255
    case Str(r, off) => if r.R? then -4095 <= off <= 4095 else -255 <= off <= 255
    case Set(r, _) => r.R?
    case _ => true
  }

  /** Every instruction emitted for arguments can be encoded. */
  lemma {:induction false} ArgCodeEncodes(args: seq<Arg>, isCast: bool, saved: seq<Reg>, frame: int)
    ensures forall i :: i in ArgCode(args, isCast, saved, frame) ==> Encodes(i)
    decreases |args|
  {
    hide ArgStep, Encodes;
    if args != [] {
      var n := |args| - 1;
      var u := UsesFp(args, isCast);
      ArgCodeEncodes(args[..n], isCast, saved, frame);
      ArgStepEncodes(args[n], u[..n], u[n], saved, frame);
    }
  }

  lemma ArgStepEncodes(a: Arg, before: seq<bool>, useFp: bool, saved: seq<Reg>, frame: int)
    requires useFp ==> a.isFp
    ensures forall i :: i in ArgStep(a, before, useFp, saved, frame) ==> Encodes(i)
  {
    hide Clashes, SavedOffset, StackWords, Fps;
  }
}
