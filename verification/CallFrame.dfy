/** Entering and leaving a function: saved registers, the frame, and where arguments are expected. */
module CallFrame {
  import opened CallMachine
  import opened PushPop

  /** The stack size of a function, padded so that the whole frame is a multiple of 16. */
  function AlignedSize(size: nat, saved: nat): (r: nat)
    ensures (r + saved) % 16 == 0 && size <= r < size + 16
  {
    if (size + saved) % 16 != 0 then size + 16 - (size + saved) % 16 else size
  }

  function EntryCode(saved: seq<Reg>, size: int): seq<Instr> {
    PushCode(saved) + MoveSpCode(size, false)
  }

  function ExitCode(saved: seq<Reg>, size: int): seq<Instr> {
    MoveSpCode(size, true) + PopCode(saved)
  }

  lemma {:induction false} IntsConcat(a: seq<Reg>, b: seq<Reg>)
    ensures IntRegs(a + b) == IntRegs(a) + IntRegs(b) && FpRegs(a + b) == FpRegs(a) + FpRegs(b)
    decreases b
  {
    if b == [] {
      assert a + b == a;
    } else {
      var n := |b| - 1;
      assert (a + b)[..|a + b| - 1] == a + b[..n];
      IntsConcat(a, b[..n]);
    }
  }

  lemma PartsOfThree(a: seq<Reg>, r: Reg, b: seq<Reg>)
    requires r.R?
    ensures IntRegs(a + [r] + b) == IntRegs(a) + [r] + IntRegs(b) && FpRegs(a + [r] + b) == FpRegs(a) + FpRegs(b)
  {
    IntsConcat(a + [r], b);
    IntsConcat(a, [r]);
    assert IntRegs([r]) == [r] && FpRegs([r]) == [] by { assert [r][..0] == []; }
    assert FpRegs(a) + [] == FpRegs(a);
  }

  /** The entry saves the return address with the other registers; the exit pops the same slot into pc. */
  lemma ReturnSlot(a: seq<Reg>, b: seq<Reg>, s: State, base: int, s0: State)
    requires Holds(s, base, SavedImage(a + [LR] + b), s0) && PC !in a + b
    ensures Holds(s, base, SavedImage(a + [PC] + b), s0.(regs := s0.regs[PC := Val(s0, LR)]))
  {
    var s1 := s0.(regs := s0.regs[PC := Val(s0, LR)]);
    PartsOfThree(a, LR, b);
    PartsOfThree(a, PC, b);
    var x, y := SavedImage(a + [LR] + b), SavedImage(a + [PC] + b);
    var img := Image(Groups(FpRegs(a) + FpRegs(b)));
    assert x == img + (IntRegs(a) + [LR] + IntRegs(b)) && y == img + (IntRegs(a) + [PC] + IntRegs(b));
    var p := |img| + |IntRegs(a)|;
    NotSaved(a, b);
    forall i | 0 <= i < |y| ensures Load(s, base + 4 * i) == Val(s1, y[i]) {
      assert Load(s, base + 4 * i) == Val(s0, x[i]);
      if i == p {
        assert x[i] == LR && y[i] == PC;
      } else {
        assert x[i] == y[i];
        assert y[i] in img || y[i] in IntRegs(a) || y[i] in IntRegs(b);
      }
    }
  }

  lemma NotSaved(a: seq<Reg>, b: seq<Reg>)
    requires PC !in a + b
    ensures PC !in Image(Groups(FpRegs(a) + FpRegs(b))) && PC !in IntRegs(a) && PC !in IntRegs(b)
  {
    PartsOf(a);
    PartsOf(b);
    ImageSize(Groups(FpRegs(a) + FpRegs(b)), FpRegs(a) + FpRegs(b));
    forall x | x in a || x in b ensures x in a + b { }
  }

  /** A function that keeps its frame returns with the stack pointer and all saved registers as they were, to the
      caller's address. */
  lemma ExitUndoesEntry(a: seq<Reg>, b: seq<Reg>, size: int, s0: State, s: State)
    requires Sorted(a + [LR] + b) && Sorted(a + [PC] + b) && PC !in a + b
    requires var s1 := Run(EntryCode(a + [LR] + b, size), s0); s.sp == s1.sp && SameAbove(s1, s, s1.sp + size)
    ensures var s' := Run(ExitCode(a + [PC] + b, size), s);
      s'.sp == s0.sp && Val(s', PC) == Val(s0, LR) &&
      (forall r :: r in a || r in b ==> Val(s', r) == Val(s0, r)) && SameAbove(s, s', s.sp)
  {
    hide Sorted, NoRepeats, SavedImage, PushCode, PopCode, Holds, MoveSpCode;
    var entry, exit := a + [LR] + b, a + [PC] + b;
    var s1 := Run(PushCode(entry), s0);
    PushSaves(entry, s0);
    RunConcat(PushCode(entry), MoveSpCode(size, false), s0);
    MoveSpRuns(size, false, s1);
    var s2 := Run(MoveSpCode(size, true), s);
    RunConcat(MoveSpCode(size, true), PopCode(exit), s);
    MoveSpRuns(size, true, s);
    AboveMem(Run(MoveSpCode(size, false), s1), s1, s, s2, s1.sp);
    HoldsStay(s1, s2, s1.sp, SavedImage(entry), s0);
    ReturnSlot(a, b, s2, s1.sp, s0);
    SortedParts(exit);
    var s3 := s0.(regs := s0.regs[PC := Val(s0, LR)]);
    PopUndoesPush(exit, s3, s2);
    forall r | r in a || r in b ensures r in exit && r != PC { assert r in a + b; }
    assert PC in exit;
  }

  lemma AboveMem(t: State, t1: State, s: State, s2: State, a: int)
    requires SameAbove(t, s, a) && t.mem == t1.mem && s.mem == s2.mem
    ensures SameAbove(t1, s2, a)
  {
    forall x | x >= a ensures Load(s2, x) == Load(t1, x) { assert Load(s, x) == Load(t, x); }
  }

  /** Where an argument is passed. */
  datatype Passed = InInt(k: nat) | InFp(k: nat) | OnStack(k: nat)

  function Fps(types: seq<bool>): nat {
    if types == [] then 0 else Fps(types[..|types| - 1]) + if types[|types| - 1] then 1 else 0
  }

  function Max(a: int, b: int): int {
    if a < b then b else a
  }

  function Min(a: int, b: int): int {
    if a < b then a else b
  }

  /** The caller's rule for argument number |before|: the first four integers and sixteen floats go in registers. */
  function CallerPlace(before: seq<bool>, isFp: bool): Passed {
    var f := Fps(before);
    var i := |before| - f;
    if isFp then if f <= 15 then InFp(f) else OnStack(StackWords(before))
    else if i <= 3 && i >= 0 then InInt(i) else OnStack(StackWords(before))
  }

  /** The number of words the caller has put on the stack for the arguments before. */
  function StackWords(before: seq<bool>): nat {
    var f := Fps(before);
    Max(f, 16) - 16 + Max(|before| - f, 4) - 4
  }

  /** The callee's counters after the arguments before: integers and floats in registers, words on the stack. */
  datatype Counters = Counters(ints: nat, fps: nat, words: nat)

  function CalleeCounters(before: seq<bool>): Counters {
    if before == [] then Counters(0, 0, 0)
    else
      var c := CalleeCounters(before[..|before| - 1]);
      var isFp := before[|before| - 1];
      if c.ints < 4 && !isFp then c.(ints := c.ints + 1)
      else if c.fps < 16 && isFp then c.(fps := c.fps + 1)
      else c.(words := c.words + 1)
  }

  function CalleePlace(before: seq<bool>, isFp: bool): Passed {
    var c := CalleeCounters(before);
    if c.ints < 4 && !isFp then InInt(c.ints)
    else if c.fps < 16 && isFp then InFp(c.fps)
    else OnStack(c.words)
  }

  lemma {:induction false} CountersAre(before: seq<bool>)
    ensures var c, f := CalleeCounters(before), Fps(before);
      f <= |before| && c.fps == Min(f, 16) && c.ints == Min(|before| - f, 4) && c.words == StackWords(before)
    decreases |before|
  {
    if before != [] { CountersAre(before[..|before| - 1]); }
  }

  /** Caller and callee agree on every argument, for any mix of integers and floats. */
  lemma PlacesAgree(before: seq<bool>, isFp: bool)
    ensures CallerPlace(before, isFp) == CalleePlace(before, isFp)
  {
    CountersAre(before);
  }

  /** The moves at the entry that bring register arguments to the registers they live in. */
  function ArgMoves(types: seq<bool>): seq<Instr> {
    if types == [] then []
    else
      var before := types[..|types| - 1];
      var c := MoveCounters(before);
      ArgMoves(before) +
      if types[|types| - 1] && c.1 < 16 then [Mov(TEMP, S(c.1)), Mov(S(c.1 + 16), TEMP)]
      else if c.0 < 4 then [Mov(R(c.0 + 4), R(c.0))]
      else []
  }

  function MoveCounters(types: seq<bool>): (c: (nat, nat))
    ensures c.0 <= 4 && c.1 <= 16
  {
    if types == [] then (0, 0)
    else
      var c := MoveCounters(types[..|types| - 1]);
      if types[|types| - 1] && c.1 < 16 then (c.0, c.1 + 1)
      else if c.0 < 4 then (c.0 + 1, c.1)
      else c
  }

  lemma {:induction false} MoveCountersAre(types: seq<bool>)
    ensures var f := Fps(types);
      f <= |types| && MoveCounters(types).1 == Min(f, 16) &&
          MoveCounters(types).0 == Min(|types| - f + Max(f - 16, 0), 4)
    decreases |types|
  {
    if types != [] { MoveCountersAre(types[..|types| - 1]); }
  }

  /** What a register holds after moving the first i integer and f float arguments. */
  ghost function MovedVal(s: State, i: nat, f: nat, r: Reg): int {
    match r
    case R(id) => if 4 <= id < 4 + i then Val(s, R(id - 4)) else Val(s, r)
    case S(id) => if 16 <= id < 16 + f then Val(s, S(id - 16)) else Val(s, r)
  }

  ghost predicate Moved(s: State, s': State, i: nat, f: nat) {
    s'.sp == s.sp && s'.mem == s.mem && forall r :: r != TEMP ==> Val(s', r) == MovedVal(s, i, f, r)
  }

  lemma {:induction false} MovesMove(types: seq<bool>, s: State)
    ensures var c := MoveCounters(types); Moved(s, Run(ArgMoves(types), s), c.0, c.1)
    decreases |types|
  {
    if types != [] {
      var n := |types| - 1;
      var before := types[..n];
      MovesMove(before, s);
      var c := MoveCounters(before);
      var s1 := Run(ArgMoves(before), s);
      if types[n] && c.1 < 16 {
        var i, j := Mov(TEMP, S(c.1)), Mov(S(c.1 + 16), TEMP);
        RunConcat(ArgMoves(before), [i, j], s);
        RunOne(j, Step(i, s1));
        assert [i, j][1..] == [j];
        MovedFp(s, s1, c.0, c.1);
      } else if c.0 < 4 {
        RunConcat(ArgMoves(before), [Mov(R(c.0 + 4), R(c.0))], s);
        RunOne(Mov(R(c.0 + 4), R(c.0)), s1);
        MovedInt(s, s1, c.0, c.1);
      } else {
        assert ArgMoves(types) == ArgMoves(before);
      }
    }
  }

  lemma MovedFp(s: State, s1: State, i: nat, f: nat)
    requires Moved(s, s1, i, f) && f < 16 && i <= 4
    ensures Moved(s, Step(Mov(S(f + 16), TEMP), Step(Mov(TEMP, S(f)), s1)), i, f + 1)
  {
    assert Val(s1, S(f)) == MovedVal(s, i, f, S(f)) == Val(s, S(f));
    var s' := Step(Mov(S(f + 16), TEMP), Step(Mov(TEMP, S(f)), s1));
    forall r | r != TEMP ensures Val(s', r) == MovedVal(s, i, f + 1, r) {
      assert Val(s1, r) == MovedVal(s, i, f, r);
    }
  }

  lemma MovedInt(s: State, s1: State, i: nat, f: nat)
    requires Moved(s, s1, i, f) && i < 4
    ensures Moved(s, Step(Mov(R(i + 4), R(i)), s1), i + 1, f)
  {
    assert Val(s1, R(i)) == MovedVal(s, i, f, R(i)) == Val(s, R(i));
    var s' := Step(Mov(R(i + 4), R(i)), s1);
    forall r | r != TEMP ensures Val(s', r) == MovedVal(s, i + 1, f, r) {
      assert Val(s1, r) == MovedVal(s, i, f, r);
    }
  }

  ghost predicate Settled(s: State, s': State, p: Passed) {
    match p
    case InInt(k) => Val(s', R(k + 4)) == Val(s, R(k))
    case InFp(k) => Val(s', S(k + 16)) == Val(s, S(k))
    case OnStack(_) => s'.mem == s.mem && s'.sp == s.sp
  }

  /** The registers in which the callee expects arguments hold them. */
  lemma ArgumentsSettled(types: seq<bool>, n: nat, s: State)
    requires n < |types|
    ensures Settled(s, Run(ArgMoves(types), s), CalleePlace(types[..n], types[n]))
  {
    hide MoveCounters, CalleeCounters, Fps, Run, ArgMoves;
    MovesMove(types, s);
    MoveCountersAre(types);
    CountersAre(types[..n]);
    FpsGrow(types, n);
  }

  lemma {:induction false} FpsGrow(types: seq<bool>, n: nat)
    requires n < |types|
    ensures Fps(types) >= Fps(types[..n]) + (if types[n] then 1 else 0)
    ensures |types| - Fps(types) >= n - Fps(types[..n]) + (if types[n] then 0 else 1)
    decreases |types|
  {
    if n < |types| - 1 {
      var before := types[..|types| - 1];
      FpsGrow(before, n);
      assert before[..n] == types[..n];
    }
  }

  /** The callee expects an argument in r after its entry. */
  ghost predicate Expected(types: seq<bool>, r: Reg) {
    match r
    case R(id) => 4 <= id < 4 + CalleeCounters(types).ints
    case S(id) => 16 <= id < 16 + CalleeCounters(types).fps
  }

  /** Whatever the registers hold, none but the scratch register is overwritten in which no argument is expected. */
  ghost predicate MovesOnlyArguments(types: seq<bool>) {
    forall s, r :: r != TEMP && !Expected(types, r) ==> Val(Run(ArgMoves(types), s), r) == Val(s, r)
  }

  /** The entry overwrites no other register exactly if there are at most sixteen floats or at least four integers. */
  lemma EntryOverwrites(types: seq<bool>)
    ensures MovesOnlyArguments(types) <==> Fps(types) <= 16 || |types| - Fps(types) >= 4
  {
    hide MovesOnlyArguments, MoveCounters, CalleeCounters, Fps;
    MoveCountersAre(types);
    CountersAre(types);
    if Fps(types) <= 16 || |types| - Fps(types) >= 4 {
      NothingElseMoves(types);
    } else {
      ExtraMove(types);
    }
  }

  lemma NothingElseMoves(types: seq<bool>)
    requires MoveCounters(types).0 == CalleeCounters(types).ints && MoveCounters(types).1 == CalleeCounters(types).fps
    ensures MovesOnlyArguments(types)
  {
    hide MoveCounters, CalleeCounters, ArgMoves, Run;
    forall s, r | r != TEMP && !Expected(types, r) ensures Val(Run(ArgMoves(types), s), r) == Val(s, r) {
      MovesMove(types, s);
    }
  }

  lemma ExtraMove(types: seq<bool>)
    requires CalleeCounters(types).ints < MoveCounters(types).0
    ensures !MovesOnlyArguments(types)
  {
    hide MoveCounters, CalleeCounters, ArgMoves, Run;
    var k := CalleeCounters(types).ints;
    var s := State(map[R(k) := 1], 0, map[]);
    MovesMove(types, s);
    var r := R(k + 4);
    assert MovedVal(s, MoveCounters(types).0, MoveCounters(types).1, r) == Val(s, R(k)) == 1;
    assert Val(Run(ArgMoves(types), s), r) != Val(s, r);
    assert r != TEMP && !Expected(types, r);
  }
}
