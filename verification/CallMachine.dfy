/** Registers, a stack and the instructions that function calls use. */
module CallMachine {
  /** An integer register or a single-precision register. */
  datatype Reg = R(id: nat) | S(id: nat)

  const TEMP: Reg := R(11)
  const LR: Reg := R(14)
  const PC: Reg := R(15)

  /** Memory holds words at byte addresses. */
  datatype State = State(regs: map<Reg, int>, sp: int, mem: map<int, int>)

  /** Push and Pop stand for push/pop of integer registers and vpush/vpop of single-precision ones. Ldr and Str
      address relative to the stack pointer, by a number or (LdrBy, StrBy) by a register; LdrAt and StrAt take the
      address from a register, to which PlusSp adds the stack pointer. */
  datatype Instr = Push(rs: seq<Reg>)
                 | Pop(rs: seq<Reg>)
                 | Mov(dst: Reg, src: Reg)
                 | Set(dst: Reg, val: int)
                 | Ldr(dst: Reg, off: int)
                 | LdrBy(dst: Reg, dist: Reg)
                 | LdrAt(dst: Reg, base: Reg)
                 | Str(src: Reg, off: int)
                 | StrBy(src: Reg, dist: Reg)
                 | StrAt(src: Reg, base: Reg)
                 | PlusSp(dst: Reg)
                 | AddSp(bytes: int)
                 | AddSpBy(dist: Reg)
                 | SubSpBy(dist: Reg)

  function Val(s: State, r: Reg): int {
    if r in s.regs then s.regs[r] else 0
  }

  function Load(s: State, a: int): int {
    if a in s.mem then s.mem[a] else 0
  }

  /** The registers of a push go to ascending addresses in the order of the list. */
  function StoreAll(s: State, rs: seq<Reg>, a: int): map<int, int> {
    if rs == [] then s.mem
    else StoreAll(s, rs[..|rs| - 1], a)[a + 4 * (|rs| - 1) := Val(s, rs[|rs| - 1])]
  }

  function LoadAll(s: State, rs: seq<Reg>, a: int): map<Reg, int> {
    if rs == [] then s.regs
    else LoadAll(s, rs[..|rs| - 1], a)[rs[|rs| - 1] := Load(s, a + 4 * (|rs| - 1))]
  }

  function Step(i: Instr, s: State): State {
    match i
    case Push(rs) => State(s.regs, s.sp - 4 * |rs|, StoreAll(s, rs, s.sp - 4 * |rs|))
    case Pop(rs) => State(LoadAll(s, rs, s.sp), s.sp + 4 * |rs|, s.mem)
    case Mov(d, r) => s.(regs := s.regs[d := Val(s, r)])
    case Set(d, v) => s.(regs := s.regs[d := v])
    case Ldr(d, off) => s.(regs := s.regs[d := Load(s, s.sp + off)])
    case LdrBy(d, x) => s.(regs := s.regs[d := Load(s, s.sp + Val(s, x))])
    case LdrAt(d, x) => s.(regs := s.regs[d := Load(s, Val(s, x))])
    case Str(r, off) => s.(mem := s.mem[s.sp + off := Val(s, r)])
    case StrBy(r, x) => s.(mem := s.mem[s.sp + Val(s, x) := Val(s, r)])
    case StrAt(r, x) => s.(mem := s.mem[Val(s, x) := Val(s, r)])
    case PlusSp(d) => s.(regs := s.regs[d := Val(s, d) + s.sp])
    case AddSp(n) => s.(sp := s.sp + n)
    case AddSpBy(x) => s.(sp := s.sp + Val(s, x))
    case SubSpBy(x) => s.(sp := s.sp - Val(s, x))
  }

  function Run(code: seq<Instr>, s: State): State {
    if code == [] then s else Run(code[1..], Step(code[0], s))
  }

  lemma {:induction false} RunConcat(a: seq<Instr>, b: seq<Instr>, s: State)
    ensures Run(a + b, s) == Run(b, Run(a, s))
    decreases a
  {
    if a == [] {
      assert a + b == b;
    } else {
      assert (a + b)[1..] == a[1..] + b;
      RunConcat(a[1..], b, Step(a[0], s));
    }
  }

  lemma RunOne(i: Instr, s: State)
    ensures Run([i], s) == Step(i, s)
  {
    assert [i][1..] == [];
  }

  lemma RunTwo(i: Instr, j: Instr, s: State)
    ensures Run([i, j], s) == Step(j, Step(i, s))
  {
    RunOne(j, Step(i, s));
    assert [i, j][1..] == [j];
  }

  lemma RunThree(i: Instr, j: Instr, k: Instr, s: State)
    ensures Run([i, j, k], s) == Step(k, Step(j, Step(i, s)))
  {
    RunTwo(j, k, Step(i, s));
    assert [i, j, k][1..] == [j, k];
  }

  // Distances that an instruction cannot hold go through the scratch register.

  const IMM_12_MAX := 4095
  const IMM_8_MAX := 255

  /** The offset does not fit into a load or store of this register. */
  predicate Far(r: Reg, off: int) {
    var most := if r.R? then IMM_12_MAX else IMM_8_MAX;
    off > most || off < -most
  }

  function LoadCode(dst: Reg, off: int): seq<Instr> {
    if dst.R? && Far(dst, off) then [Set(TEMP, off), LdrBy(dst, TEMP)]
    else if dst.S? && Far(dst, off) then [Set(TEMP, off), PlusSp(TEMP), LdrAt(dst, TEMP)]
    else [Ldr(dst, off)]
  }

  function StoreCode(src: Reg, off: int): seq<Instr> {
    if src.R? && Far(src, off) then [Set(TEMP, off), StrBy(src, TEMP)]
    else if src.S? && Far(src, off) then [Set(TEMP, off), PlusSp(TEMP), StrAt(src, TEMP)]
    else [Str(src, off)]
  }

  /** The assertion in the emitter of stores holds; it compares the numbers of registers only. */
  predicate StoreAllowed(src: Reg, off: int) {
    Far(src, off) ==> src.id != TEMP.id
  }

  /** Adding to the stack pointer, or subtracting from it. */
  function MoveSpCode(bytes: int, up: bool): seq<Instr> {
    if bytes == 0 then []
    else if 0 <= bytes <= IMM_8_MAX then [AddSp(if up then bytes else -bytes)]
    else [Set(TEMP, bytes), if up then AddSpBy(TEMP) else SubSpBy(TEMP)]
  }

  /** A load reaches its word at any distance. */
  lemma LoadRuns(dst: Reg, off: int, s: State)
    ensures var s' := Run(LoadCode(dst, off), s);
      s'.sp == s.sp && s'.mem == s.mem && Val(s', dst) == Load(s, s.sp + off) && forall r :: r != dst && r != TEMP ==>
          Val(s', r) == Val(s, r)
  {
    hide Run;
    RunOne(Ldr(dst, off), s);
    RunTwo(Set(TEMP, off), LdrBy(dst, TEMP), s);
    RunThree(Set(TEMP, off), PlusSp(TEMP), LdrAt(dst, TEMP), s);
  }

  /** A store reaches its word at any distance, but a far store of the scratch register stores the distance. */
  lemma StoreRuns(src: Reg, off: int, s: State)
    ensures var s' := Run(StoreCode(src, off), s);
      && s'.sp == s.sp && Load(s', s.sp + off) == (if src == TEMP && Far(src, off) then off else Val(s, src))
      && (forall b :: b != s.sp + off ==> Load(s', b) == Load(s, b)) &&
         forall r :: r != TEMP ==> Val(s', r) == Val(s, r)
  {
    hide Run;
    if !Far(src, off) {
      RunOne(Str(src, off), s);
    } else if src.R? {
      RunTwo(Set(TEMP, off), StrBy(src, TEMP), s);
    } else {
      RunThree(Set(TEMP, off), PlusSp(TEMP), StrAt(src, TEMP), s);
    }
  }

  /** The stack pointer moves by any number of bytes, with an immediate operand only up to 255. */
  lemma MoveSpRuns(bytes: int, up: bool, s: State)
    ensures var s' := Run(MoveSpCode(bytes, up), s);
      && s'.sp == s.sp + (if up then bytes else -bytes) && s'.mem == s.mem
      && forall r :: r != TEMP ==> Val(s', r) == Val(s, r)
    ensures MoveSpCode(bytes, up) == [] <==> bytes == 0
    ensures forall i :: i in MoveSpCode(bytes, up) && i.AddSp? ==> -255 <= i.bytes <= 255
  {
    RunOne(AddSp(if up then bytes else -bytes), s);
    RunTwo(Set(TEMP, bytes), if up then AddSpBy(TEMP) else SubSpBy(TEMP), s);
  }

  lemma {:induction false} StoreAllAt(s: State, rs: seq<Reg>, a: int, b: int)
    ensures var m := StoreAll(s, rs, a);
      && (forall i :: 0 <= i < |rs| && b == a + 4 * i ==> b in m && m[b] == Val(s, rs[i]))
      && (b < a || b >= a + 4 * |rs| ==> Load(s.(mem := m), b) == Load(s, b))
    decreases |rs|
  {
    if rs != [] { StoreAllAt(s, rs[..|rs| - 1], a, b); }
  }

  lemma {:induction false} LoadAllAt(s: State, rs: seq<Reg>, a: int, r: Reg)
    requires forall i, j :: 0 <= i < j < |rs| ==> rs[i] != rs[j]
    ensures var m := LoadAll(s, rs, a);
      && (forall i :: 0 <= i < |rs| && rs[i] == r ==> r in m && m[r] == Load(s, a + 4 * i))
      && (r !in rs ==> Val(s.(regs := m), r) == Val(s, r))
    decreases |rs|
  {
    if rs != [] {
      var before := rs[..|rs| - 1];
      LoadAllAt(s, before, a, r);
      assert rs == before + [rs[|rs| - 1]];
    }
  }
}
