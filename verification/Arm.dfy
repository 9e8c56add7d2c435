/** The ARM instructions that constant arithmetic is lowered to, on 32-bit registers. */
module Arm {
  import opened Arith

  type Reg = nat
  /** Every register holds a word, read as a signed number. */
  type Regs = map<Reg, int>

  datatype Instr = Mov(dst: Reg, src: Reg)
                 | MovImm(dst: Reg, imm: int)
                 | Mvn(dst: Reg, imm: int)
                 | Movw(dst: Reg, imm: int)
                 | Movt(dst: Reg, imm: int)
                 | Asr(dst: Reg, src: Reg, k: nat)
                 | Lsr(dst: Reg, src: Reg, k: nat)
                 | Add(dst: Reg, a: Reg, b: Reg)
                 | AddLsr(dst: Reg, a: Reg, b: Reg, k: nat)
                 | Smmul(dst: Reg, a: Reg, b: Reg)
                 | Smmla(dst: Reg, a: Reg, b: Reg, acc: Reg)
                 | Rsb(dst: Reg, src: Reg, imm: int)

  function Read(r: Regs, x: Reg): int {
    if x in r then r[x] else 0
  }

  /** The value an instruction computes. */
  function Value(i: Instr, r: Regs): int {
    match i
    case Mov(_, s) => Read(r, s)
    case MovImm(_, imm) => Wrap(imm)
    case Mvn(_, imm) => Wrap(-imm - 1)
    case Movw(_, imm) => Wrap(imm % 0x1_0000)
    case Movt(d, imm) => Wrap((imm % 0x1_0000) * 0x1_0000 + Unsigned(Read(r, d)) % 0x1_0000)
    case Asr(_, s, k) => Read(r, s) / Pow2(k)
    case Lsr(_, s, k) => Wrap(Unsigned(Read(r, s)) / Pow2(k))
    case Add(_, a, b) => Wrap(Read(r, a) + Read(r, b))
    case AddLsr(_, a, b, k) => Wrap(Read(r, a) + Unsigned(Read(r, b)) / Pow2(k))
    case Smmul(_, a, b) => Read(r, a) * Read(r, b) / WORD
    case Smmla(_, a, b, acc) => Wrap(Read(r, acc) + Read(r, a) * Read(r, b) / WORD)
    case Rsb(_, s, imm) => Wrap(imm - Read(r, s))
  }

  function Step(i: Instr, r: Regs): Regs {
    r[i.dst := Value(i, r)]
  }

  function Run(code: seq<Instr>, r: Regs): Regs {
    if code == [] then r else Run(code[1..], Step(code[0], r))
  }

  lemma {:induction false} RunConcat(a: seq<Instr>, b: seq<Instr>, r: Regs)
    ensures Run(a + b, r) == Run(b, Run(a, r))
    decreases a
  {
    if a == [] {
      assert a + b == b;
    } else {
      assert (a + b)[1..] == a[1..] + b;
      RunConcat(a[1..], b, Step(a[0], r));
    }
  }

  lemma RunOne(i: Instr, r: Regs)
    ensures Run([i], r) == Step(i, r)
  {
    assert [i][1..] == [];
  }
}
