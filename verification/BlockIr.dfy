/** Straight-line SSA code on 32-bit words with observable effects. */
module BlockIr {
  import opened Arith

  datatype Value = Const(c: int) | Var(id: nat) | Global(id: nat)

  /** Gep carries the size that each index is multiplied with; Effect stands for loads, stores, calls and the like. */
  datatype Opcode = Add | Sub | Mul | Div | Rem | Shl | Ashr | Lshr | Mla | Gep(sizes: seq<int>) | Effect(tag: nat)

  datatype Instr = Instr(id: nat, op: Opcode, args: seq<Value>)

  datatype Event = Event(tag: nat, vals: seq<int>)

  /** The values of the instructions executed, the addresses of globals and the effects seen so far. */
  datatype State = State(env: map<nat, int>, globals: map<nat, int>, trace: seq<Event>)

  /** The result of an effect depends on all effects so far. */
  type Oracle = seq<Event> -> int

  function Get(s: State, id: nat): int {
    if id in s.env then s.env[id] else 0
  }

  function Eval(s: State, v: Value): int {
    match v
    case Const(c) => Wrap(c)
    case Var(id) => Get(s, id)
    case Global(id) => if id in s.globals then Wrap(s.globals[id]) else 0
  }

  function Evals(s: State, vs: seq<Value>): (r: seq<int>)
    ensures |r| == |vs| && forall i :: 0 <= i < |r| ==> r[i] == Eval(s, vs[i])
  {
    if vs == [] then [] else [Eval(s, vs[0])] + Evals(s, vs[1..])
  }

  /** Division on words; the result for a zero divisor is that of the ARM divide instruction. */
  function DivWord(a: int, b: int): int {
    if b == 0 then 0 else Wrap(TruncDiv(a, b))
  }

  function RemWord(a: int, b: int): int {
    if b == 0 then a else TruncRem(a, b)
  }

  /** An index times its size. */
  function Scaled(idx: int, size: int): int {
    idx * size
  }

  /** The sum of the indices, each times its size. */
  function IndexSum(idxs: seq<int>, sizes: seq<int>): int {
    if idxs == [] || |idxs| != |sizes| then 0
    else
      var n := |idxs| - 1;
      IndexSum(idxs[..n], sizes[..n]) + Scaled(idxs[n], sizes[n])
  }

  function ShiftOf(k: int): nat {
    if k < 0 then 0 else k
  }

  /** The value of an operation without effects. */
  function ValueOf(op: Opcode, v: seq<int>): int {
    if op.Gep? then (if v == [] then 0 else Wrap(v[0] + IndexSum(v[1..], op.sizes)))
    else if |v| == 2 then (
      match op
      case Add => Wrap(v[0] + v[1])
      case Sub => Wrap(v[0] - v[1])
      case Mul => Wrap(v[0] * v[1])
      case Div => DivWord(v[0], v[1])
      case Rem => RemWord(v[0], v[1])
      case Shl => Wrap(v[0] * Pow2(ShiftOf(v[1])))
      case Ashr => v[0] / Pow2(ShiftOf(v[1]))
      case Lshr => Wrap(Unsigned(v[0]) / Pow2(ShiftOf(v[1])))
      case _ => 0)
    else if op.Mla? && |v| == 3 then Wrap(v[0] * v[1] + v[2])
    else 0
  }

  function Step(o: Oracle, i: Instr, s: State): State {
    var vals := Evals(s, i.args);
    match i.op
    case Effect(tag) =>
      var t := s.trace + [Event(tag, vals)];
      s.(env := s.env[i.id := Wrap(o(t))], trace := t)
    case _ => s.(env := s.env[i.id := ValueOf(i.op, vals)])
  }

  function Run(o: Oracle, code: seq<Instr>, s: State): State {
    if code == [] then s else Run(o, code[1..], Step(o, code[0], s))
  }

  lemma {:induction false} RunConcat(o: Oracle, a: seq<Instr>, b: seq<Instr>, s: State)
    ensures Run(o, a + b, s) == Run(o, b, Run(o, a, s))
    decreases a
  {
    if a == [] {
      assert a + b == b;
    } else {
      assert (a + b)[1..] == a[1..] + b;
      RunConcat(o, a[1..], b, Step(o, a[0], s));
    }
  }

  /** Instructions between words give words. */
  ghost predicate Words(s: State) {
    forall id :: id in s.env ==> IsWord(s.env[id])
  }

  function SubstValue(v: Value, d: nat, w: Value): Value {
    if v == Var(d) then w else v
  }

  function SubstArgs(vs: seq<Value>, d: nat, w: Value): (r: seq<Value>)
    ensures |r| == |vs| && forall i :: 0 <= i < |r| ==> r[i] == SubstValue(vs[i], d, w)
  {
    if vs == [] then [] else [SubstValue(vs[0], d, w)] + SubstArgs(vs[1..], d, w)
  }

  /** Every use of d replaced by w. */
  function Subst(code: seq<Instr>, d: nat, w: Value): (r: seq<Instr>)
    ensures |r| == |code| && forall i :: 0 <= i < |r| ==> r[i] == code[i].(args := SubstArgs(code[i].args, d, w))
  {
    if code == [] then [] else [code[0].(args := SubstArgs(code[0].args, d, w))] + Subst(code[1..], d, w)
  }

  lemma StepWords(o: Oracle, i: Instr, s: State)
    requires Words(s)
    ensures Words(Step(o, i, s))
  {
    var vals := Evals(s, i.args);
    forall k | 0 <= k < |vals| ensures IsWord(vals[k]) { assert vals[k] == Eval(s, i.args[k]); }
    ValueIsWord(i.op, vals);
  }

  lemma ValueIsWord(op: Opcode, v: seq<int>)
    requires forall k :: 0 <= k < |v| ==> IsWord(v[k])
    ensures IsWord(ValueOf(op, v))
  {
    if |v| == 2 && op.Ashr? {
      ShrinkWord(v[0], Pow2(ShiftOf(v[1])));
    } else if |v| == 2 && op.Rem? && v[1] != 0 {
      TruncDivIs(v[0], v[1]);
      RemBound(v[0], v[1]);
    }
  }

  lemma ShrinkWord(a: int, p: int)
    requires IsWord(a) && p >= 1
    ensures IsWord(a / p)
  {
    QuotientBounds(a, p);
    var q := a / p;
    if q >= HALF { MulMono(1, p, q); }
    if q + 1 <= -HALF {
      MulMono(q + 1, -HALF, p);
      MulMono(1, p, HALF);
    }
  }

  lemma RemBound(a: int, b: int)
    requires IsWord(a) && IsWord(b) && b != 0
    requires Abs(TruncRem(a, b)) < Abs(b)
    ensures IsWord(TruncRem(a, b))
  {
  }

  lemma {:induction false} RunWords(o: Oracle, code: seq<Instr>, s: State)
    requires Words(s)
    ensures Words(Run(o, code, s))
    decreases code
  {
    if code != [] {
      StepWords(o, code[0], s);
      RunWords(o, code[1..], Step(o, code[0], s));
    }
  }
}
