/** What the scoped tables of value numbering say about the values of instructions. */
module ValueTable {
  /** Constants are objects with a printed name; Fixed stands for arguments and globals. */
  datatype Value = Var(id: nat) | Const(serial: nat, name: int) | Fixed(n: nat)

  /** A phi takes its operand k when entered from block from[k]. Other stands for everything else that is not
      numbered: comparisons, loads, stores, calls, branches. */
  datatype Op = Binary(kind: nat, comm: bool) | Gep | Phi(from: seq<nat>) | Other(tag: nat) {
    predicate Numbered() { Binary? || Gep? }
  }

  datatype Instr = Instr(op: Op, args: seq<Value>)

  /** All instructions of a function by number, with the operands they had before the pass. */
  type Code = map<nat, Instr>

  datatype Env = Env(vars: map<nat, int>, fixed: map<nat, int>)

  /** The meaning of the numbered operations. */
  type Interp = (Op, seq<int>) -> int

  ghost predicate Commutes(f: Interp) {
    forall k, a, b :: f(Binary(k, true), [a, b]) == f(Binary(k, true), [b, a])
  }

  function Eval(e: Env, v: Value): int {
    match v
    case Var(id) => if id in e.vars then e.vars[id] else 0
    case Const(_, name) => name
    case Fixed(n) => if n in e.fixed then e.fixed[n] else 0
  }

  function Evals(e: Env, vs: seq<Value>): (r: seq<int>)
    ensures |r| == |vs| && forall i :: 0 <= i < |r| ==> r[i] == Eval(e, vs[i])
  {
    if vs == [] then [] else [Eval(e, vs[0])] + Evals(e, vs[1..])
  }

  /** The defining equations of the instructions in avail hold. */
  ghost predicate Models(f: Interp, code: Code, e: Env, avail: set<nat>) {
    forall i :: i in avail && i in code && code[i].op.Numbered() ==>
                  Eval(e, Var(i)) == f(code[i].op, Evals(e, code[i].args))
  }

  /** x and y have the same value wherever the instructions in avail are available. */
  ghost predicate Same(f: Interp, code: Code, avail: set<nat>, x: Value, y: Value) {
    forall e {:trigger Models(f, code, e, avail)} :: Models(f, code, e, avail) ==> Eval(e, x) == Eval(e, y)
  }

  lemma SameMore(f: Interp, code: Code, avail: set<nat>, more: set<nat>, x: Value, y: Value)
    requires Same(f, code, avail, x, y) && avail <= more
    ensures Same(f, code, more, x, y)
  {
    forall e {:trigger Models(f, code, e, more)} | Models(f, code, e, more) ensures Eval(e, x) == Eval(e, y) {
      assert Models(f, code, e, avail);
    }
  }

  lemma SameTrans(f: Interp, code: Code, avail: set<nat>, x: Value, y: Value, z: Value)
    requires Same(f, code, avail, x, y) && Same(f, code, avail, y, z)
    ensures Same(f, code, avail, x, z) && Same(f, code, avail, y, x)
  {
  }

  /** The two operands and the operation. */
  datatype Key = Key(lhs: Value, rhs: Value, op: Op)

  ghost predicate KeySound(f: Interp, code: Code, avail: set<nat>, k: Key, v: Value) {
    forall e {:trigger Models(f, code, e, avail)} ::
      Models(f, code, e, avail) ==> f(k.op, [Eval(e, k.lhs), Eval(e, k.rhs)]) == Eval(e, v)
  }

  /** The scopes, the innermost one last. */
  datatype Tables = Tables(binary: seq<map<Key, Value>>, gep: seq<map<nat, Value>>, values: seq<map<Value, Value>>)

  /** A value that may replace others here: available and not replaced itself. */
  ghost predicate Usable(v: Value, avail: set<nat>, gone: map<nat, Value>) {
    v.Var? ==> v.id in avail && v.id !in gone
  }

  /** Every entry's value is equal to its key and available. */
  ghost predicate Sound(f: Interp, code: Code, avail: set<nat>, gone: map<nat, Value>, t: Tables) {
    && |t.binary| == |t.gep| == |t.values|
    && (forall s, k :: s in t.binary && k in s ==> KeySound(f, code, avail, k, s[k]) && Usable(s[k], avail, gone))
    && (forall s, i :: s in t.gep && i in s ==>
                         && Same(f, code, avail, Var(i), s[i]) && Usable(s[i], avail, gone)
                         && i in avail && i !in gone && i in code && code[i].op.Gep?)
    && (forall s, v :: s in t.values && v in s ==> Same(f, code, avail, v, s[v]) && Usable(s[v], avail, gone))
  }

  /** Replaced instructions have the value of what replaced them. */
  ghost predicate GoneSound(f: Interp, code: Code, avail: set<nat>, gone: map<nat, Value>) {
    forall g :: g in gone && g in avail ==> Same(f, code, avail, Var(g), gone[g]) && Usable(gone[g], avail, gone)
  }

  /** The operand that an instruction has now, after the replacements so far. */
  function Resolve(v: Value, gone: map<nat, Value>): Value {
    if v.Var? && v.id in gone then gone[v.id] else v
  }

  function Args(code: Code, i: nat, gone: map<nat, Value>): (r: seq<Value>)
    requires i in code
    ensures |r| == |code[i].args| && forall k :: 0 <= k < |r| ==> r[k] == Resolve(code[i].args[k], gone)
  {
    seq(|code[i].args|, k requires 0 <= k < |code[i].args| => Resolve(code[i].args[k], gone))
  }

  /** The operands of a numbered instruction are available; binary ones have two. */
  ghost predicate ArgsIn(code: Code, i: nat, avail: set<nat>)
    requires i in code
  {
    code[i].op.Numbered() ==>
      && (code[i].op.Binary? ==> |code[i].args| == 2)
      && forall v :: v in code[i].args && v.Var? ==> v.id in avail && v.id in code
  }

  lemma ResolvedSame(f: Interp, code: Code, avail: set<nat>, gone: map<nat, Value>, i: nat, k: nat)
    requires GoneSound(f, code, avail, gone) && i in code && k < |code[i].args| && ArgsIn(code, i, avail)
    requires code[i].op.Numbered()
    ensures Same(f, code, avail, code[i].args[k], Args(code, i, gone)[k]) && Usable(Args(code, i, gone)[k], avail, gone)
  {
    assert code[i].args[k] in code[i].args;
  }

  /** The present operands of an instruction give its value. */
  lemma PresentArgs(f: Interp, code: Code, avail: set<nat>, gone: map<nat, Value>, i: nat, e: Env)
    requires GoneSound(f, code, avail, gone) && i in code && ArgsIn(code, i, avail) && code[i].op.Numbered()
    requires Models(f, code, e, avail) && Models(f, code, e, {i})
    ensures Eval(e, Var(i)) == f(code[i].op, Evals(e, Args(code, i, gone)))
  {
    var args := Args(code, i, gone);
    forall k | 0 <= k < |args| ensures Evals(e, args)[k] == Evals(e, code[i].args)[k] {
      ResolvedSame(f, code, avail, gone, i, k);
    }
    assert Evals(e, args) == Evals(e, code[i].args);
  }

  lemma ModelsParts(f: Interp, code: Code, e: Env, avail: set<nat>, i: nat)
    requires Models(f, code, e, avail + {i})
    ensures Models(f, code, e, avail) && Models(f, code, e, {i})
  {
  }

  /** With more instructions available everything said stays true. */
  lemma SoundMore(f: Interp, code: Code, avail: set<nat>, more: set<nat>, gone: map<nat, Value>, t: Tables)
    requires Sound(f, code, avail, gone, t) && avail <= more
    ensures Sound(f, code, more, gone, t)
  {
    hide Same, KeySound;
    forall s, k | s in t.binary && k in s
      ensures KeySound(f, code, more, k, s[k])
    {
      KeyMore(f, code, avail, more, k, s[k]);
    }
    forall s, i | s in t.gep && i in s
      ensures Same(f, code, more, Var(i), s[i])
    {
      SameMore(f, code, avail, more, Var(i), s[i]);
    }
    forall s, v | s in t.values && v in s
      ensures Same(f, code, more, v, s[v])
    {
      SameMore(f, code, avail, more, v, s[v]);
    }
  }

  lemma KeyMore(f: Interp, code: Code, avail: set<nat>, more: set<nat>, k: Key, v: Value)
    requires KeySound(f, code, avail, k, v) && avail <= more
    ensures KeySound(f, code, more, k, v)
  {
    forall e {:trigger Models(f, code, e, more)} | Models(f, code, e, more)
      ensures f(k.op, [Eval(e, k.lhs), Eval(e, k.rhs)]) == Eval(e, v)
    {
      assert Models(f, code, e, avail);
    }
  }

  /** A binary instruction with a key equal to an entry's has the entry's value. */
  lemma KeyHit(f: Interp, code: Code, avail: set<nat>, gone: map<nat, Value>, i: nat, k: Key, v: Value)
    requires GoneSound(f, code, avail, gone) && i in code && ArgsIn(code, i, avail) && code[i].op.Binary?
    requires KeySound(f, code, avail, k, v)
    requires k.op == code[i].op && Same(f, code, avail, Args(code, i, gone)[0], k.lhs) &&
        Same(f, code, avail, Args(code, i, gone)[1], k.rhs)
    ensures Same(f, code, avail + {i}, Var(i), v)
  {
    forall e {:trigger Models(f, code, e, avail + {i})} | Models(f, code, e, avail + {i})
      ensures Eval(e, Var(i)) == Eval(e, v)
    {
      ModelsParts(f, code, e, avail, i);
      PresentArgs(f, code, avail, gone, i, e);
      var args := Args(code, i, gone);
      assert Evals(e, args) == [Eval(e, args[0]), Eval(e, args[1])];
    }
  }

  lemma SwappedHit(f: Interp, code: Code, avail: set<nat>, gone: map<nat, Value>, i: nat, k: Key, v: Value)
    requires Commutes(f) && GoneSound(f, code, avail, gone) && i in code && ArgsIn(code, i, avail) && code[i].op.Binary?
    requires code[i].op.comm
    requires KeySound(f, code, avail, k, v) && k == Key(Args(code, i, gone)[1], Args(code, i, gone)[0], code[i].op)
    ensures Same(f, code, avail + {i}, Var(i), v)
  {
    forall e {:trigger Models(f, code, e, avail)} | Models(f, code, e, avail)
      ensures f(k.op, [Eval(e, k.rhs), Eval(e, k.lhs)]) == Eval(e, v)
    {
    }
    KeyHit(f, code, avail, gone, i, Key(k.rhs, k.lhs, k.op), v);
  }

  /** An instruction's own key with its own value. */
  lemma OwnKey(f: Interp, code: Code, avail: set<nat>, gone: map<nat, Value>, i: nat)
    requires GoneSound(f, code, avail, gone) && i in code && ArgsIn(code, i, avail) && code[i].op.Binary?
    ensures KeySound(f, code, avail + {i}, Key(Args(code, i, gone)[0], Args(code, i, gone)[1], code[i].op), Var(i))
  {
    var args := Args(code, i, gone);
    forall e {:trigger Models(f, code, e, avail + {i})} | Models(f, code, e, avail + {i})
      ensures f(code[i].op, [Eval(e, args[0]), Eval(e, args[1])]) == Eval(e, Var(i))
    {
      ModelsParts(f, code, e, avail, i);
      PresentArgs(f, code, avail, gone, i, e);
      assert Evals(e, args) == [Eval(e, args[0]), Eval(e, args[1])];
    }
  }

  /** The values found for the operands of an instruction. */
  ghost predicate SameAll(f: Interp, code: Code, avail: set<nat>, xs: seq<Value>, ys: seq<Value>) {
    |xs| == |ys| && forall k :: 0 <= k < |xs| ==> Same(f, code, avail, xs[k], ys[k])
  }

  /** Two address computations whose operands have the same values are equal. */
  lemma GepHit(f: Interp, code: Code, avail: set<nat>, gone: map<nat, Value>, i: nat, j: nat, ys: seq<Value>)
    requires GoneSound(f, code, avail, gone) && i in code && j in code && j in avail && code[i].op.Gep?
    requires code[j].op.Gep?
    requires ArgsIn(code, i, avail) && ArgsIn(code, j, avail)
    requires SameAll(f, code, avail, Args(code, i, gone), ys) && SameAll(f, code, avail, Args(code, j, gone), ys)
    ensures Same(f, code, avail + {i}, Var(i), Var(j))
  {
    forall e {:trigger Models(f, code, e, avail + {i})} | Models(f, code, e, avail + {i})
      ensures Eval(e, Var(i)) == Eval(e, Var(j))
    {
      ModelsParts(f, code, e, avail, i);
      PresentArgs(f, code, avail, gone, i, e);
      PresentArgs(f, code, avail, gone, j, e);
      assert Evals(e, Args(code, i, gone)) == Evals(e, ys) == Evals(e, Args(code, j, gone));
    }
  }

  /** Entering a pair into the innermost scope unless its key is there. */
  function Insert<K, V>(scopes: seq<map<K, V>>, k: K, v: V): seq<map<K, V>>
    requires scopes != []
  {
    var n := |scopes| - 1;
    if k in scopes[n] then scopes else scopes[n := scopes[n][k := v]]
  }

  function Erase<K, V>(scopes: seq<map<K, V>>, k: K): (r: seq<map<K, V>>)
    ensures |r| == |scopes|
  {
    seq(|scopes|, n requires 0 <= n < |scopes| => scopes[n] - {k})
  }

  /** Pushing a value with itself as value. */
  function PushOwn(code: Code, gone: map<nat, Value>, t: Tables, v: Value): Tables
    requires t.binary != [] && t.gep != [] && t.values != []
    requires (v.Var? && v.id in code && code[v.id].op.Binary? ==> |code[v.id].args| == 2)
  {
    if v.Var? && v.id in code && code[v.id].op.Gep? then t.(gep := Insert(t.gep, v.id, v))
    else if v.Var? && v.id in code && code[v.id].op.Binary? then
      var args := Args(code, v.id, gone);
      t.(binary := Insert(t.binary, Key(args[0], args[1], code[v.id].op), v))
    else t.(values := Insert(t.values, v, v))
  }

  ghost function Plus(avail: set<nat>, v: Value): set<nat> {
    if v.Var? then avail + {v.id} else avail
  }

  lemma InsertMembers<K, V>(scopes: seq<map<K, V>>, k: K, v: V)
    requires scopes != []
    ensures |Insert(scopes, k, v)| == |scopes|
    ensures forall s, x :: s in Insert(scopes, k, v) && x in s ==>
                             (x == k && s[x] == v) || exists s0 :: s0 in scopes && x in s0 && s0[x] == s[x]
  {
    var r := Insert(scopes, k, v);
    forall s, x | s in r && x in s
      ensures (x == k && s[x] == v) || exists s0 :: s0 in scopes && x in s0 && s0[x] == s[x]
    {
      var n :| 0 <= n < |r| && r[n] == s;
      assert scopes[n] in scopes;
      if !(x == k && s[x] == v) { assert x in scopes[n] && scopes[n][x] == s[x]; }
    }
  }

  lemma SoundSizes(f: Interp, code: Code, avail: set<nat>, gone: map<nat, Value>, t: Tables)
    requires Sound(f, code, avail, gone, t)
    ensures |t.binary| == |t.gep| == |t.values|
  {
    hide Same, KeySound;
  }

  /** Pushing a value keeps the tables sound, with the value available. */
  lemma PushSound(f: Interp, code: Code, avail: set<nat>, gone: map<nat, Value>, t: Tables, v: Value)
    requires Sound(f, code, avail, gone, t) && GoneSound(f, code, avail, gone) && t.binary != []
    requires (v.Var? ==> v.id !in gone) && (v.Var? && v.id in code ==> ArgsIn(code, v.id, avail))
    ensures Sound(f, code, Plus(avail, v), gone, PushOwn(code, gone, t, v))
  {
    hide Same, KeySound, Models, Sound, Insert;
    SoundSizes(f, code, avail, gone, t);
    var more := Plus(avail, v);
    SoundMore(f, code, avail, more, gone, t);
    SameSelf(f, code, more, v);
    if v.Var? && v.id in code && code[v.id].op.Gep? {
      GepSound(f, code, more, gone, t, v.id);
    } else if v.Var? && v.id in code && code[v.id].op.Binary? {
      var args := Args(code, v.id, gone);
      OwnKey(f, code, avail, gone, v.id);
      BinarySound(f, code, more, gone, t, Key(args[0], args[1], code[v.id].op), v);
    } else {
      ValueSound(f, code, more, gone, t, v);
    }
  }

  lemma GepSound(f: Interp, code: Code, avail: set<nat>, gone: map<nat, Value>, t: Tables, i: nat)
    requires Sound(f, code, avail, gone, t) && t.gep != [] && Same(f, code, avail, Var(i), Var(i))
    requires i in avail && i !in gone && i in code && code[i].op.Gep?
    ensures Sound(f, code, avail, gone, t.(gep := Insert(t.gep, i, Var(i))))
  {
    hide Same, KeySound, Models, Insert;
    InsertMembers(t.gep, i, Var(i));
  }

  lemma BinarySound(f: Interp, code: Code, avail: set<nat>, gone: map<nat, Value>, t: Tables, k: Key, v: Value)
    requires Sound(f, code, avail, gone, t) && t.binary != [] && KeySound(f, code, avail, k, v)
    requires Usable(v, avail, gone)
    ensures Sound(f, code, avail, gone, t.(binary := Insert(t.binary, k, v)))
  {
    hide Same, KeySound, Models, Insert, Usable;
    InsertMembers(t.binary, k, v);
  }

  lemma ValueSound(f: Interp, code: Code, avail: set<nat>, gone: map<nat, Value>, t: Tables, v: Value)
    requires Sound(f, code, avail, gone, t) && t.values != [] && Same(f, code, avail, v, v) && Usable(v, avail, gone)
    ensures Sound(f, code, avail, gone, t.(values := Insert(t.values, v, v)))
  {
    hide Same, KeySound, Models, Insert, Usable;
    InsertMembers(t.values, v, v);
  }

  lemma SameSelf(f: Interp, code: Code, avail: set<nat>, v: Value)
    ensures Same(f, code, avail, v, v)
  {
  }
}
