/** Which instructions are available where, the record of replacements, and what looking up, entering and
    erasing mean for the tables. */
module ValueOrder {
  import opened ValueTable

  /** before[x] holds the instructions available just before x. */
  type Before = map<nat, set<nat>>

  /** Availability is a strict order, and numbered instructions use what is available before them. */
  ghost predicate Ordered(code: Code, before: Before) {
    var holds :=
      && code.Keys == before.Keys
      && (forall x :: x in before ==> x !in before[x])
      && (forall x, y {:trigger y in before[x]} ::
            x in before && y in before[x] ==> y in before && before[y] <= before[x])
      && (forall x :: x in code ==> ArgsIn(code, x, before[x]));
    holds
  }

  /** Whatever was available before a member is a member. */
  ghost predicate Down(before: Before, avail: set<nat>) {
    forall x :: x in avail ==> x in before && before[x] <= avail
  }

  /** g was replaced by an equal value that is available before g and stays. */
  ghost predicate GoneAt(f: Interp, code: Code, before: Before, gone: map<nat, Value>, g: nat) {
    && g in gone && g in code && g in before && code[g].op.Numbered()
    && Same(f, code, before[g] + {g}, Var(g), gone[g])
    && (gone[g].Var? ==> gone[g].id in before[g] && gone[g].id !in gone)
  }

  ghost predicate GoneOk(f: Interp, code: Code, before: Before, gone: map<nat, Value>) {
    forall g :: g in gone ==> GoneAt(f, code, before, gone, g)
  }

  lemma DownPlus(code: Code, before: Before, avail: set<nat>, d: nat)
    requires Ordered(code, before) && Down(before, avail) && d in before && before[d] <= avail
    ensures Down(before, avail + {d}) && ArgsIn(code, d, avail)
  {
  }

  /** At every point a replaced instruction that is available may be read as what replaced it. */
  lemma GoneAvailable(f: Interp, code: Code, before: Before, gone: map<nat, Value>, avail: set<nat>)
    requires GoneOk(f, code, before, gone) && Down(before, avail)
    ensures GoneSound(f, code, avail, gone)
  {
    hide Same;
    forall g | g in gone && g in avail ensures Same(f, code, avail, Var(g), gone[g]) && Usable(gone[g], avail, gone) {
      assert GoneAt(f, code, before, gone, g);
      SameMore(f, code, before[g] + {g}, avail, Var(g), gone[g]);
    }
  }

  /** The state of the pass at a point where avail is available. */
  ghost predicate Ready(f: Interp, code: Code, before: Before, gone: map<nat, Value>, avail: set<nat>, t: Tables) {
    var holds :=
      && Commutes(f) && Ordered(code, before) && GoneOk(f, code, before, gone) && Down(before, avail)
      && Sound(f, code, avail, gone, t) && t.binary != [];
    holds
  }

  lemma ReadyParts(f: Interp, code: Code, before: Before, gone: map<nat, Value>, avail: set<nat>, t: Tables)
    requires Ready(f, code, before, gone, avail, t)
    ensures Commutes(f) && Ordered(code, before) && GoneOk(f, code, before, gone) && Down(before, avail)
    ensures Sound(f, code, avail, gone, t) && t.binary != [] && |t.binary| == |t.gep| == |t.values|
    ensures GoneSound(f, code, avail, gone)
  {
    GoneAvailable(f, code, before, gone, avail);
  }

  /** A value that can be looked up: not replaced, its operands available. */
  ghost predicate CanLook(code: Code, gone: map<nat, Value>, avail: set<nat>, v: Value) {
    v.Var? ==> v.id in code && v.id !in gone && ArgsIn(code, v.id, avail)
  }

  lemma OperandLooks(f: Interp, code: Code, before: Before, gone: map<nat, Value>, avail: set<nat>, t: Tables, i: nat,
      k: nat)
    requires Ready(f, code, before, gone, avail, t) && i in code && ArgsIn(code, i, avail) && code[i].op.Numbered()
    requires k < |code[i].args|
    ensures CanLook(code, gone, avail, Args(code, i, gone)[k]) && Plus(avail, Args(code, i, gone)[k]) == avail
  {
    hide Same, Sound;
    ReadyParts(f, code, before, gone, avail, t);
    var v := Args(code, i, gone)[k];
    assert code[i].args[k] in code[i].args;
    if v.Var? {
      assert v.id in avail && v.id !in gone;
      DownPlus(code, before, avail, v.id);
    }
  }

  // Finding.

  predicate IsGep(code: Code, v: Value) {
    v.Var? && v.id in code && code[v.id].op.Gep?
  }

  predicate IsBinary(code: Code, v: Value) {
    v.Var? && v.id in code && code[v.id].op.Binary? && |code[v.id].args| == 2
  }

  function KeyOf(code: Code, gone: map<nat, Value>, i: nat): Key
    requires IsBinary(code, Var(i))
  {
    Key(Args(code, i, gone)[0], Args(code, i, gone)[1], code[i].op)
  }

  function Swapped(k: Key): Key {
    Key(k.rhs, k.lhs, k.op)
  }

  ghost predicate HitBinary(s: map<Key, Value>, k: Key, r: Value) {
    if k in s then s[k] == r else k.op.Binary? && k.op.comm && Swapped(k) in s && s[Swapped(k)] == r
  }

  ghost predicate HitValue(s: map<Value, Value>, v: Value, r: Value) {
    if v in s then s[v] == r else v.Const? && exists c :: c in s && c.Const? && c.name == v.name && s[c] == r
  }

  /** Scope n holds r for v. */
  ghost predicate HitAt(code: Code, gone: map<nat, Value>, t: Tables, n: nat, v: Value, r: Value) {
    && n < |t.binary| && n < |t.gep| && n < |t.values|
    && if IsGep(code, v) then v.id in t.gep[n] && t.gep[n][v.id] == r
       else if IsBinary(code, v) then HitBinary(t.binary[n], KeyOf(code, gone, v.id), r)
       else HitValue(t.values[n], v, r)
  }

  ghost predicate HasHit(code: Code, gone: map<nat, Value>, t: Tables, n: nat, v: Value) {
    exists r :: HitAt(code, gone, t, n, v, r)
  }

  /** No scope inside of scope n holds anything for v. */
  ghost predicate NoneInside(code: Code, gone: map<nat, Value>, t: Tables, n: nat, v: Value) {
    forall m: nat, x :: n <= m < |t.binary| ==> !HitAt(code, gone, t, m, v, x)
  }

  /** Nothing is held for v: no scope has the address computation, the binary operation on its present operands or, if
      it commutes, on swapped ones, a constant of that name, or the value itself. */
  lemma NoneMeans(code: Code, gone: map<nat, Value>, t: Tables, v: Value)
    requires |t.binary| == |t.gep| == |t.values| && NoneInside(code, gone, t, 0, v)
    ensures IsGep(code, v) ==> forall n :: 0 <= n < |t.gep| ==> v.id !in t.gep[n]
    ensures IsBinary(code, v) ==>
      var x, y := Resolve(code[v.id].args[0], gone), Resolve(code[v.id].args[1], gone);
      forall n :: 0 <= n < |t.binary| ==>
        && Key(x, y, code[v.id].op) !in t.binary[n] && (code[v.id].op.comm ==> Key(y, x, code[v.id].op) !in t.binary[n])
    ensures v.Const? ==> forall n, c :: 0 <= n < |t.values| && c in t.values[n] && c.Const? ==> c.name != v.name
    ensures !IsGep(code, v) && !IsBinary(code, v) ==> forall n :: 0 <= n < |t.values| ==> v !in t.values[n]
  {
    forall n | 0 <= n < |t.binary|
      ensures IsGep(code, v) ==> v.id !in t.gep[n]
      ensures IsBinary(code, v) ==>
        var x, y := Resolve(code[v.id].args[0], gone), Resolve(code[v.id].args[1], gone);
        Key(x, y, code[v.id].op) !in t.binary[n] && (code[v.id].op.comm ==> Key(y, x, code[v.id].op) !in t.binary[n])
      ensures v.Const? ==> forall c :: c in t.values[n] && c.Const? ==> c.name != v.name
      ensures !IsGep(code, v) && !IsBinary(code, v) ==> v !in t.values[n]
    {
      HasNot(code, gone, t, n, v);
    }
  }

  lemma HasNot(code: Code, gone: map<nat, Value>, t: Tables, n: nat, v: Value)
    requires n < |t.binary| == |t.gep| == |t.values| && forall r :: !HitAt(code, gone, t, n, v, r)
    ensures IsGep(code, v) ==> v.id !in t.gep[n]
    ensures IsBinary(code, v) ==>
      var x, y := Resolve(code[v.id].args[0], gone), Resolve(code[v.id].args[1], gone);
      Key(x, y, code[v.id].op) !in t.binary[n] && (code[v.id].op.comm ==> Key(y, x, code[v.id].op) !in t.binary[n])
    ensures v.Const? ==> forall c :: c in t.values[n] && c.Const? ==> c.name != v.name
    ensures !IsGep(code, v) && !IsBinary(code, v) ==> v !in t.values[n]
  {
    if IsGep(code, v) {
      if v.id in t.gep[n] { assert HitAt(code, gone, t, n, v, t.gep[n][v.id]); }
    } else if IsBinary(code, v) {
      var k, s := KeyOf(code, gone, v.id), t.binary[n];
      if k in s {
        assert HitAt(code, gone, t, n, v, s[k]);
      } else if k.op.comm && Swapped(k) in s {
        assert HitAt(code, gone, t, n, v, s[Swapped(k)]);
      }
    } else {
      var s := t.values[n];
      if v in s {
        assert HitAt(code, gone, t, n, v, s[v]);
      } else if c :| c in s && v.Const? && c.Const? && c.name == v.name {
        assert HitAt(code, gone, t, n, v, s[c]);
      }
    }
  }

  /** The innermost scope that holds anything for v holds r. */
  ghost predicate Innermost(code: Code, gone: map<nat, Value>, t: Tables, v: Value, r: Value) {
    exists n: nat :: HitAt(code, gone, t, n, v, r) && NoneInside(code, gone, t, n + 1, v)
  }

  lemma HitIsSame(f: Interp, code: Code, before: Before, gone: map<nat, Value>, avail: set<nat>, t: Tables, n: nat,
      v: Value, r: Value)
    requires Ready(f, code, before, gone, avail, t) && CanLook(code, gone, avail, v) && HitAt(code, gone, t, n, v, r)
    ensures Same(f, code, Plus(avail, v), v, r) && Usable(r, avail, gone) && (r == v && v.Var? ==> v.id in avail)
  {
    hide Same, KeySound, Models, GoneOk, Ordered, Down;
    ReadyParts(f, code, before, gone, avail, t);
    if IsGep(code, v) {
      assert t.gep[n] in t.gep;
      SameMore(f, code, avail, Plus(avail, v), v, r);
    } else if IsBinary(code, v) {
      assert t.binary[n] in t.binary;
      var k := KeyOf(code, gone, v.id);
      if k in t.binary[n] {
        SameSelf(f, code, avail, k.lhs);
        SameSelf(f, code, avail, k.rhs);
        KeyHit(f, code, avail, gone, v.id, k, r);
      } else {
        SwappedHit(f, code, avail, gone, v.id, Swapped(k), r);
      }
    } else {
      assert t.values[n] in t.values;
      ValueHit(f, code, avail, gone, t, n, v, r);
      SameMore(f, code, avail, Plus(avail, v), v, r);
    }
  }

  lemma ValueHit(f: Interp, code: Code, avail: set<nat>, gone: map<nat, Value>, t: Tables, n: nat, v: Value, r: Value)
    requires Sound(f, code, avail, gone, t) && n < |t.values| && HitValue(t.values[n], v, r)
    ensures Same(f, code, avail, v, r) && Usable(r, avail, gone)
  {
    hide KeySound, Models;
    var s := t.values[n];
    assert s in t.values;
    if v !in s {
      var c :| c in s && c.Const? && c.name == v.name && s[c] == r;
      assert Same(f, code, avail, c, r);
    }
  }

  /** After entering v the innermost scope holds v for it, unless its key was there before. */
  lemma PushThenHit(code: Code, gone: map<nat, Value>, t: Tables, v: Value, r: Value)
    requires |t.binary| == |t.gep| == |t.values| && t.binary != [] &&
        (v.Var? && v.id in code && code[v.id].op.Binary? ==> |code[v.id].args| == 2)
    requires Innermost(code, gone, PushOwn(code, gone, t, v), v, r)
    ensures r == v || PushOwn(code, gone, t, v) == t
  {
    var u := PushOwn(code, gone, t, v);
    var last := |t.binary| - 1;
    var own :=
      if IsGep(code, v) then u.gep[last][v.id] else if IsBinary(code,
          v) then u.binary[last][KeyOf(code, gone, v.id)] else u.values[last][v];
    assert HitAt(code, gone, u, last, v, own);
    var n: nat :| HitAt(code, gone, u, n, v, r) && NoneInside(code, gone, u, n + 1, v);
    assert n == last;
    assert r == own;
  }

  lemma PushIsFound(code: Code, gone: map<nat, Value>, t: Tables, v: Value)
    requires |t.binary| == |t.gep| == |t.values| && t.binary != [] &&
        (v.Var? && v.id in code && code[v.id].op.Binary? ==> |code[v.id].args| == 2)
    ensures HasHit(code, gone, PushOwn(code, gone, t, v), |t.binary| - 1, v)
  {
    var u := PushOwn(code, gone, t, v);
    var last := |t.binary| - 1;
    var own :=
      if IsGep(code, v) then u.gep[last][v.id] else if IsBinary(code,
          v) then u.binary[last][KeyOf(code, gone, v.id)] else u.values[last][v];
    assert HitAt(code, gone, u, last, v, own);
  }

  /** Entering keeps the state, with v available. */
  lemma PushReady(f: Interp, code: Code, before: Before, gone: map<nat, Value>, avail: set<nat>, t: Tables, v: Value)
    requires Ready(f, code, before, gone, avail, t) && CanLook(code, gone, avail, v)
    requires (v.Var? ==> v.id in before && before[v.id] <= avail)
    ensures Ready(f, code, before, gone, Plus(avail, v), PushOwn(code, gone, t, v))
  {
    hide Same, KeySound, Models, Sound, GoneOk, GoneSound;
    ReadyParts(f, code, before, gone, avail, t);
    PushSound(f, code, avail, gone, t, v);
    if v.Var? { DownPlus(code, before, avail, v.id); }
  }

  lemma ReadyMore(f: Interp, code: Code, before: Before, gone: map<nat, Value>, avail: set<nat>, more: set<nat>,
      t: Tables)
    requires Ready(f, code, before, gone, avail, t) && avail <= more && Down(before, more)
    ensures Ready(f, code, before, gone, more, t)
  {
    hide Same, KeySound, Models, Sound, GoneOk, GoneSound;
    SoundMore(f, code, avail, more, gone, t);
  }

  // Replacing.

  /** The tables after erasing an instruction's own key, which for binary instructions is erased twice over and
      never with its operands swapped. */
  function Deleted(code: Code, gone: map<nat, Value>, t: Tables, i: nat): Tables {
    if IsGep(code, Var(i)) then t.(gep := Erase(t.gep, i))
    else if IsBinary(code, Var(i)) then t.(binary := Erase(Erase(t.binary, KeyOf(code, gone, i)), KeyOf(code, gone, i)))
    else t
  }

  /** Each scope of r is a part of the same scope of t. */
  ghost predicate Within(r: Tables, t: Tables) {
    && |r.binary| == |t.binary| && |r.gep| == |t.gep| && |r.values| == |t.values|
    && (forall n, k :: 0 <= n < |r.binary| && k in r.binary[n] ==> k in t.binary[n] && r.binary[n][k] == t.binary[n][k])
    && (forall n, i :: 0 <= n < |r.gep| && i in r.gep[n] ==> i in t.gep[n] && r.gep[n][i] == t.gep[n][i])
    && (forall n, v :: 0 <= n < |r.values| && v in r.values[n] ==> v in t.values[n] && r.values[n][v] == t.values[n][v])
  }

  lemma DeletedWithin(code: Code, gone: map<nat, Value>, t: Tables, i: nat)
    ensures Within(Deleted(code, gone, t, i), t)
  {
  }

  lemma WithinSound(f: Interp, code: Code, avail: set<nat>, gone: map<nat, Value>, r: Tables, t: Tables)
    requires Within(r, t) && Sound(f, code, avail, gone, t)
    ensures Sound(f, code, avail, gone, r)
  {
    hide Same, KeySound, Models, Usable;
    forall s, k | s in r.binary && k in s ensures KeySound(f, code, avail, k, s[k]) && Usable(s[k], avail, gone) {
      var n :| 0 <= n < |r.binary| && r.binary[n] == s;
      assert t.binary[n] in t.binary;
    }
    forall s, i | s in r.gep && i in s
      ensures Same(f, code, avail, Var(i), s[i]) && Usable(s[i], avail, gone) && i in avail && i !in gone && i in code
      ensures code[i].op.Gep?
    {
      var n :| 0 <= n < |r.gep| && r.gep[n] == s;
      assert t.gep[n] in t.gep;
    }
    forall s, v | s in r.values && v in s ensures Same(f, code, avail, v, s[v]) && Usable(s[v], avail, gone) {
      var n :| 0 <= n < |r.values| && r.values[n] == s;
      assert t.values[n] in t.values;
    }
  }

  /** Replacing instructions that are not available leaves the tables sound. */
  lemma GoneKeepsSound(f: Interp, code: Code, avail: set<nat>, gone: map<nat, Value>, more: map<nat, Value>, t: Tables)
    requires Sound(f, code, avail, gone, t) && forall x :: x in more && x in avail ==> x in gone
    ensures Sound(f, code, avail, more, t)
  {
    hide Same, KeySound, Models;
  }

  /** Replacing d by an equal value available before it. */
  lemma ReplaceOk(f: Interp, code: Code, before: Before, gone: map<nat, Value>, d: nat, r: Value)
    requires GoneOk(f, code, before, gone) && d in code && d in before && code[d].op.Numbered() && d !in gone
    requires d !in before[d]
    requires (forall g :: g in gone ==> gone[g] != Var(d)) && Same(f, code, before[d] + {d}, Var(d), r)
    requires Usable(r, before[d], gone)
    ensures GoneOk(f, code, before, gone[d := r])
  {
    hide Same;
    forall g {:trigger GoneAt(f, code, before, gone[d := r], g)} | g in gone[d := r]
      ensures GoneAt(f, code, before, gone[d := r], g)
    {
      if g != d { assert GoneAt(f, code, before, gone, g); }
    }
  }

  lemma ReplaceReady(f: Interp, code: Code, before: Before, gone: map<nat, Value>, avail: set<nat>, t: Tables, d: nat,
      r: Value)
    requires Ready(f, code, before, gone, avail, t) && d in code && code[d].op.Numbered() && d !in gone
    requires before[d] == avail
    requires (forall g :: g in gone ==> gone[g] != Var(d)) && Same(f, code, avail + {d}, Var(d), r)
    requires Usable(r, avail, gone)
    ensures Ready(f, code, before, gone[d := r], avail + {d}, Deleted(code, gone, t, d))
  {
    hide Same, KeySound, Models, Sound, GoneOk, Within, Deleted;
    ReadyParts(f, code, before, gone, avail, t);
    ReplaceOk(f, code, before, gone, d, r);
    DeletedWithin(code, gone, t, d);
    var u := Deleted(code, gone, t, d);
    WithinSound(f, code, avail, gone, u, t);
    GoneKeepsSound(f, code, avail, gone, gone[d := r], u);
    SoundMore(f, code, avail, avail + {d}, gone[d := r], u);
    DownPlus(code, before, avail, d);
    WithinShape(u, t);
  }

  lemma WithinShape(r: Tables, t: Tables)
    requires Within(r, t)
    ensures |r.binary| == |t.binary| && |r.gep| == |t.gep| && |r.values| == |t.values|
  {
  }

  // Growing the innermost scope.

  /** Nothing outside of the innermost scope changed. */
  ghost predicate Grown(t: Tables, u: Tables) {
    && |u.binary| == |t.binary| && |u.gep| == |t.gep| && |u.values| == |t.values|
    && (forall n :: 0 <= n < |t.binary| - 1 ==> u.binary[n] == t.binary[n])
    && (forall n :: 0 <= n < |t.gep| - 1 ==> u.gep[n] == t.gep[n])
    && (forall n :: 0 <= n < |t.values| - 1 ==> u.values[n] == t.values[n])
  }

  lemma GrownTrans(a: Tables, b: Tables, c: Tables)
    requires Grown(a, b) && Grown(b, c)
    ensures Grown(a, c)
  {
  }

  lemma PushGrows(code: Code, gone: map<nat, Value>, t: Tables, v: Value)
    requires t.binary != [] && t.gep != [] && t.values != []
    requires (v.Var? && v.id in code && code[v.id].op.Binary? ==> |code[v.id].args| == 2)
    ensures Grown(t, PushOwn(code, gone, t, v))
  {
  }

  /** The entries of one scope of address computations. */
  ghost predicate GepEntries(f: Interp, code: Code, avail: set<nat>, gone: map<nat, Value>, s: map<nat, Value>) {
    forall j :: j in s ==> Same(f, code, avail, Var(j), s[j]) && Usable(s[j],
                avail, gone) && j in avail && j in code && code[j].op.Gep? &&
                           ArgsIn(code, j, avail)
  }

  lemma ScopeEntries(f: Interp, code: Code, before: Before, gone: map<nat, Value>, avail: set<nat>, t: Tables, n: nat)
    requires Ready(f, code, before, gone, avail, t) && n < |t.gep|
    ensures GepEntries(f, code, avail, gone, t.gep[n])
  {
    hide Same, KeySound, Models, GoneOk;
    ReadyParts(f, code, before, gone, avail, t);
    assert t.gep[n] in t.gep;
    forall j | j in t.gep[n] ensures ArgsIn(code, j, avail) { DownPlus(code, before, avail, j); }
  }

  /** A binary instruction whose operands have the values lhs and rhs, found as a key. */
  lemma KeyFound(f: Interp, code: Code, before: Before, gone: map<nat, Value>, avail: set<nat>, t: Tables, n: nat,
      i: nat, lhs: Value, rhs: Value)
    requires Ready(f, code, before, gone, avail, t) && n < |t.binary| && i in code && code[i].op.Binary?
    requires ArgsIn(code, i, avail)
    requires SameAll(f, code, avail, Args(code, i, gone), [lhs, rhs]) && Key(lhs, rhs, code[i].op) in t.binary[n]
    ensures Same(f, code, avail + {i}, Var(i), t.binary[n][Key(lhs, rhs, code[i].op)]) &&
        Usable(t.binary[n][Key(lhs, rhs, code[i].op)], avail, gone)
  {
    hide Same, KeySound, Models, GoneOk, Ordered, Down;
    ReadyParts(f, code, before, gone, avail, t);
    assert t.binary[n] in t.binary;
    var k := Key(lhs, rhs, code[i].op);
    assert Same(f, code, avail, Args(code, i, gone)[0], [lhs, rhs][0]) &&
        Same(f, code, avail, Args(code, i, gone)[1], [lhs, rhs][1]);
    KeyHit(f, code, avail, gone, i, k, t.binary[n][k]);
  }

  /** An address computation whose operands have the values of those of a key. */
  lemma GepFound(f: Interp, code: Code, before: Before, gone: map<nat, Value>, avail: set<nat>, t: Tables, s: map<nat,
      Value>, i: nat, j: nat, ys: seq<Value>)
    requires Ready(f, code, before, gone, avail, t) && GepEntries(f, code, avail, gone, s) && j in s
    requires i in code && code[i].op.Gep? && ArgsIn(code, i, avail)
    requires SameAll(f, code, avail, Args(code, i, gone), ys) && SameAll(f, code, avail, Args(code, j, gone), ys)
    ensures Same(f, code, avail + {i}, Var(i), s[j]) && Usable(s[j], avail, gone)
  {
    hide Same, SameAll, Models, GoneOk, Ordered, Down, Sound;
    ReadyParts(f, code, before, gone, avail, t);
    GepHit(f, code, avail, gone, i, j, ys);
    SameMore(f, code, avail, avail + {i}, Var(j), s[j]);
    SameTrans(f, code, avail + {i}, Var(i), Var(j), s[j]);
  }

  lemma SameAllMore(f: Interp, code: Code, avail: set<nat>, xs: seq<Value>, ys: seq<Value>, y: Value)
    requires |ys| < |xs| && SameAll(f, code, avail, xs[..|ys|], ys) && Same(f, code, avail, xs[|ys|], y)
    ensures SameAll(f, code, avail, xs[..|ys| + 1], ys + [y])
  {
    hide Same;
    forall k | 0 <= k < |ys| + 1 ensures Same(f, code, avail, xs[..|ys| + 1][k], (ys + [y])[k]) {
      if k < |ys| { assert xs[..|ys|][k] == xs[k]; }
    }
  }

  // Looking up.

  lemma FoundIsSame(f: Interp, code: Code, before: Before, gone: map<nat, Value>, avail: set<nat>, t: Tables, v: Value,
      r: Value)
    requires Ready(f, code, before, gone, avail, t) && CanLook(code, gone, avail, v) && Innermost(code, gone, t, v, r)
    requires v.Var? ==> v.id in before && before[v.id] <= avail
    ensures Ready(f, code, before, gone, Plus(avail, v), t)
    ensures Same(f, code, Plus(avail, v), v, r) && Usable(r, Plus(avail, v), gone) && !NoneInside(code, gone, t, 0, v)
    ensures r == v && v.Var? ==> v.id in avail
  {
    hide Ready, Same, CanLook, HitAt, Down;
    var n: nat :| HitAt(code, gone, t, n, v, r) && NoneInside(code, gone, t, n + 1, v);
    HitInScope(code, gone, t, n, v, r);
    HitIsSame(f, code, before, gone, avail, t, n, v, r);
    ReadyParts(f, code, before, gone, avail, t);
    if v.Var? { DownPlus(code, before, avail, v.id); }
    ReadyMore(f, code, before, gone, avail, Plus(avail, v), t);
  }

  lemma HitInScope(code: Code, gone: map<nat, Value>, t: Tables, n: nat, v: Value, r: Value)
    requires HitAt(code, gone, t, n, v, r)
    ensures n < |t.binary|
  {
  }

  lemma AfterPush(f: Interp, code: Code, before: Before, gone: map<nat, Value>, avail: set<nat>, t: Tables, v: Value,
      r: Value)
    requires Ready(f, code, before, gone, avail, t) && CanLook(code, gone, avail, v)
    requires (v.Var? ==> v.id in before && before[v.id] <= avail)
    requires |t.binary| == |t.gep| == |t.values| && t.binary != [] &&
        (v.Var? && v.id in code && code[v.id].op.Binary? ==> |code[v.id].args| == 2)
    requires Innermost(code, gone, PushOwn(code, gone, t, v), v, r)
    ensures Ready(f, code, before, gone, Plus(avail, v), PushOwn(code, gone, t, v))
    ensures Same(f, code, Plus(avail, v), v, r) && Usable(r, Plus(avail, v), gone) &&
        !NoneInside(code, gone, PushOwn(code, gone, t, v), 0, v)
    ensures r != v ==> PushOwn(code, gone, t, v) == t
  {
    hide Ready, Same, Innermost, PushOwn, Ordered, Down;
    PushReady(f, code, before, gone, avail, t, v);
    PushThenHit(code, gone, t, v, r);
    ReadyParts(f, code, before, gone, avail, t);
    assert Plus(Plus(avail, v), v) == Plus(avail, v);
    FoundIsSame(f, code, before, gone, Plus(avail, v), PushOwn(code, gone, t, v), v, r);
  }

  lemma PushedNotMissing(code: Code, gone: map<nat, Value>, t: Tables, v: Value)
    requires |t.binary| == |t.gep| == |t.values| && t.binary != [] &&
        (v.Var? && v.id in code && code[v.id].op.Binary? ==> |code[v.id].args| == 2)
    ensures !NoneInside(code, gone, PushOwn(code, gone, t, v), 0, v)
  {
    hide HitAt, PushOwn;
    PushIsFound(code, gone, t, v);
    var r :| HitAt(code, gone, PushOwn(code, gone, t, v), |t.binary| - 1, v, r);
    PushShape(code, gone, t, v);
  }

  lemma PushShape(code: Code, gone: map<nat, Value>, t: Tables, v: Value)
    requires |t.binary| == |t.gep| == |t.values| && t.binary != [] &&
        (v.Var? && v.id in code && code[v.id].op.Binary? ==> |code[v.id].args| == 2)
    ensures |PushOwn(code, gone, t, v).binary| == |PushOwn(code, gone, t, v).gep| == |PushOwn(code, gone, t,
            v).values| == |t.binary|
  {
  }

  /** What looking up may rely on. */
  lemma LookFacts(f: Interp, code: Code, before: Before, gone: map<nat, Value>, avail: set<nat>, t: Tables, v: Value)
    requires Ready(f, code, before, gone, avail, t) && CanLook(code, gone, avail, v)
    ensures |t.binary| == |t.gep| == |t.values| && t.binary != []
    ensures v.Var? ==> v.id in code && v.id !in gone && ArgsIn(code, v.id, avail) && (code[v.id].op.Binary? ==>
              |code[v.id].args| == 2)
  {
    hide Sound, Same;
    ReadyParts(f, code, before, gone, avail, t);
  }

  lemma GrownRefl(t: Tables)
    ensures Grown(t, t)
  {
  }

  lemma GrownShape(t: Tables, u: Tables)
    requires Grown(t, u)
    ensures |u.binary| == |t.binary| && |u.gep| == |t.gep| && |u.values| == |t.values|
  {
  }

  lemma SameAllLength(f: Interp, code: Code, avail: set<nat>, xs: seq<Value>, ys: seq<Value>)
    requires SameAll(f, code, avail, xs, ys)
    ensures |xs| == |ys|
  {
  }

  lemma OperandBefore(f: Interp, code: Code, before: Before, gone: map<nat, Value>, avail: set<nat>, t: Tables,
      v: Value)
    requires Ready(f, code, before, gone, avail, t) && Plus(avail, v) == avail
    ensures v.Var? ==> v.id in before && before[v.id] <= avail
  {
    hide Sound, GoneOk, Ordered;
    if v.Var? { assert v.id in avail + {v.id}; }
  }

  lemma InstrFound(f: Interp, code: Code, before: Before, gone: map<nat, Value>, avail: set<nat>, t: Tables, i: nat,
      r: Value)
    requires Ready(f, code, before, gone, avail, t) && i in before && before[i] <= avail && Usable(r, avail, gone)
    ensures Ready(f, code, before, gone, avail + {i}, t) && Usable(r, avail + {i}, gone)
  {
    hide Ready, Sound, GoneOk;
    ReadyParts(f, code, before, gone, avail, t);
    DownPlus(code, before, avail, i);
    ReadyMore(f, code, before, gone, avail, avail + {i}, t);
  }

  // Scopes.

  /** Outer scopes may have lost entries, though no address computations; the innermost is another one. */
  ghost predicate Shrunk(t: Tables, u: Tables) {
    && |u.binary| == |t.binary| && |u.gep| == |t.gep| && |u.values| == |t.values|
    && (forall n, k :: 0 <= n < |t.binary| - 1 && k in u.binary[n] ==>
                         k in t.binary[n] && u.binary[n][k] == t.binary[n][k])
    && (forall n :: 0 <= n < |t.gep| - 1 ==> u.gep[n] == t.gep[n])
    && (forall n, v :: 0 <= n < |t.values| - 1 && v in u.values[n] ==>
                         v in t.values[n] && u.values[n][v] == t.values[n][v])
  }

  lemma ShrunkTrans(a: Tables, b: Tables, c: Tables)
    requires Shrunk(a, b) && Shrunk(b, c)
    ensures Shrunk(a, c)
  {
  }

  lemma GrownShrunk(a: Tables, b: Tables)
    requires Grown(a, b)
    ensures Shrunk(a, b)
  {
  }

  lemma WithinShrunk(a: Tables, b: Tables)
    requires Within(b, a) && forall n :: 0 <= n < |a.gep| - 1 ==> b.gep[n] == a.gep[n]
    ensures Shrunk(a, b)
  {
  }

  function PushScope(t: Tables): Tables {
    Tables(t.binary + [map[]], t.gep + [map[]], t.values + [map[]])
  }

  function PopScope(t: Tables): Tables
    requires t.binary != [] && t.gep != [] && t.values != []
  {
    Tables(t.binary[..|t.binary| - 1], t.gep[..|t.gep| - 1], t.values[..|t.values| - 1])
  }

  /** Scopes are balanced: what remains was there before. */
  lemma PopWithin(t: Tables, u: Tables)
    requires Shrunk(PushScope(t), u)
    ensures u.binary != [] && u.gep != [] && u.values != [] && Within(PopScope(u), t) && PopScope(u).gep == t.gep
  {
    var p := PushScope(t);
    assert forall n :: 0 <= n < |t.binary| ==> p.binary[n] == t.binary[n];
    assert forall n :: 0 <= n < |t.gep| ==> p.gep[n] == t.gep[n];
    assert forall n :: 0 <= n < |t.values| ==> p.values[n] == t.values[n];
  }

  lemma PushScopeSound(f: Interp, code: Code, avail: set<nat>, gone: map<nat, Value>, t: Tables)
    requires Sound(f, code, avail, gone, t)
    ensures Sound(f, code, avail, gone, PushScope(t))
  {
    hide Same, KeySound, Usable;
    var u := PushScope(t);
    forall s, k | s in u.binary && k in s
      ensures KeySound(f, code, avail, k, s[k]) && Usable(s[k], avail, gone)
    {
      assert s in t.binary;
    }
    forall s, i | s in u.gep && i in s
      ensures Same(f, code, avail, Var(i), s[i]) && Usable(s[i], avail, gone) && i in avail && i !in gone && i in code
      ensures code[i].op.Gep?
    {
      assert s in t.gep;
    }
    forall s, v | s in u.values && v in s
      ensures Same(f, code, avail, v, s[v]) && Usable(s[v], avail, gone)
    {
      assert s in t.values;
    }
  }

  lemma NoTables(f: Interp, code: Code, avail: set<nat>, gone: map<nat, Value>)
    ensures Sound(f, code, avail, gone, Tables([], [], []))
  {
  }

  lemma ReadyWhole(f: Interp, code: Code, before: Before, gone: map<nat, Value>, avail: set<nat>, t: Tables)
    requires Commutes(f) && Ordered(code, before) && GoneOk(f, code, before, gone) && Down(before, avail)
    requires Sound(f, code, avail, gone, t) && t.binary != []
    ensures Ready(f, code, before, gone, avail, t)
  {
  }
}
