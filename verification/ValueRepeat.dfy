/** What value numbering finds: binary operations of a block that repeat an earlier one, and binary operations on values
    that some scope knows the result for. */
module ValueRepeat {
  import opened ValueTable
  import opened ValueOrder
  import opened ValueSearch

  /** y does what x does with the operands that they have now: the same operation on the same operands, or on swapped
      ones if it commutes. */
  ghost predicate Repeats(code: Code, gone: map<nat, Value>, x: nat, y: nat) {
    && x in code && y in code && code[x].op.Binary? && code[y].op == code[x].op
    && |code[x].args| == 2 && |code[y].args| == 2
    && var a, b := Resolve(code[x].args[0], gone), Resolve(code[x].args[1], gone);
       var c, d := Resolve(code[y].args[0], gone), Resolve(code[y].args[1], gone);
       (a == c && b == d) || (code[x].op.comm && a == d && b == c)
  }

  /** The same with the operands in the same order: replacing y erases the entry of x. */
  ghost predicate Erases(code: Code, gone: map<nat, Value>, x: nat, y: nat) {
    && IsBinary(code, Var(x)) && IsBinary(code, Var(y)) && code[y].op == code[x].op
    && Resolve(code[x].args[0], gone) == Resolve(code[y].args[0], gone)
    && Resolve(code[x].args[1], gone) == Resolve(code[y].args[1], gone)
  }

  /** Instruction number i of the list is there, and nothing after it up to number k has erased its entry. */
  ghost predicate Stands(code: Code, gone: map<nat, Value>, ds: seq<nat>, i: nat, k: nat) {
    && i < k <= |ds| && IsBinary(code, Var(ds[i])) && ds[i] !in gone
    && forall m :: i < m < k && ds[m] in gone ==> !Erases(code, gone, ds[i], ds[m])
  }

  /** Of the first k instructions whatever repeats one that stands has been replaced. */
  ghost predicate RepeatsGone(code: Code, gone: map<nat, Value>, ds: seq<nat>, k: nat) {
    forall i, j :: 0 <= i < j < k <= |ds| && Stands(code, gone, ds, i, j) && Repeats(code, gone, ds[i], ds[j]) ==>
                     ds[j] in gone
  }

  /** Some scope holds an entry for the operation of x on its present operands. */
  ghost predicate Entered(code: Code, gone: map<nat, Value>, t: Tables, x: nat) {
    IsBinary(code, Var(x)) && exists n :: 0 <= n < |t.binary| && KeyOf(code, gone, x) in t.binary[n]
  }

  ghost predicate Remembered(code: Code, gone: map<nat, Value>, t: Tables, ds: seq<nat>, k: nat) {
    forall i :: 0 <= i < k && Stands(code, gone, ds, i, k) ==> Entered(code, gone, t, ds[i])
  }

  /** The operands of what is available do not change when an instruction that is not available goes. */
  ghost predicate Settled(code: Code, avail: set<nat>, ds: seq<nat>, k: nat) {
    forall i :: 0 <= i < k <= |ds| && IsBinary(code, Var(ds[i])) ==>
                  forall v :: v in code[ds[i]].args && v.Var? ==> v.id in avail
  }

  /** Replacing ds[k] changes no present operand of the first instructions. */
  lemma SameOperands(code: Code, gone: map<nat, Value>, avail: set<nat>, ds: seq<nat>, k: nat, r: Value, i: nat)
    requires k < |ds| && ds[k] !in avail && Settled(code, avail, ds, k + 1) && i <= k && IsBinary(code, Var(ds[i]))
    ensures var more := gone[ds[k] := r];
      && Resolve(code[ds[i]].args[0], more) == Resolve(code[ds[i]].args[0], gone)
      && Resolve(code[ds[i]].args[1], more) == Resolve(code[ds[i]].args[1], gone)
      && KeyOf(code, more, ds[i]) == KeyOf(code, gone, ds[i])
  {
    var x := code[ds[i]];
    assert x.args[0] in x.args && x.args[1] in x.args;
  }

  /** An instruction that repeats one that stands is found. */
  lemma RepeatFound(code: Code, gone: map<nat, Value>, t: Tables, ds: seq<nat>, k: nat, i: nat)
    requires Remembered(code, gone, t, ds, k) && i < k < |ds| && Stands(code, gone, ds, i, k)
    requires Repeats(code, gone, ds[i], ds[k]) && |t.binary| == |t.gep| == |t.values|
    ensures !NoneInside(code, gone, t, 0, Var(ds[k]))
  {
    var x, y := ds[i], ds[k];
    var n: nat :| n < |t.binary| && KeyOf(code, gone, x) in t.binary[n];
    var k, l, s := KeyOf(code, gone, x), KeyOf(code, gone, y), t.binary[n];
    assert l == k || l == Swapped(k);
    assert Swapped(Swapped(k)) == k;
    assert HitAt(code, gone, t, n, Var(y), if l in s then s[l] else s[Swapped(l)]);
  }

  /** More entries forget nothing, erasing another key neither. */
  lemma StillEntered(code: Code, gone: map<nat, Value>, t: Tables, u: Tables, x: nat, z: nat)
    requires Entered(code, gone, t, x) && Kept(t, u)
    ensures Entered(code, gone, u, x)
    ensures !Erases(code, gone, x, z) ==> Entered(code, gone, Deleted(code, gone, u, z), x)
  {
    var k := KeyOf(code, gone, x);
    var n: nat :| n < |t.binary| && k in t.binary[n];
    assert k in u.binary[n];
    if !Erases(code, gone, x, z) {
      assert IsBinary(code, Var(z)) ==> KeyOf(code, gone, z) != k;
      assert k in Deleted(code, gone, u, z).binary[n];
    }
  }

  /** A binary instruction that is looked up, not found and not replaced has been entered. */
  lemma KeptEntered(c: Context, t: Tables, d: nat, lim: Limit)
    requires Fit(c) && Scoped(t) && Var(d) in Pool(c.code) && IsBinary(c.code, Var(d))
    requires NoneInside(c.code, c.gone, t, 0, Var(d))
    requires var s := Look(c, t, Var(d), lim); s.Ended? && s.r == Var(d)
    ensures Entered(c.code, c.gone, Look(c, t, Var(d), lim).t, d)
  {
    hide Pool, FindInstr, OnTable, NoneInside;
    KnowsIs(c, t, Var(d));
    InnerRank(c, t, lim, d);
    var f := FindInstr(c, t, d, Inner(lim, t, d));
    PushedEntered(c, f.t, d);
  }

  lemma PushedEntered(c: Context, t: Tables, d: nat)
    requires Fit(c) && Scoped(t) && IsBinary(c.code, Var(d))
    ensures Entered(c.code, c.gone, PushOwn(c.code, c.gone, t, Var(d)), d)
  {
    assert KeyOf(c.code, c.gone, d) in PushOwn(c.code, c.gone, t, Var(d)).binary[|t.binary| - 1];
  }

  /** What numbering d did, with the tables w after its search: nothing, entering it, or replacing it and erasing its
      key. */
  ghost predicate Numbers(code: Code, gone: map<nat, Value>, more: map<nat, Value>, t: Tables, w: Tables, u: Tables,
      d: nat) {
    if !(d in code && code[d].op.Numbered()) then u == t && more == gone
    else
      && Kept(t, w)
      && if d in more then more == gone[d := more[d]] && u == Deleted(code, gone, w, d)
         else
           && more == gone && u == w
           && (IsBinary(code, Var(d)) ==> Entered(code, gone, w, d) && NoneInside(code, gone, t, 0, Var(d)))
  }

  /** The instructions before ds[k] are available, and it is not. */
  ghost predicate InTurn(code: Code, gone: map<nat, Value>, more: map<nat, Value>, avail: set<nat>, ds: seq<nat>,
      k: nat) {
    && k < |ds| && (forall m :: 0 <= m < k ==> ds[m] in avail) && ds[k] !in avail && Settled(code, avail, ds, k + 1)
    && ds[k] !in gone && (more == gone || (ds[k] in more && more == gone[ds[k] := more[ds[k]]]))
  }

  lemma SameSoFar(code: Code, gone: map<nat, Value>, more: map<nat, Value>, avail: set<nat>, ds: seq<nat>, k: nat,
      i: nat, j: nat)
    requires InTurn(code, gone, more, avail, ds, k) && i <= k && j <= k
    ensures Erases(code, more, ds[i], ds[j]) == Erases(code, gone, ds[i], ds[j])
    ensures IsBinary(code, Var(ds[i])) && IsBinary(code, Var(ds[j])) ==>
              Repeats(code, more, ds[i], ds[j]) == Repeats(code, gone, ds[i], ds[j])
    ensures IsBinary(code, Var(ds[i])) ==> KeyOf(code, more, ds[i]) == KeyOf(code, gone, ds[i])
    ensures i < k ==> (ds[i] in more <==> ds[i] in gone)
  {
    hide Settled;
    if more != gone {
      var r := more[ds[k]];
      if IsBinary(code, Var(ds[i])) { SameOperands(code, gone, avail, ds, k, r, i); }
      if IsBinary(code, Var(ds[j])) { SameOperands(code, gone, avail, ds, k, r, j); }
    }
  }

  lemma StandsSame(code: Code, gone: map<nat, Value>, more: map<nat, Value>, avail: set<nat>, ds: seq<nat>, k: nat,
      i: nat, j: nat)
    requires InTurn(code, gone, more, avail, ds, k) && j <= k && i < k
    ensures Stands(code, more, ds, i, j) ==> Stands(code, gone, ds, i, j)
    ensures Stands(code, more, ds, i, k + 1) ==> Stands(code, gone, ds, i, k)
  {
    hide Settled, Erases, IsBinary;
    forall m | 0 <= m < k
      ensures Erases(code, more, ds[i], ds[m]) == Erases(code, gone, ds[i], ds[m]) && (ds[m] in gone ==> ds[m] in more)
    {
      SameSoFar(code, gone, more, avail, ds, k, i, m);
      SameSoFar(code, gone, more, avail, ds, k, m, m);
    }
    SameSoFar(code, gone, more, avail, ds, k, i, i);
  }

  lemma RemembersNext(code: Code, gone: map<nat, Value>, more: map<nat, Value>, t: Tables, w: Tables, u: Tables,
      avail: set<nat>, ds: seq<nat>, k: nat)
    requires InTurn(code, gone, more, avail, ds, k) && Remembered(code, gone, t, ds, k)
    requires Numbers(code, gone, more, t, w, u, ds[k])
    ensures Remembered(code, more, u, ds, k + 1)
  {
    hide Settled, Erases, Kept, Deleted, NoneInside, KeyOf, InTurn;
    forall i | 0 <= i < k + 1 && Stands(code, more, ds, i, k + 1) ensures Entered(code, more, u, ds[i]) {
      if i < k {
        StandsSame(code, gone, more, avail, ds, k, i, k);
        SameSoFar(code, gone, more, avail, ds, k, i, k);
        if ds[k] in code && code[ds[k]].op.Numbered() { StillEntered(code, gone, t, w, ds[i], ds[k]); }
      }
    }
  }

  lemma RepeatsNext(code: Code, gone: map<nat, Value>, more: map<nat, Value>, t: Tables, w: Tables, u: Tables,
      avail: set<nat>, ds: seq<nat>, k: nat)
    requires InTurn(code, gone, more, avail, ds, k) && Remembered(code, gone, t, ds, k)
    requires Numbers(code, gone, more, t, w, u, ds[k]) && RepeatsGone(code, gone, ds, k)
    requires |t.binary| == |t.gep| == |t.values|
    ensures RepeatsGone(code, more, ds, k + 1)
  {
    hide Settled, Erases, Kept, Deleted, NoneInside, KeyOf, Entered, Remembered;
    forall i, j | 0 <= i < j < k + 1 && Stands(code, more, ds, i, j) && Repeats(code, more, ds[i], ds[j])
      ensures ds[j] in more
    {
      StandsSame(code, gone, more, avail, ds, k, i, j);
      SameSoFar(code, gone, more, avail, ds, k, i, j);
      if j == k { RepeatFound(code, gone, t, ds, k, i); }
    }
  }

  /** Replacing instructions that the list and its operands do not contain changes nothing for the list. */
  lemma RepeatsStay(code: Code, gone: map<nat, Value>, more: map<nat, Value>, seen: set<nat>, ds: seq<nat>)
    requires forall x :: x in gone ==> x in more && more[x] == gone[x]
    requires forall x :: x in more && x !in gone ==> x !in seen
    requires Settled(code, seen, ds, |ds|) && (forall i :: 0 <= i < |ds| ==> ds[i] in seen)
    requires RepeatsGone(code, gone, ds, |ds|)
    ensures RepeatsGone(code, more, ds, |ds|)
  {
    hide Erases;
    forall i | 0 <= i < |ds| && IsBinary(code, Var(ds[i]))
      ensures Resolve(code[ds[i]].args[0], more) == Resolve(code[ds[i]].args[0], gone)
      ensures Resolve(code[ds[i]].args[1], more) == Resolve(code[ds[i]].args[1], gone)
    {
      var x := code[ds[i]];
      assert x.args[0] in x.args && x.args[1] in x.args;
    }
    forall i, j | 0 <= i < |ds| && 0 <= j < |ds|
      ensures Erases(code, more, ds[i], ds[j]) == Erases(code, gone, ds[i], ds[j])
    {
      ErasesSame(code, gone, more, ds[i], ds[j]);
    }
    forall i, j | 0 <= i < j < |ds| && Stands(code, more, ds, i, j) && Repeats(code, more, ds[i], ds[j])
      ensures ds[j] in more
    {
      assert Stands(code, gone, ds, i, j);
    }
  }

  lemma ErasesSame(code: Code, gone: map<nat, Value>, more: map<nat, Value>, x: nat, y: nat)
    requires forall z :: z in [x, y] && IsBinary(code, Var(z)) ==>
      && Resolve(code[z].args[0], more) == Resolve(code[z].args[0], gone)
      && Resolve(code[z].args[1], more) == Resolve(code[z].args[1], gone)
    ensures Erases(code, more, x, y) == Erases(code, gone, x, y)
  {
    assert x in [x, y] && y in [x, y];
  }

  lemma NumberedSo(c: Context, t: Tables, more: map<nat, Value>, u: Tables, d: nat, lim: Limit) returns (w: Tables)
    requires Fit(c) && Scoped(t) && Var(d) in Pool(c.code) && d in c.code && d !in c.gone
    requires !c.code[d].op.Numbered() ==> u == t && more == c.gone
    requires c.code[d].op.Numbered() ==>
               var s := Look(c, t, Var(d), lim);
               && s.Ended? && (!NoneInside(c.code, c.gone, t, 0, Var(d)) ==> d in more)
               && if s.r == Var(d) then more == c.gone && u == s.t
                  else more == c.gone[d := s.r] && u == Deleted(c.code, c.gone, s.t, d)
    ensures Numbers(c.code, c.gone, more, t, w, u, d)
  {
    hide Look, NoneInside, Fit, Pool, Deleted, Kept, Entered;
    w := t;
    if c.code[d].op.Numbered() {
      var s := Look(c, t, Var(d), lim);
      w := s.t;
      LaterParts(c, t, w);
      if s.r == Var(d) && IsBinary(c.code, Var(d)) { KeptEntered(c, t, d, lim); }
    }
  }

  lemma InOrder(code: Code, before: Before, gone: map<nat, Value>, more: map<nat, Value>, avail: set<nat>, ds: seq<nat>,
      k: nat)
    requires Ordered(code, before) && Down(before, avail) && k < |ds| && ds[k] in code && before[ds[k]] == avail
    requires (forall m :: 0 <= m < k ==> ds[m] in avail) && ds[k] !in avail && ds[k] !in gone
    requires more == gone || (ds[k] in more && more == gone[ds[k] := more[ds[k]]])
    ensures InTurn(code, gone, more, avail, ds, k)
  {
    forall i | 0 <= i < k + 1 && IsBinary(code, Var(ds[i]))
      ensures forall v :: v in code[ds[i]].args && v.Var? ==> v.id in avail
    {
      assert ArgsIn(code, ds[i], before[ds[i]]);
    }
  }

  /** Numbering the next instruction of a block keeps both: what stands is remembered, and what repeats it goes. */
  lemma RepeatStep(c: Context, before: Before, avail: set<nat>, t: Tables, more: map<nat, Value>, u: Tables,
      ds: seq<nat>, k: nat, lim: Limit)
    requires Ordered(c.code, before) && Down(before, avail) && k < |ds| && ds[k] in c.code && before[ds[k]] == avail
    requires (forall m :: 0 <= m < k ==> ds[m] in avail) && ds[k] !in avail && ds[k] !in c.gone
    requires Fit(c) && Scoped(t) && Var(ds[k]) in Pool(c.code)
    requires !c.code[ds[k]].op.Numbered() ==> u == t && more == c.gone
    requires c.code[ds[k]].op.Numbered() ==>
               var s := Look(c, t, Var(ds[k]), lim);
               && s.Ended? && (!NoneInside(c.code, c.gone, t, 0, Var(ds[k])) ==> ds[k] in more)
               && if s.r == Var(ds[k]) then more == c.gone && u == s.t
                  else more == c.gone[ds[k] := s.r] && u == Deleted(c.code, c.gone, s.t, ds[k])
    requires Remembered(c.code, c.gone, t, ds, k) && RepeatsGone(c.code, c.gone, ds, k)
    ensures Remembered(c.code, more, u, ds, k + 1) && RepeatsGone(c.code, more, ds, k + 1)
  {
    hide Ordered, Down, Look, NoneInside, Fit, Pool, Deleted, Numbers, InTurn, Remembered, RepeatsGone;
    var w := NumberedSo(c, t, more, u, ds[k], lim);
    InOrder(c.code, before, c.gone, more, avail, ds, k);
    RemembersNext(c.code, c.gone, more, t, w, u, avail, ds, k);
    RepeatsNext(c.code, c.gone, more, t, w, u, avail, ds, k);
  }

  lemma NoRepeatsYet(code: Code, gone: map<nat, Value>, t: Tables, ds: seq<nat>)
    ensures Remembered(code, gone, t, ds, 0) && RepeatsGone(code, gone, ds, 0)
  {
  }

  lemma {:induction false} FirstKeyIs(scopes: seq<map<Key, Value>>, k: Key, n: nat)
    requires n <= |scopes|
    ensures var r := FirstKey(scopes, k, n);
      && (r.Hit? <==> exists m :: n <= m < |scopes| && k in scopes[m])
      && (r.Hit? ==> exists m :: n <= m < |scopes| && k in scopes[m] && r.value == scopes[m][k] &&
                                 forall l :: n <= l < m ==> k !in scopes[l])
    decreases |scopes| - n
  {
    if n < |scopes| { FirstKeyIs(scopes, k, n + 1); }
  }

  /** A binary instruction is found exactly if some scope holds its operation on the values that its operands are read
      as, and the outermost such scope decides. */
  lemma BinaryFinds(c: Context, t: Tables, i: nat, lim: Limit)
    requires Fit(c) && Scoped(t) && i in c.code && c.code[i].op.Binary? && |c.code[i].args| == 2
    requires forall v :: v in Args(c.code, i, c.gone) ==> v in Pool(c.code)
    ensures var s, a := FindInstr(c, t, i, lim), LookAll(c, t, Args(c.code, i, c.gone), [], lim);
      && (s.Ended? <==> a.Ended?)
      && (s.Ended? ==>
            && s.t == a.t && |a.r| == 2
            && (s.r.Hit? <==> exists m :: 0 <= m < |s.t.binary| && Key(a.r[0], a.r[1], c.code[i].op) in s.t.binary[m])
            && (s.r.Hit? ==> exists m ::
                  && 0 <= m < |s.t.binary| && Key(a.r[0], a.r[1], c.code[i].op) in s.t.binary[m]
                  && s.r.value == s.t.binary[m][Key(a.r[0], a.r[1], c.code[i].op)]
                  && forall l :: 0 <= l < m ==> Key(a.r[0], a.r[1], c.code[i].op) !in s.t.binary[l]))
  {
    hide Fit, Pool, LookAll, Later, FirstKey;
    var a := LookAll(c, t, Args(c.code, i, c.gone), [], lim);
    if a.Ended? { FirstKeyIs(a.t.binary, Key(a.r[0], a.r[1], c.code[i].op), 0); }
  }
}
