/** Values with the lists of their uses, and users with the lists of their operands. */
module UseLists {
  /** `user` uses a value as its operand number `no`. */
  datatype Use = Use(user: Node, no: nat)

  /** The operands and use lists of all nodes at one moment. */
  datatype Snap = Snap(ops: map<Node, seq<Node>>, users: map<Node, seq<Use>>)

  ghost predicate Closed(s: Snap) {
    && s.ops.Keys == s.users.Keys
    && (forall u, i :: u in s.ops && 0 <= i < |s.ops[u]| ==> s.ops[u][i] in s.ops)
    && (forall v, x :: v in s.users && x in s.users[v] ==> x.user in s.ops)
  }

  ghost predicate IsOperand(s: Snap, u: Node, i: nat, v: Node)
    requires u in s.ops
  {
    i < |s.ops[u]| && s.ops[u][i] == v
  }

  /** Every use list names exactly the places at which its value is an operand, each once; the uses in `out` are not
      recorded. */
  ghost predicate DualBut(s: Snap, out: set<Use>) {
    Closed(s) && forall v, u, i: nat :: v in s.users && u in s.ops ==> Counted(s, out, v, u, i)
  }

  ghost predicate Counted(s: Snap, out: set<Use>, v: Node, u: Node, i: nat)
    requires v in s.users && u in s.ops
  {
    multiset(s.users[v])[Use(u, i)] == if Use(u, i) !in out && IsOperand(s, u, i, v) then 1 else 0
  }

  ghost predicate Dual(s: Snap) {
    DualBut(s, {})
  }

  /** Operands and use lists agree, and every user counts its operands. */
  ghost predicate Good(s: Snap, nums: map<Node, nat>) {
    Dual(s) && nums.Keys == s.ops.Keys && forall u :: u in s.ops ==> nums[u] == |s.ops[u]|
  }

  /** The uses that the first n operands of u make. */
  ghost function UsesOf(u: Node, n: nat): (r: set<Use>)
    ensures forall x :: x in r ==> x.user == u && x.no < n
    ensures forall i: nat :: i < n ==> Use(u, i) in r
  {
    if n == 0 then {} else UsesOf(u, n - 1) + {Use(u, n - 1)}
  }

  /** The list without the first entry equal to x. */
  function RemoveFirst(s: seq<Use>, x: Use): (r: seq<Use>)
    ensures x !in s ==> r == s
  {
    if s == [] then [] else if s[0] == x then s[1..] else [s[0]] + RemoveFirst(s[1..], x)
  }

  lemma {:induction false} RemoveFirstAt(s: seq<Use>, x: Use, k: nat)
    requires k < |s| && s[k] == x && x !in s[..k]
    ensures RemoveFirst(s, x) == s[..k] + s[k + 1..]
    decreases k
  {
    if k > 0 {
      assert s[0] in s[..k];
      assert s[1..][..k - 1] == s[..k][1..];
      forall y | y in s[1..][..k - 1] ensures y in s[..k] { }
      RemoveFirstAt(s[1..], x, k - 1);
      assert s[1..][k - 1 + 1..] == s[k + 1..];
    }
  }

  lemma {:induction false} RemoveFirstCount(s: seq<Use>, x: Use)
    requires x in s
    ensures multiset(RemoveFirst(s, x)) == multiset(s) - multiset{x}
    decreases s
  {
    assert s == [s[0]] + s[1..];
    if s[0] != x { RemoveFirstCount(s[1..], x); }
  }

  /** The operands without those at the given positions. */
  function Without(ops: seq<Node>, gone: set<nat>, n: nat): seq<Node>
    requires n <= |ops|
  {
    if n == 0 then [] else Without(ops, gone, n - 1) + if n - 1 in gone then [] else [ops[n - 1]]
  }

  lemma {:induction false} RemoveFirstMembers(s: seq<Use>, x: Use)
    ensures forall y :: y in RemoveFirst(s, x) ==> y in s
    decreases s
  {
    if s != [] && s[0] != x { RemoveFirstMembers(s[1..], x); }
  }

  /** The snapshot after operand k of u has been set to v and the use recorded. */
  ghost function Recorded(s: Snap, u: Node, k: nat, v: Node): Snap
    requires u in s.ops && v in s.users && k <= |s.ops[u]|
  {
    var ops := if k < |s.ops[u]| then s.ops[u][k := v] else s.ops[u] + [v];
    Snap(s.ops[u := ops], s.users[v := s.users[v] + [Use(u, k)]])
  }

  /** The snapshot after the record of operand k of u has been removed. */
  ghost function Unrecorded(s: Snap, u: Node, k: nat): Snap
    requires u in s.ops && k < |s.ops[u]| && s.ops[u][k] in s.users
  {
    var v := s.ops[u][k];
    s.(users := s.users[v := RemoveFirst(s.users[v], Use(u, k))])
  }

  /** Setting an operand whose use is not recorded, or adding one behind the last. */
  lemma RecordKeeps(s: Snap, u: Node, k: nat, v: Node, out: set<Use>)
    requires DualBut(s, out) && u in s.ops && v in s.ops && k <= |s.ops[u]| && (k < |s.ops[u]| ==> Use(u, k) in out)
    ensures DualBut(Recorded(s, u, k, v), out - {Use(u, k)})
  {
    var s' := Recorded(s, u, k, v);
    forall w, x, i: nat | w in s'.users && x in s'.ops ensures Counted(s', out - {Use(u, k)}, w, x, i) {
      assert Counted(s, out, w, x, i);
      if w == v { assert multiset(s'.users[v]) == multiset(s.users[v]) + multiset{Use(u, k)}; }
    }
    forall x, i | x in s'.ops && 0 <= i < |s'.ops[x]| ensures s'.ops[x][i] in s'.ops { }
  }

  lemma UnrecordKeeps(s: Snap, u: Node, k: nat, out: set<Use>)
    requires DualBut(s, out) && u in s.ops && k < |s.ops[u]| && Use(u, k) !in out
    ensures s.ops[u][k] in s.users && Use(u, k) in s.users[s.ops[u][k]]
    ensures DualBut(Unrecorded(s, u, k), out + {Use(u, k)})
  {
    var v := s.ops[u][k];
    var s' := Unrecorded(s, u, k);
    assert Counted(s, out, v, u, k);
    assert Use(u, k) in multiset(s.users[v]);
    RemoveFirstCount(s.users[v], Use(u, k));
    RemoveFirstMembers(s.users[v], Use(u, k));
    forall w, x, i: nat | w in s'.users && x in s'.ops ensures Counted(s', out + {Use(u, k)}, w, x, i) {
      assert Counted(s, out, w, x, i);
    }
  }

  /** Dropping the operands of a user without recorded uses. */
  lemma DropKeeps(s: Snap, u: Node)
    requires u in s.ops && DualBut(s, UsesOf(u, |s.ops[u]|))
    ensures Dual(s.(ops := s.ops[u := []]))
  {
    var s' := s.(ops := s.ops[u := []]);
    forall w, x, i: nat | w in s'.users && x in s'.ops ensures Counted(s', {}, w, x, i) {
      assert Counted(s, UsesOf(u, |s.ops[u]|), w, x, i);
    }
  }

  /** The first k uses of `was` have been redirected to v. */
  ghost predicate Redirected(s: Snap, s': Snap, was: Node, v: Node, k: nat) {
    && was in s.users && v in s.users && k <= |s.users[was]| && s'.ops.Keys == s.ops.Keys
    && s'.users == s.users[v := s.users[v] + s.users[was][..k]]
    && (forall u :: u in s.ops ==> |s'.ops[u]| == |s.ops[u]|)
    && forall u, i: nat :: u in s.ops && i < |s.ops[u]| ==>
                             s'.ops[u][i] == if Use(u, i) in s.users[was][..k] then v else s.ops[u][i]
  }

  lemma RedirectStep(s: Snap, s1: Snap, was: Node, v: Node, k: nat)
    requires Dual(s) && Redirected(s, s1, was, v, k) && k < |s.users[was]| && was != v
    ensures var x := s.users[was][k];
      x.user in s1.ops && x.no < |s1.ops[x.user]| && v in s1.users &&
          Redirected(s, Recorded(s1, x.user, x.no, v), was, v, k + 1)
  {
    hide Dual, DualBut;
    var x := s.users[was][k];
    UseIsOperand(s, was, k);
    var list := s.users[was];
    assert list[..k + 1] == list[..k] + [x];
    var s' := Recorded(s1, x.user, x.no, v);
    assert s.users[v] + list[..k + 1] == (s.users[v] + list[..k]) + [x];
    assert x == Use(x.user, x.no);
    assert s'.users == s.users[v := s.users[v] + list[..k + 1]];
  }

  lemma UseIsOperand(s: Snap, v: Node, k: nat)
    requires Dual(s) && v in s.users && k < |s.users[v]|
    ensures var x := s.users[v][k]; x.user in s.ops && IsOperand(s, x.user, x.no, v)
  {
    var x := s.users[v][k];
    assert x in s.users[v] && x in multiset(s.users[v]);
    assert Counted(s, {}, v, x.user, x.no);
  }

  /** A value without uses replaces itself: nothing changes. */
  lemma SelfUnused(s: Snap, s': Snap, v: Node)
    requires v in s.users && s.users[v] == [] && Redirected(s, s', v, v, 0)
    ensures s'.(users := s'.users[v := []]) == s && Substituted(s.ops, s'.ops, v, v)
  {
    assert s.users[v] + s.users[v][..0] == [];
    forall u | u in s.ops ensures s'.ops[u] == s.ops[u] {
      assert forall i: nat :: i < |s.ops[u]| ==> s'.ops[u][i] == s.ops[u][i];
    }
    assert s'.ops == s.ops;
  }

  /** The use list of a value that replaces itself, after n of its entries have been gone through: setting an operand
      records the use once more. */
  function SelfReplaced(users: seq<Use>, n: nat): seq<Use> {
    if n == 0 then users
    else
      var list := SelfReplaced(users, n - 1);
      if n - 1 < |list| then list + [list[n - 1]] else list
  }

  /** Then the end of the list is never reached, except when there is no use. */
  lemma {:induction false} SelfNeverEnds(users: seq<Use>, n: nat)
    ensures if users == [] then SelfReplaced(users, n) == [] else |SelfReplaced(users, n)| == |users| + n
  {
    if n > 0 { SelfNeverEnds(users, n - 1); }
  }

  /** When all uses have been redirected and the old list is cleared, operands and use lists agree again. */
  lemma RedirectAll(s: Snap, nums: map<Node, nat>, s': Snap, was: Node, v: Node)
    requires Good(s, nums) && was in s.users && Redirected(s, s', was, v, |s.users[was]|)
    requires (was != v || s.users[was] == [])
    ensures Substituted(s.ops, s'.ops, was, v) && Good(s'.(users := s'.users[was := []]), nums)
  {
    if was == v {
      SelfUnused(s, s', was);
      return;
    }
    var t := s'.(users := s'.users[was := []]);
    assert s.users[was][..|s.users[was]|] == s.users[was];
    assert multiset(s.users[v] + s.users[was]) == multiset(s.users[v]) + multiset(s.users[was]);
    forall u, i: nat | u in s.ops && i < |s.ops[u]|
      ensures s'.ops[u][i] == if s.ops[u][i] == was then v else s.ops[u][i]
    {
      assert Counted(s, {}, was, u, i);
      assert Use(u, i) in s.users[was] <==> Use(u, i) in multiset(s.users[was]);
    }
    RedirectCounts(s, s', was, v);
    forall u, i | u in t.ops && 0 <= i < |t.ops[u]| ensures t.ops[u][i] in t.ops { }
    forall w, x | w in t.users && x in t.users[w] ensures x.user in t.ops { }
  }

  lemma RedirectCounts(s: Snap, s': Snap, was: Node, v: Node)
    requires Dual(s) && was in s.users && Redirected(s, s', was, v, |s.users[was]|) && was != v
    requires Substituted(s.ops, s'.ops, was, v)
    ensures var t := s'.(users := s'.users[was := []]);
            forall w, x, i: nat :: w in t.users && x in t.ops ==> Counted(t, {}, w, x, i)
  {
    var t := s'.(users := s'.users[was := []]);
    assert s.users[was][..|s.users[was]|] == s.users[was];
    assert multiset(s.users[v] + s.users[was]) == multiset(s.users[v]) + multiset(s.users[was]);
    forall w, x, i: nat | w in t.users && x in t.ops ensures Counted(t, {}, w, x, i) {
      assert Counted(s, {}, w, x, i) && Counted(s, {}, was, x, i) && Counted(s, {}, v, x, i);
    }
  }

  class Node {
    /** `_operands_list`, `_use_number` and `_user_list`. */
    var operands: seq<Node>
    var useNumber: nat
    var users: seq<Use>

    constructor ()
      ensures operands == [] && useNumber == 0 && users == []
    {
      operands, useNumber, users := [], 0, [];
    }

    static ghost function View(all: set<Node>): Snap
      reads all
    {
      Snap(map u | u in all :: u.operands, map v | v in all :: v.users)
    }

    static ghost function Nums(all: set<Node>): map<Node, nat>
      reads all
    {
      map u | u in all :: u.useNumber
    }

    /** s and n are what the nodes hold now. */
    static ghost predicate Holds(all: set<Node>, s: Snap, n: map<Node, nat>)
      reads all
    {
      && s.ops.Keys == all && s.users.Keys == all && n.Keys == all
      && forall x :: x in all ==> x.operands == s.ops[x] && x.users == s.users[x] && x.useNumber == n[x]
    }

    static lemma ViewHolds(all: set<Node>)
      ensures Holds(all, View(all), Nums(all))
    {
    }

    static lemma ViewIs(all: set<Node>, s: Snap, n: map<Node, nat>)
      requires Holds(all, s, n)
      ensures View(all) == s && Nums(all) == n
    {
    }

    ghost predicate Valid(all: set<Node>)
      reads this, all
    {
      this in all && Good(View(all), Nums(all))
    }

    method AddUse(user: Node, no: nat, ghost all: set<Node>)
      requires this in all
      modifies this`users
      ensures users == old(users) + [Use(user, no)]
      ensures View(all) == old(View(all)).(users := old(View(all)).users[this := users]) && Nums(all) == old(Nums(all))
    {
      hide View, Nums;
      ViewHolds(all);
      ghost var s, n := View(all), Nums(all);
      users := users + [Use(user, no)];
      ViewIs(all, s.(users := s.users[this := users]), n);
    }

    /** Removes the record of one use. */
    method RemoveUse(user: Node, no: nat, ghost all: set<Node>)
      requires this in all && Use(user, no) in users
      modifies this`users
      ensures users == RemoveFirst(old(users), Use(user, no))
      ensures View(all) == old(View(all)).(users := old(View(all)).users[this := users]) && Nums(all) == old(Nums(all))
    {
      hide View, Nums;
      ViewHolds(all);
      ghost var s, n := View(all), Nums(all);
      var k := 0;
      while users[k] != Use(user, no)
        invariant 0 <= k < |users| && users == old(users) && Use(user, no) !in users[..k]
        invariant Use(user, no) in users[k..]
        decreases |users| - k
      {
        assert users[k..] == [users[k]] + users[k + 1..];
        assert users[..k + 1] == users[..k] + [users[k]];
        k := k + 1;
      }
      RemoveFirstAt(users, Use(user, no), k);
      users := users[..k] + users[k + 1..];
      ViewIs(all, s.(users := s.users[this := users]), n);
    }

    method SetOperand(no: nat, v: Node, ghost all: set<Node>)
      requires this in all && v in all && no < |operands|
      modifies this`operands, v`users
      ensures operands == old(operands)[no := v] && View(all) == Recorded(old(View(all)), this, no, v)
      ensures Nums(all) == old(Nums(all))
    {
      hide View, Nums;
      ViewHolds(all);
      ghost var s, n := View(all), Nums(all);
      operands := operands[no := v];
      ViewIs(all, s.(ops := s.ops[this := operands]), n);
      v.AddUse(this, no, all);
    }

    method AddOperand(v: Node, ghost all: set<Node>)
      requires Valid(all) && v in all
      modifies this`operands, this`useNumber, v`users
      ensures Valid(all) && operands == old(operands) + [v]
      ensures View(all).ops == old(View(all)).ops[this := operands]
    {
      hide View, Nums, Good, Holds;
      ghost var s, n := View(all), Nums(all);
      HoldsAt(all, this);
      HoldsAt(all, v);
      AddKeeps(s, n, this, v);
      CountIs(s, n, this);
      PushOperand(v, all);
      v.AddUse(this, useNumber, all);
      CountUp(all);
    }

    /** Appends to the operand list only. */
    method PushOperand(v: Node, ghost all: set<Node>)
      requires this in all
      modifies this`operands
      ensures operands == old(operands) + [v] && Nums(all) == old(Nums(all))
      ensures View(all) == old(View(all)).(ops := old(View(all)).ops[this := operands])
    {
      hide View, Nums;
      ViewHolds(all);
      ghost var s, n := View(all), Nums(all);
      operands := operands + [v];
      ViewIs(all, s.(ops := s.ops[this := operands]), n);
    }

    method CountUp(ghost all: set<Node>)
      requires this in all
      modifies this`useNumber
      ensures useNumber == old(useNumber) + 1 && View(all) == old(View(all))
      ensures Nums(all) == old(Nums(all))[this := useNumber]
    {
      hide View, Nums;
      ViewHolds(all);
      ghost var s, n := View(all), Nums(all);
      useNumber := useNumber + 1;
      ViewIs(all, s, n[this := useNumber]);
    }

    /** Sets the operand list to the empty one and nothing else. */
    method EmptyOperands(ghost all: set<Node>)
      requires this in all
      modifies this`operands
      ensures operands == [] && Nums(all) == old(Nums(all))
      ensures View(all) == old(View(all)).(ops := old(View(all)).ops[this := []])
    {
      hide View, Nums;
      ViewHolds(all);
      ghost var s, n := View(all), Nums(all);
      operands := [];
      ViewIs(all, s.(ops := s.ops[this := []]), n);
    }

    method EmptyUsers(ghost all: set<Node>)
      requires this in all
      modifies this`users
      ensures users == [] && Nums(all) == old(Nums(all))
      ensures View(all) == old(View(all)).(users := old(View(all)).users[this := []])
    {
      hide View, Nums;
      ViewHolds(all);
      ghost var s, n := View(all), Nums(all);
      users := [];
      ViewIs(all, s.(users := s.users[this := []]), n);
    }

    method CountZero(ghost all: set<Node>)
      requires this in all
      modifies this`useNumber
      ensures useNumber == 0 && View(all) == old(View(all)) && Nums(all) == old(Nums(all))[this := 0]
    {
      hide View, Nums;
      ViewHolds(all);
      ghost var s, n := View(all), Nums(all);
      useNumber := 0;
      ViewIs(all, s, n[this := 0]);
    }

    static lemma HoldsAt(all: set<Node>, x: Node)
      requires x in all
      ensures View(all).ops.Keys == all && View(all).users.Keys == all && Nums(all).Keys == all
      ensures View(all).ops[x] == x.operands && View(all).users[x] == x.users && Nums(all)[x] == x.useNumber
    {
    }

    /** Replaces one operand. */
    method ChangeOperand(index: nat, newVal: Node, ghost all: set<Node>)
      requires Valid(all) && newVal in all && index < useNumber
      modifies all
      ensures Valid(all) && index < |old(operands)| && operands == old(operands)[index := newVal]
      ensures View(all).ops == old(View(all)).ops[this := operands] && Nums(all) == old(Nums(all))
    {
      hide View, Nums, Good;
      ghost var s, n := View(all), Nums(all);
      HoldsAt(all, this);
      ChangeReady(s, n, this, index, newVal);
      var was := operands[index];
      HoldsAt(all, was);
      was.RemoveUse(this, index, all);
      assert View(all) == Unrecorded(s, this, index);
      HoldsAt(all, this);
      SetOperand(index, newVal, all);
      HoldsAt(all, this);
    }

    /** Removes the records of all uses that this makes; the operands themselves stay. */
    method RemoveUseOps(ghost all: set<Node>)
      requires this in all && Dual(View(all))
      modifies all
      ensures useNumber == 0 && View(all).ops == old(View(all)).ops && operands == old(operands) &&
          DualBut(View(all), UsesOf(this, |operands|))
      ensures Nums(all) == old(Nums(all))[this := 0]
    {
      hide DualBut, View, Nums;
      ghost var s := View(all);
      HoldsAt(all, this);
      for i := 0 to |operands|
        invariant operands == old(operands) && View(all).ops == s.ops && DualBut(View(all), UsesOf(this, i))
        invariant Nums(all) == old(Nums(all))
      {
        ghost var s1 := View(all);
        HoldsAt(all, this);
        UnrecordKeeps(s1, this, i, UsesOf(this, i));
        InsideOps(s1, UsesOf(this, i), this, i);
        HoldsAt(all, operands[i]);
        operands[i].RemoveUse(this, i, all);
        assert View(all) == Unrecorded(s1, this, i);
        HoldsAt(all, this);
      }
      CountZero(all);
    }

    /** Forgets the operands and the records of their uses. */
    method Drop(ghost all: set<Node>)
      requires this in all && Dual(View(all)) && Others(View(all), Nums(all), this)
      modifies all
      ensures Valid(all) && operands == [] && View(all).ops == old(View(all)).ops[this := []]
    {
      hide DualBut, Dual, View, Nums;
      ghost var s, n := View(all), Nums(all);
      RemoveUseOps(all);
      ghost var s1 := View(all);
      HoldsAt(all, this);
      DropKeeps(s1, this);
      DropNums(s, n, s1, this);
      EmptyOperands(all);
    }

    /** Takes the operands at the positions in gone out by adding the others again. */
    method Readd(gone: set<nat>, ghost all: set<Node>)
      requires Valid(all)
      modifies all
      ensures Valid(all) && operands == Without(old(operands), gone, |old(operands)|)
      ensures View(all).ops == old(View(all)).ops[this := operands]
    {
      hide Good, View, Nums, Others, Dual, Without;
      ghost var s, n := View(all), Nums(all);
      WithoutNothing(operands, gone);
      var ops := operands;
      HoldsAt(all, this);
      GoodParts(s, n, this);
      Drop(all);
      for i := 0 to |ops|
        invariant Valid(all) && operands == Without(ops, gone, i) && View(all).ops == s.ops[this := operands]
      {
        WithoutStep(ops, gone, i);
        if i !in gone {
          ghost var before := operands;
          HoldsAt(all, this);
          AddOperand(ops[i], all);
          UpdateTwice(s.ops, this, before, operands);
        }
      }
    }

    method RmOperand(index: nat, ghost all: set<Node>)
      requires Valid(all)
      modifies all
      ensures Valid(all) && operands == Without(old(operands), {index}, |old(operands)|)
      ensures View(all).ops == old(View(all)).ops[this := operands]
    {
      Readd({index}, all);
    }

    method RmOperands(i1: nat, i2: nat, ghost all: set<Node>)
      requires Valid(all)
      modifies all
      ensures Valid(all) && operands == Without(old(operands), {i1, i2}, |old(operands)|)
      ensures View(all).ops == old(View(all)).ops[this := operands]
    {
      Readd({i1, i2}, all);
    }

    method ClearOperands(ghost all: set<Node>)
      requires Valid(all)
      modifies all
      ensures Valid(all) && operands == [] && View(all).ops == old(View(all)).ops[this := []]
    {
      hide Good, View, Nums, Others;
      HoldsAt(all, this);
      GoodParts(View(all), Nums(all), this);
      CountZero(all);
      Drop(all);
    }

    /** Makes every user of this use newVal instead. A value with a use that replaces itself is gone through for ever,
        as SelfNeverEnds says. */
    method ReplaceAllUse(newVal: Node, ghost all: set<Node>)
      requires Valid(all) && newVal in all && (newVal != this || users == [])
      modifies all
      ensures Valid(all) && users == [] && Substituted(old(View(all)).ops, View(all).ops, this, newVal)
    {
      hide Good, Redirected, Substituted, View, Nums, Others;
      ghost var s, n := View(all), Nums(all);
      HoldsAt(all, this);
      GoodParts(s, n, this);
      RedirectBegins(s, this, newVal);
      for k := 0 to |users|
        invariant Redirected(s, View(all), this, newVal, k) && users == s.users[this] && Nums(all) == n
      {
        ghost var s1 := View(all);
        var use := users[k];
        RedirectStep(s, s1, this, newVal, k);
        HoldsAt(all, use.user);
        HoldsAt(all, this);
        use.user.SetOperand(use.no, newVal, all);
        HoldsAt(all, this);
      }
      RedirectAll(s, n, View(all), this, newVal);
      HoldsAt(all, this);
      EmptyUsers(all);
    }
  }

  /** Every operand `was` has become v, the others are unchanged. */
  ghost predicate Substituted(ops: map<Node, seq<Node>>, ops': map<Node, seq<Node>>, was: Node, v: Node) {
    && ops'.Keys == ops.Keys && (forall u :: u in ops ==> |ops'[u]| == |ops[u]|)
    && forall u, i: nat :: u in ops && i < |ops[u]| ==> ops'[u][i] == if ops[u][i] == was then v else ops[u][i]
  }

  /** Every user but u counts its operands. */
  ghost predicate Others(s: Snap, nums: map<Node, nat>, u: Node) {
    nums.Keys == s.ops.Keys && forall x :: x in s.ops && x != u ==> nums[x] == |s.ops[x]|
  }

  lemma GoodParts(s: Snap, nums: map<Node, nat>, u: Node)
    requires Good(s, nums)
    ensures Dual(s) && s.users.Keys == s.ops.Keys && (u in s.ops ==> Others(s, nums, u) && Others(s, nums[u := 0], u))
    ensures u in s.ops ==> forall i :: 0 <= i < |s.ops[u]| ==> s.ops[u][i] in s.ops
  {
  }

  lemma DropNums(s: Snap, nums: map<Node, nat>, s1: Snap, u: Node)
    requires Others(s, nums, u) && u in s.ops && s1.ops == s.ops && Dual(s1.(ops := s1.ops[u := []]))
    ensures Good(s1.(ops := s1.ops[u := []]), nums[u := 0])
  {
    hide Dual;
  }

  lemma AddKeeps(s: Snap, nums: map<Node, nat>, u: Node, v: Node)
    requires Good(s, nums) && u in s.ops && v in s.ops
    ensures v in s.users && Good(Recorded(s, u, |s.ops[u]|, v), nums[u := nums[u] + 1])
  {
    hide DualBut;
    RecordKeeps(s, u, |s.ops[u]|, v, {});
    GoodParts(s, nums, u);
    assert {} - {Use(u, |s.ops[u]|)} == {};
  }

  lemma ChangeReady(s: Snap, nums: map<Node, nat>, u: Node, k: nat, v: Node)
    requires Good(s, nums) && u in s.ops && v in s.ops && k < nums[u]
    ensures k < |s.ops[u]| && s.ops[u][k] in s.ops && s.ops[u][k] in s.users && Use(u, k) in s.users[s.ops[u][k]]
    ensures var s1 := Unrecorded(s, u, k); v in s1.users && Good(Recorded(s1, u, k, v), nums)
  {
    hide DualBut;
    UnrecordKeeps(s, u, k, {});
    var s1 := Unrecorded(s, u, k);
    GoodParts(s, nums, u);
    RecordKeeps(s1, u, k, v, {} + {Use(u, k)});
    assert {} + {Use(u, k)} - {Use(u, k)} == {};
  }

  lemma UpdateTwice(m: map<Node, seq<Node>>, u: Node, a: seq<Node>, b: seq<Node>)
    ensures m[u := a][u := b] == m[u := b]
  {
  }

  lemma WithoutNothing(ops: seq<Node>, gone: set<nat>)
    ensures Without(ops, gone, 0) == []
  {
  }

  lemma WithoutStep(ops: seq<Node>, gone: set<nat>, i: nat)
    requires i < |ops|
    ensures Without(ops, gone, i + 1) == Without(ops, gone, i) + if i in gone then [] else [ops[i]]
  {
  }

  lemma CountIs(s: Snap, nums: map<Node, nat>, u: Node)
    requires Good(s, nums) && u in s.ops
    ensures u in nums && nums[u] == |s.ops[u]| && s.users.Keys == s.ops.Keys
  {
  }

  lemma InsideOps(s: Snap, out: set<Use>, u: Node, i: nat)
    requires DualBut(s, out) && u in s.ops && i < |s.ops[u]|
    ensures s.ops[u][i] in s.ops
  {
  }

  lemma RedirectBegins(s: Snap, was: Node, v: Node)
    requires Dual(s) && was in s.ops && v in s.ops
    ensures Redirected(s, s, was, v, 0)
  {
    assert s.users[v] + s.users[was][..0] == s.users[v];
  }
}
