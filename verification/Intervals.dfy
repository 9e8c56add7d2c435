/** Live intervals and registers that hold several of them at different times. */
module Intervals {
  datatype Kind = ArgVar | CallVal | GlobalVar | ImmVar | LocalVar

  /** The value v is live from st to ed; `specific` is the register it is bound to, or its number among the stack
      arguments. */
  datatype Interval = Interval(st: int, ed: int, v: nat, kind: Kind, isFloat: bool, specific: nat, spilled: bool,
      isAllocated: bool, size: nat)

  type Register = seq<Interval>
  type Bank = seq<Register>

  predicate Valid(x: Interval) {
    x.st <= x.ed
  }

  predicate Before(x: Interval, y: Interval) {
    x.ed < y.st
  }

  predicate LiveAt(x: Interval, t: int) {
    x.st <= t <= x.ed
  }

  /** Some point lies in both intervals. */
  ghost predicate Overlap(x: Interval, y: Interval) {
    exists t :: LiveAt(x, t) && LiveAt(y, t)
  }

  lemma OverlapIs(x: Interval, y: Interval)
    requires Valid(x) && Valid(y)
    ensures Overlap(x, y) <==> !Before(x, y) && !Before(y, x)
  {
    if !Before(x, y) && !Before(y, x) {
      var t := if x.st <= y.st then y.st else x.st;
      assert LiveAt(x, t) && LiveAt(y, t);
    }
  }

  /** The intervals of a register are sorted and no two of them share a point. */
  ghost predicate Packed(reg: Register) {
    && (forall i :: 0 <= i < |reg| ==> Valid(reg[i]))
    && (forall i, j :: 0 <= i < j < |reg| ==> Before(reg[i], reg[j]))
  }

  ghost predicate Fits(reg: Register, x: Interval) {
    forall i :: 0 <= i < |reg| ==> !Overlap(reg[i], x)
  }

  /** x inserted before the first interval that lies behind it. */
  function Insert(reg: Register, x: Interval): Register {
    if reg == [] || Before(x, reg[0]) then [x] + reg else [reg[0]] + Insert(reg[1..], x)
  }

  lemma {:induction false} InsertAt(reg: Register, x: Interval, k: nat)
    requires Packed(reg) && Valid(x) && k <= |reg|
    requires (forall i :: 0 <= i < k ==> Before(reg[i], x)) && (k < |reg| ==> Before(x, reg[k]))
    ensures Insert(reg, x) == reg[..k] + [x] + reg[k..]
    decreases k
  {
    if k > 0 {
      InsertAt(reg[1..], x, k - 1);
      assert reg[..k] == [reg[0]] + reg[1..][..k - 1] && reg[1..][k - 1..] == reg[k..];
      assert Before(reg[0], x);
    }
  }

  /** Inserting an interval that fits keeps a register sorted and disjoint and adds just that interval. */
  lemma {:induction false} InsertPacks(reg: Register, x: Interval)
    requires Packed(reg) && Valid(x) && Fits(reg, x)
    ensures Packed(Insert(reg, x)) && multiset(Insert(reg, x)) == multiset(reg) + multiset{x}
    decreases reg
  {
    if reg == [] {
    } else if Before(x, reg[0]) {
      FrontPacks(reg, x);
    } else {
      OverlapIs(reg[0], x);
      var rest := reg[1..];
      InsertPacks(rest, x);
      assert reg == [reg[0]] + rest;
      InsertMembers(rest, x);
      FrontPacks(Insert(rest, x), reg[0]);
    }
  }

  lemma FrontPacks(reg: Register, x: Interval)
    requires Packed(reg) && Valid(x)
    requires (forall y :: y in reg ==> Before(x, y)) || (reg != [] && Before(x, reg[0]))
    ensures Packed([x] + reg)
  {
  }

  lemma {:induction false} InsertMembers(reg: Register, x: Interval)
    ensures forall y :: y in Insert(reg, x) <==> y in reg || y == x
    decreases reg
  {
    if reg != [] && !Before(x, reg[0]) {
      InsertMembers(reg[1..], x);
      assert reg == [reg[0]] + reg[1..];
    }
  }

  /** Fitting between two neighbours. */
  lemma FitsBetween(reg: Register, x: Interval, k: nat)
    requires Packed(reg) && Valid(x) && k <= |reg|
    requires k > 0 ==> Before(reg[k - 1], x)
    requires k < |reg| ==> Before(x, reg[k])
    ensures Fits(reg, x) && Insert(reg, x) == reg[..k] + [x] + reg[k..]
  {
    forall i | 0 <= i < |reg| ensures !Overlap(reg[i], x) && (i < k ==> Before(reg[i], x)) {
      OverlapIs(reg[i], x);
      if i < k - 1 { assert Before(reg[i], reg[k - 1]); }
      if i > k { assert Before(reg[k], reg[i]); }
    }
    InsertAt(reg, x, k);
  }

  /** The first register from i on into which x fits. */
  ghost function FirstFit(bank: Bank, x: Interval, i: nat): (k: nat)
    requires i <= |bank|
    ensures i <= k <= |bank|
    decreases |bank| - i
  {
    if i == |bank| || Fits(bank[i], x) then i else FirstFit(bank, x, i + 1)
  }

  lemma {:induction false} FirstFitIs(bank: Bank, x: Interval, i: nat, k: nat)
    requires i <= k <= |bank| && (forall j :: i <= j < k ==> !Fits(bank[j], x)) && (k < |bank| ==> Fits(bank[k], x))
    ensures FirstFit(bank, x, i) == k
    decreases k - i
  {
    if i < k { FirstFitIs(bank, x, i + 1, k); }
  }

  /** Where an interval was put. */
  datatype Place = Place(itv: Interval, reg: nat)

  datatype Alloc = Alloc(ints: Bank, floats: Bank, v2reg: map<nat, seq<Place>>)

  function BankOf(a: Alloc, isFloat: bool): Bank {
    if isFloat then a.floats else a.ints
  }

  function WithBank(a: Alloc, isFloat: bool, bank: Bank): Alloc {
    if isFloat then a.(floats := bank) else a.(ints := bank)
  }

  function Recorded(v2reg: map<nat, seq<Place>>, x: Interval, reg: nat): map<nat, seq<Place>> {
    v2reg[x.v := (if x.v in v2reg then v2reg[x.v] else []) + [Place(x, reg)]]
  }

  /** Puts x into register k, at its place in the order of time. */
  function PutIn(a: Alloc, x: Interval, k: nat): Alloc
    requires k < |BankOf(a, x.isFloat)|
  {
    var bank := BankOf(a, x.isFloat);
    WithBank(a, x.isFloat, bank[k := Insert(bank[k], x)]).(v2reg := Recorded(a.v2reg, x, k))
  }

  /** One step of placement: call intervals go to their register, arguments are placed already, others go to the first
      fit. */
  ghost function PlaceOne(a: Alloc, x: Interval): Alloc {
    var bank := BankOf(a, x.isFloat);
    if x.kind == CallVal then
      if x.specific < |bank| then WithBank(a, x.isFloat, bank[x.specific := bank[x.specific] + [x]]) else a
    else if x.kind == ArgVar then a
    else
      var k := FirstFit(bank, x, 0);
      if k < |bank| then PutIn(a, x, k) else a
  }

  ghost function PlaceAll(a: Alloc, live: seq<Interval>): Alloc {
    if live == [] then a else PlaceOne(PlaceAll(a, live[..|live| - 1]), live[|live| - 1])
  }

  ghost predicate AllPacked(a: Alloc) {
    && (forall i :: 0 <= i < |a.ints| ==> Packed(a.ints[i]))
    && (forall i :: 0 <= i < |a.floats| ==> Packed(a.floats[i]))
  }

  /** Call intervals come first; those of one register follow each other and what the register held before. */
  ghost predicate CallsFirst(a: Alloc, live: seq<Interval>) {
    && (forall i :: 0 <= i < |live| ==> Valid(live[i]))
    && (forall i, j :: 0 <= i < j < |live| && live[j].kind == CallVal ==> live[i].kind == CallVal)
    && (forall i, j ::
          && 0 <= i < j < |live| && live[j].kind == CallVal
          && live[i].isFloat == live[j].isFloat && live[i].specific == live[j].specific ==>
            Before(live[i], live[j]))
    && (forall i :: 0 <= i < |live| && live[i].kind == CallVal ==>
          live[i].specific < |BankOf(a, live[i].isFloat)| &&
              forall y :: y in BankOf(a, live[i].isFloat)[live[i].specific] ==> Before(y, live[i]))
  }

  lemma CallsFirstPrefix(a: Alloc, live: seq<Interval>, n: nat)
    requires CallsFirst(a, live) && n <= |live|
    ensures CallsFirst(a, live[..n])
  {
  }

  /** While calls are placed a register holds what it held before and the calls bound to it. */
  lemma {:induction false} CallContents(a: Alloc, live: seq<Interval>, isFloat: bool, r: nat, y: Interval)
    requires CallsFirst(a, live) && forall i :: 0 <= i < |live| ==> live[i].kind == CallVal
    requires r < |BankOf(a, isFloat)|
    ensures |BankOf(PlaceAll(a, live), isFloat)| == |BankOf(a, isFloat)|
    ensures y in BankOf(PlaceAll(a, live), isFloat)[r] ==>
              || y in BankOf(a, isFloat)[r]
              || exists i :: 0 <= i < |live| && live[i] == y && y.isFloat == isFloat && y.specific == r
    decreases |live|
  {
    if live != [] {
      var n := |live| - 1;
      var x := live[n];
      CallsFirstPrefix(a, live, n);
      CallContents(a, live[..n], isFloat, r, y);
      var a1 := PlaceAll(a, live[..n]);
      if y in BankOf(a1, isFloat)[r] && y !in BankOf(a, isFloat)[r] {
        var i :| 0 <= i < n && live[..n][i] == y && y.isFloat == isFloat && y.specific == r;
        assert live[i] == y;
      }
    }
  }

  lemma {:induction false} PlaceAllSizes(a: Alloc, live: seq<Interval>)
    ensures |PlaceAll(a, live).ints| == |a.ints| && |PlaceAll(a, live).floats| == |a.floats|
    decreases |live|
  {
    if live != [] { PlaceAllSizes(a, live[..|live| - 1]); }
  }

  lemma PutInPacks(a: Alloc, x: Interval, k: nat)
    requires AllPacked(a) && Valid(x) && k < |BankOf(a, x.isFloat)| && Fits(BankOf(a, x.isFloat)[k], x)
    ensures AllPacked(PutIn(a, x, k))
  {
    hide Packed, Fits;
    InsertPacks(BankOf(a, x.isFloat)[k], x);
  }

  lemma {:induction false} FirstFitFits(bank: Bank, x: Interval, i: nat)
    requires i <= |bank|
    ensures var k := FirstFit(bank, x, i); (k < |bank| ==> Fits(bank[k], x)) && forall j :: i <= j < k ==>
                                             !Fits(bank[j], x)
    decreases |bank| - i
  {
    if i < |bank| && !Fits(bank[i], x) { FirstFitFits(bank, x, i + 1); }
  }

  lemma PushPacks(reg: Register, x: Interval)
    requires Packed(reg) && Valid(x) && forall y :: y in reg ==> Before(y, x)
    ensures Packed(reg + [x])
  {
  }

  /** The next interval is no earlier than anything in the register that it is bound to. */
  ghost predicate NextOk(a: Alloc, x: Interval) {
    Valid(x) && (x.kind == CallVal ==>
      x.specific < |BankOf(a, x.isFloat)| && forall y :: y in BankOf(a, x.isFloat)[x.specific] ==> Before(y, x))
  }

  lemma LastIsOk(a: Alloc, live: seq<Interval>)
    requires CallsFirst(a, live) && live != []
    ensures NextOk(PlaceAll(a, live[..|live| - 1]), live[|live| - 1])
  {
    var n := |live| - 1;
    var x, before := live[n], live[..n];
    CallsFirstPrefix(a, live, n);
    PlaceAllSizes(a, before);
    if x.kind == CallVal {
      forall y | y in BankOf(PlaceAll(a, before), x.isFloat)[x.specific] ensures Before(y, x) {
        CallContents(a, before, x.isFloat, x.specific, y);
        if y !in BankOf(a, x.isFloat)[x.specific] {
          var i :| 0 <= i < n && before[i] == y && y.isFloat == x.isFloat && y.specific == x.specific;
          assert live[i] == y;
        }
      }
    }
  }

  lemma PlaceOnePacks(a: Alloc, x: Interval)
    requires AllPacked(a) && NextOk(a, x)
    ensures AllPacked(PlaceOne(a, x))
  {
    hide Packed, Fits, FirstFit, PutIn;
    var bank := BankOf(a, x.isFloat);
    if x.kind == CallVal {
      PushPacks(bank[x.specific], x);
    } else if x.kind != ArgVar {
      FirstFitFits(bank, x, 0);
      var k := FirstFit(bank, x, 0);
      if k < |bank| { PutInPacks(a, x, k); }
    }
  }

  /** Every register stays sorted and disjoint through the whole placement. */
  lemma {:induction false} PlacementPacks(a: Alloc, live: seq<Interval>)
    requires AllPacked(a) && CallsFirst(a, live)
    ensures AllPacked(PlaceAll(a, live))
    decreases |live|
  {
    hide AllPacked, CallsFirst, NextOk, PlaceOne;
    if live != [] {
      var n := |live| - 1;
      CallsFirstPrefix(a, live, n);
      PlacementPacks(a, live[..n]);
      LastIsOk(a, live);
      PlaceOnePacks(PlaceAll(a, live[..n]), live[n]);
    }
  }

  lemma NoOverlap(reg: Register, i: nat, j: nat)
    requires Packed(reg) && i < |reg| && j < |reg| && i != j
    ensures !Overlap(reg[i], reg[j])
  {
    OverlapIs(reg[i], reg[j]);
  }

  /** Two intervals of a bank with a common point never share a register. */
  lemma LiveTogetherApart(a: Alloc, isFloat: bool, r: nat, i: nat, s: nat, j: nat, t: int)
    requires AllPacked(a) && r < |BankOf(a, isFloat)| && s < |BankOf(a, isFloat)|
    requires i < |BankOf(a, isFloat)[r]| && j < |BankOf(a, isFloat)[s]| && (r, i) != (s, j)
    requires var x, y := BankOf(a, isFloat)[r][i], BankOf(a, isFloat)[s][j]; x.st <= t <= x.ed && y.st <= t <= y.ed
    ensures r != s
  {
    if r == s {
      NoOverlap(BankOf(a, isFloat)[r], i, j);
      assert LiveAt(BankOf(a, isFloat)[r][i], t) && LiveAt(BankOf(a, isFloat)[s][j], t);
    }
  }

  /** No register from `first` on is skipped: below a used one all are used. */
  ghost predicate NoGaps(bank: Bank, first: nat) {
    forall i, j :: first <= i < j < |bank| && bank[j] != [] ==> bank[i] != []
  }

  /** Registers that only overflow uses are used one after the other. */
  lemma {:induction false} PlacementHasNoGaps(a: Alloc, live: seq<Interval>, isFloat: bool, first: nat)
    requires NoGaps(BankOf(a, isFloat), first)
    requires forall i :: 0 <= i < |live| && live[i].kind == CallVal && live[i].isFloat == isFloat ==>
                           live[i].specific < first
    ensures NoGaps(BankOf(PlaceAll(a, live), isFloat), first)
    decreases |live|
  {
    if live != [] {
      var n := |live| - 1;
      var x := live[n];
      PlacementHasNoGaps(a, live[..n], isFloat, first);
      var a1 := PlaceAll(a, live[..n]);
      var bank := BankOf(a1, isFloat);
      if x.kind != CallVal && x.kind != ArgVar && x.isFloat == isFloat {
        FirstFitFits(bank, x, 0);
        var k := FirstFit(bank, x, 0);
        if k < |bank| {
          InsertMembers(bank[k], x);
          assert x in Insert(bank[k], x);
        }
      }
    }
  }

  /** Every place recorded for a value names a register that holds that interval of it. */
  ghost predicate RecordsHold(a: Alloc) {
    forall v, i :: v in a.v2reg && 0 <= i < |a.v2reg[v]| ==>
      var p := a.v2reg[v][i];
      p.itv.v == v && p.reg < |BankOf(a, p.itv.isFloat)| && p.itv in BankOf(a, p.itv.isFloat)[p.reg]
  }

  /** Nothing leaves a register once it is there. */
  lemma PlaceOneKeeps(a: Alloc, x: Interval, isFloat: bool, r: nat, y: Interval)
    requires r < |BankOf(a, isFloat)| && y in BankOf(a, isFloat)[r]
    ensures r < |BankOf(PlaceOne(a, x), isFloat)| && y in BankOf(PlaceOne(a, x), isFloat)[r]
  {
    var bank := BankOf(a, x.isFloat);
    if x.kind != CallVal && x.kind != ArgVar {
      var k := FirstFit(bank, x, 0);
      if k < |bank| { InsertMembers(bank[k], x); }
    }
  }

  lemma RecordStep(a: Alloc, x: Interval)
    requires RecordsHold(a)
    ensures RecordsHold(PlaceOne(a, x))
  {
    hide FirstFit;
    var a' := PlaceOne(a, x);
    var bank := BankOf(a, x.isFloat);
    forall v, i | v in a'.v2reg && 0 <= i < |a'.v2reg[v]|
      ensures var p := a'.v2reg[v][i];
        p.itv.v == v && p.reg < |BankOf(a', p.itv.isFloat)| && p.itv in BankOf(a', p.itv.isFloat)[p.reg]
    {
      var p := a'.v2reg[v][i];
      if v in a.v2reg && i < |a.v2reg[v]| {
        assert p == a.v2reg[v][i];
        PlaceOneKeeps(a, x, p.itv.isFloat, p.reg, p.itv);
      } else {
        var k := FirstFit(bank, x, 0);
        InsertMembers(bank[k], x);
      }
    }
  }

  lemma {:induction false} RecordsAreTrue(a: Alloc, live: seq<Interval>)
    requires RecordsHold(a)
    ensures RecordsHold(PlaceAll(a, live))
    decreases |live|
  {
    if live != [] {
      var n := |live| - 1;
      RecordsAreTrue(a, live[..n]);
      RecordStep(PlaceAll(a, live[..n]), live[n]);
    }
  }

  /** All intervals of a bank. */
  ghost function Contents(bank: Bank): multiset<Interval> {
    if bank == [] then multiset{} else multiset(bank[0]) + Contents(bank[1..])
  }

  lemma {:induction false} ContentsUpdate(bank: Bank, k: nat, reg: Register, x: Interval)
    requires k < |bank| && multiset(reg) == multiset(bank[k]) + multiset{x}
    ensures Contents(bank[k := reg]) == Contents(bank) + multiset{x}
    decreases k
  {
    if k > 0 {
      ContentsUpdate(bank[1..], k - 1, reg, x);
      assert bank[k := reg][1..] == bank[1..][k - 1 := reg];
    } else {
      assert bank[k := reg][1..] == bank[1..];
    }
  }

  /** The intervals of one kind of register that placement has to put somewhere. */
  ghost function ToPlace(live: seq<Interval>, isFloat: bool): multiset<Interval> {
    if live == [] then multiset{}
    else
      var x := live[|live| - 1];
      ToPlace(live[..|live| - 1], isFloat) + if x.isFloat == isFloat && x.kind != ArgVar then multiset{x}
                                             else multiset{}
  }

  /** Each time there is a register that the interval fits into. */
  ghost predicate Room(a: Alloc, live: seq<Interval>) {
    forall i :: 0 <= i < |live| && live[i].kind != CallVal && live[i].kind != ArgVar ==>
                  HasRoom(PlaceAll(a, live[..i]), live[i])
  }

  ghost predicate HasRoom(a: Alloc, x: Interval) {
    exists k :: 0 <= k < |BankOf(a, x.isFloat)| && Fits(BankOf(a, x.isFloat)[k], x)
  }

  /** No interval is lost, doubled or put into a register of the wrong kind. */
  lemma {:induction false} NothingLost(a: Alloc, live: seq<Interval>, isFloat: bool)
    requires AllPacked(a) && CallsFirst(a, live) && Room(a, live)
    ensures Contents(BankOf(PlaceAll(a, live), isFloat)) == Contents(BankOf(a, isFloat)) + ToPlace(live, isFloat)
    decreases |live|
  {
    hide AllPacked, CallsFirst, NextOk, PlaceOne, Room, HasRoom;
    if live != [] {
      var n := |live| - 1;
      CallsFirstPrefix(a, live, n);
      RoomPrefix(a, live);
      NothingLost(a, live[..n], isFloat);
      PlacementPacks(a, live[..n]);
      LastIsOk(a, live);
      var a1, x := PlaceAll(a, live[..n]), live[n];
      if x.isFloat == isFloat && x.kind != ArgVar {
        PlacedOnce(a1, x);
      } else {
        PlaceOther(a1, x, isFloat);
      }
    }
  }

  lemma PlaceOther(a: Alloc, x: Interval, isFloat: bool)
    requires x.isFloat != isFloat || x.kind == ArgVar
    ensures BankOf(PlaceOne(a, x), isFloat) == BankOf(a, isFloat)
  {
    hide FirstFit, Insert;
  }

  lemma RoomPrefix(a: Alloc, live: seq<Interval>)
    requires Room(a, live) && live != []
    ensures Room(a, live[..|live| - 1])
    ensures var x := live[|live| - 1]; x.kind != CallVal && x.kind != ArgVar ==>
                                         HasRoom(PlaceAll(a, live[..|live| - 1]), x)
  {
    hide HasRoom, PlaceAll;
    var before := live[..|live| - 1];
    forall i | 0 <= i < |before| && before[i].kind != CallVal && before[i].kind != ArgVar
      ensures HasRoom(PlaceAll(a, before[..i]), before[i])
    {
      assert before[..i] == live[..i] && before[i] == live[i];
    }
  }

  lemma PlacedOnce(a: Alloc, x: Interval)
    requires AllPacked(a) && NextOk(a, x) && x.kind != ArgVar && (x.kind != CallVal ==> HasRoom(a, x))
    ensures Contents(BankOf(PlaceOne(a, x), x.isFloat)) == Contents(BankOf(a, x.isFloat)) + multiset{x}
  {
    hide Packed, Fits, FirstFit;
    var bank := BankOf(a, x.isFloat);
    if x.kind == CallVal {
      ContentsUpdate(bank, x.specific, bank[x.specific] + [x], x);
    } else {
      FirstFitFits(bank, x, 0);
      var k := FirstFit(bank, x, 0);
      var j :| 0 <= j < |bank| && Fits(bank[j], x);
      InsertPacks(bank[k], x);
      ContentsUpdate(bank, k, Insert(bank[k], x), x);
    }
  }
}
