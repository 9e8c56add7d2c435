/** The placement loop of the register allocator and the layout of the stack frame. */
module LinearScan {
  import opened Intervals
  import opened FrameLayout

  /** Twice the middle of an interval. */
  function Middle(x: Interval): int {
    x.st + x.ed
  }

  lemma MiddlesGrow(reg: Register, i: nat, j: nat)
    requires Packed(reg) && i < j < |reg|
    ensures Middle(reg[i]) < Middle(reg[j])
  {
    assert Before(reg[i], reg[j]);
  }

  /** Intervals with the same middle share it. */
  lemma SameMiddle(x: Interval, y: Interval)
    requires Valid(x) && Valid(y) && Middle(x) == Middle(y)
    ensures !Before(x, y) && !Before(y, x)
  {
  }

  /** What is left to search: the middle of x lies between those of l and r, or x meets an interval at or before l. */
  ghost predicate Searching(reg: Register, x: Interval, l: nat, r: nat) {
    && l < r < |reg| && Middle(x) < Middle(reg[r])
    && (Middle(reg[l]) < Middle(x) || exists k :: 0 <= k <= l && Middle(reg[k]) == Middle(x))
  }

  /** The two neighbours found decide. */
  lemma NeighboursDecide(reg: Register, x: Interval, l: nat, r: nat)
    requires Packed(reg) && Valid(x) && Searching(reg, x, l, r) && r == l + 1
    ensures var hit := reg[r].st > x.ed && reg[l].ed < x.st;
      (hit <==> Fits(reg, x)) && (hit ==> reg[..r] + [x] + reg[r..] == Insert(reg, x))
  {
    if reg[r].st > x.ed && reg[l].ed < x.st {
      FitsBetween(reg, x, r);
    } else if Middle(reg[l]) < Middle(x) {
      OverlapIs(reg[l], x);
      OverlapIs(reg[r], x);
    } else {
      var k :| 0 <= k <= l && Middle(reg[k]) == Middle(x);
      OverlapIs(reg[k], x);
      SameMiddle(reg[k], x);
    }
  }

  lemma EndsDecide(reg: Register, x: Interval)
    requires Packed(reg) && Valid(x) && reg != []
    requires Middle(x) <= Middle(reg[0]) || Middle(x) >= Middle(reg[|reg| - 1])
    ensures Fits(reg, x) <==> x.ed < reg[0].st || x.st > reg[|reg| - 1].ed
    ensures x.ed < reg[0].st ==> reg[..0] + [x] + reg[0..] == Insert(reg, x)
    ensures x.st > reg[|reg| - 1].ed ==> reg[..|reg|] + [x] + reg[|reg|..] == Insert(reg, x)
  {
    var n := |reg| - 1;
    OverlapIs(reg[0], x);
    OverlapIs(reg[n], x);
    if x.ed < reg[0].st {
      FitsBetween(reg, x, 0);
    }
    if x.st > reg[n].ed {
      FitsBetween(reg, x, |reg|);
    }
    if n > 0 { assert Before(reg[0], reg[n]); }
  }

  /** Looks for a place for x in a register by the middles of the intervals. */
  method FindPlace(reg: Register, x: Interval) returns (conflict: bool, index: nat)
    requires Packed(reg) && Valid(x)
    ensures conflict <==> !Fits(reg, x)
    ensures !conflict ==> index <= |reg| && reg[..index] + [x] + reg[index..] == Insert(reg, x)
  {
    hide Packed, Fits, Insert;
    conflict := false;
    index := 0;
    if |reg| == 0 {
      FitsBetween(reg, x, 0);
    } else {
      var l, r := 0, |reg| - 1;
      if Middle(x) <= Middle(reg[l]) || Middle(x) >= Middle(reg[r]) {
        EndsDecide(reg, x);
        if x.ed < reg[l].st {
          index := l;
        } else if x.st > reg[r].ed {
          index := r + 1;
        } else {
          conflict := true;
        }
      } else {
        while r - l > 1
          invariant 0 <= l < r && Searching(reg, x, l, r)
          decreases r - l
        {
          var up, down := (l + r + 1) / 2, (l + r) / 2;
          if Middle(x) > Middle(reg[l]) && Middle(x) < Middle(reg[up]) {
            r := up;
          } else {
            if down < up { MiddlesGrow(reg, down, up); }
            l := down;
          }
        }
        NeighboursDecide(reg, x, l, r);
        if reg[r].st > x.ed && reg[l].ed < x.st {
          index := r;
        } else {
          conflict := true;
        }
      }
    }
  }

  class LinearScan {
    var ints: Bank
    var floats: Bank
    var v2reg: map<nat, seq<Place>>

    ghost function State(): Alloc
      reads this`ints, this`floats, this`v2reg
    {
      Alloc(ints, floats, v2reg)
    }

    /** The frame: entries, save slots, size and where the return address lies. */
    var stackMap: seq<Slot>
    var opSave: seq<int>
    var stackSize: int
    var returnOffset: int

    constructor (ints: Bank, floats: Bank)
      ensures State() == Alloc(ints, floats, map[])
    {
      this.ints, this.floats, v2reg := ints, floats, map[];
      stackMap, opSave, stackSize, returnOffset := [], [], 0, 0;
    }

    /** Puts an argument into the register it arrives in, if that is free for the whole interval. */
    method ForceRegAlloc(x: Interval, regIdx: nat) returns (done: bool)
      requires AllPacked(State()) && Valid(x) && regIdx < |BankOf(State(), x.isFloat)|
      modifies this`ints, this`floats, this`v2reg
      ensures done <==> Fits(BankOf(old(State()), x.isFloat)[regIdx], x)
      ensures State() == if done then PutIn(old(State()), x, regIdx) else old(State())
      ensures AllPacked(State())
    {
      hide Packed, Fits, Insert;
      PutInPacksIf(State(), x, regIdx);
      var bank := if x.isFloat then floats else ints;
      var reg := bank[regIdx];
      assert Packed(reg);
      var conflict, index := false, 0;
      if |reg| == 0 { FitsBetween(reg, x, 0); }
      var j := 0;
      while j < |reg|
        invariant 0 <= j <= |reg| && (conflict <==> j > 0)
        invariant forall k :: 0 <= k < j ==> !Gap(reg, x, k)
        invariant !conflict ==> index == 0
      {
        conflict := true;
        if reg[j].ed < x.st && j == |reg| - 1 {
          conflict, index := false, j + 1;
          FitsBetween(reg, x, j + 1);
          break;
        } else if reg[j].st > x.ed && j == 0 {
          conflict, index := false, j;
          FitsBetween(reg, x, 0);
          break;
        } else if j != |reg| - 1 && reg[j + 1].st > x.ed && reg[j].ed < x.st {
          conflict, index := false, j + 1;
          FitsBetween(reg, x, j + 1);
          break;
        }
        j := j + 1;
      }
      if !conflict {
        bank := bank[regIdx := reg[..index] + [x] + reg[index..]];
        if x.isFloat { floats := bank; } else { ints := bank; }
        v2reg := Recorded(v2reg, x, regIdx);
        return true;
      }
      NoGapNoFit(reg, x);
      return false;
    }

    /** Puts one interval into the first register of its kind that it fits into. */
    method PlaceInterval(x: Interval)
      requires AllPacked(State()) && Valid(x) && x.kind != CallVal && x.kind != ArgVar
      modifies this`ints, this`floats, this`v2reg
      ensures State() == PlaceOne(old(State()), x)
    {
      hide Packed, Fits, Insert, FirstFit;
      var bank := if x.isFloat then floats else ints;
      var i := 0;
      while i < |bank|
        invariant 0 <= i <= |bank| && State() == old(State())
        invariant forall j :: 0 <= j < i ==> !Fits(bank[j], x)
      {
        var conflict, index := FindPlace(bank[i], x);
        if !conflict {
          FirstFitIs(bank, x, 0, i);
          bank := bank[i := bank[i][..index] + [x] + bank[i][index..]];
          if x.isFloat { floats := bank; } else { ints := bank; }
          v2reg := Recorded(v2reg, x, i);
          return;
        }
        i := i + 1;
      }
      FirstFitIs(bank, x, 0, |bank|);
    }

    /** The placement loop. */
    method Place(live: seq<Interval>)
      requires AllPacked(State()) && CallsFirst(State(), live)
      modifies this`ints, this`floats, this`v2reg
      ensures State() == PlaceAll(old(State()), live) && AllPacked(State())
    {
      hide AllPacked, CallsFirst, PlaceOne;
      ghost var a := State();
      for i := 0 to |live|
        invariant State() == PlaceAll(a, live[..i])
      {
        var x := live[i];
        CallsFirstPrefix(a, live, i + 1);
        CallsFirstPrefix(a, live, i);
        PlacementPacks(a, live[..i]);
        assert live[..i + 1][..i] == live[..i];
        LastIsOk(a, live[..i + 1]);
        StepCases(State(), x);
        if x.kind == CallVal {
          if x.isFloat {
            floats := floats[x.specific := floats[x.specific] + [x]];
          } else {
            ints := ints[x.specific := ints[x.specific] + [x]];
          }
        } else if x.kind != ArgVar {
          PlaceInterval(x);
        }
      }
      assert live[..|live|] == live;
      PlacementPacks(a, live);
    }

    /** The slots of the intervals of one register. */
    method SpillRegister(reg: Register)
      modifies this`stackMap
      ensures stackMap == old(stackMap) + RegisterSlots(reg, stackSize)
    {
      for j := 0 to |reg|
        invariant stackMap == old(stackMap) + RegisterSlots(reg[..j], stackSize)
      {
        var x := reg[j];
        assert reg[..j + 1][..j] == reg[..j];
        if x.kind == GlobalVar {
          continue;
        }
        if x.kind == ImmVar {
          continue;
        }
        stackMap := stackMap + [Slot(x, false, stackSize, 4)];
      }
      assert reg[..|reg|] == reg;
    }

    /** The slots of the registers of one bank from `first` on, up to the first unused one. */
    method SpillBank(bank: Bank, first: nat)
      requires first <= |bank|
      modifies this`stackMap, this`stackSize
      ensures var n := UsedTo(bank, first);
        && stackMap == old(stackMap) + BankSlots(bank, first, n, old(stackSize))
        && stackSize == old(stackSize) + 4 * (n - first)
    {
      hide RegisterSlots;
      var i := first;
      while i < |bank|
        invariant first <= i <= |bank| && forall j :: first <= j < i ==> bank[j] != []
        invariant stackMap == old(stackMap) + BankSlots(bank, first, i, old(stackSize))
        invariant stackSize == old(stackSize) + 4 * (i - first)
      {
        if bank[i] == [] {
          break;
        }
        SpillRegister(bank[i]);
        stackSize := stackSize + 4;
        i := i + 1;
      }
      UsedToIs(bank, first, i);
    }

    /** The slots of the arguments passed on the stack. */
    method ArgArea(live: seq<Interval>)
      modifies this`stackMap, this`stackSize
      ensures stackMap == ArgSlots(live) && stackSize == 4 * |stackMap|
    {
      stackMap, stackSize := [], 0;
      for i := 0 to |live|
        invariant stackMap == ArgSlots(live[..i]) && stackSize == 4 * |stackMap|
      {
        var x := live[i];
        assert live[..i + 1][..i] == live[..i];
        if x.kind == ArgVar && x.spilled {
          stackSize := stackSize + 4;
          stackMap := stackMap + [Slot(x, false, x.specific * 4, 4)];
        }
      }
      assert live[..|live|] == live;
    }

    /** The slots that save registers lent to spilled operands. */
    method SaveArea()
      modifies this`opSave, this`stackSize
      ensures opSave == [old(stackSize), old(stackSize) + 4, old(stackSize) + 8, old(stackSize) + 12]
      ensures stackSize == old(stackSize) + 4 * OP_SAVE_STACK_NUM
    {
      opSave := [];
      for i := 0 to OP_SAVE_STACK_NUM
        invariant |opSave| == i && (forall k :: 0 <= k < i ==> opSave[k] == stackSize + k * 4)
        invariant stackSize == old(stackSize)
      {
        opSave := opSave + [stackSize + i * 4];
      }
      stackSize := stackSize + OP_SAVE_STACK_NUM * 4;
    }

    /** The space of the local arrays and variables. */
    method DataArea(live: seq<Interval>)
      modifies this`stackMap, this`stackSize
      ensures stackMap == old(stackMap) + DataSlots(live, old(stackSize))
      ensures stackSize == old(stackSize) + DataSize(live)
    {
      for i := 0 to |live|
        invariant stackMap == old(stackMap) + DataSlots(live[..i], old(stackSize))
        invariant stackSize == old(stackSize) + DataSize(live[..i])
      {
        var x := live[i];
        assert live[..i + 1][..i] == live[..i];
        if x.isAllocated {
          var size := (x.size + 3) / 4 * 4;
          stackMap := stackMap + [Slot(x, true, stackSize, size)];
          stackSize := stackSize + size;
        }
      }
      assert live[..|live|] == live;
    }

    /** Lays out the frame: stack arguments, save slots, spilled values, local data. */
    method BuildFrame(live: seq<Interval>)
      requires |ints| >= INT_REG_NUMBER && |floats| >= FLOAT_REG_NUMBER
      modifies this`stackMap, this`opSave, this`stackSize, this`returnOffset
      ensures Frame(stackMap, opSave, stackSize) == FrameOf(live, ints, floats) && returnOffset == stackSize
    {
      hide ArgSlots, BankSlots, DataSlots, DataSize, UsedTo;
      ArgArea(live);
      SaveArea();
      SpillBank(ints, INT_REG_NUMBER);
      SpillBank(floats, FLOAT_REG_NUMBER);
      DataArea(live);
      returnOffset := stackSize;
    }
  
    /** Allocates registers and lays out the frame: nothing in the frame disturbs anything else. */
    method Run(live: seq<Interval>)
      requires AllPacked(State()) && CallsFirst(State(), live) && ArgsNumbered(live)
      requires |ints| >= INT_REG_NUMBER && |floats| >= FLOAT_REG_NUMBER
      modifies this
      ensures State() == PlaceAll(old(State()), live) && AllPacked(State())
      ensures LiveApart(ints) && LiveApart(floats)
      ensures AllApart(stackMap) && Within(stackMap, 0, stackSize) && stackSize % 4 == 0 && returnOffset == stackSize
      ensures forall i, k :: 0 <= i < |stackMap| && 0 <= k < |opSave| ==>
        stackMap[i].offset + stackMap[i].size <= opSave[k] || opSave[k] + 4 <= stackMap[i].offset
      ensures |opSave| == 4 && forall k :: 0 <= k < 4 ==> 0 <= opSave[k] && opSave[k] + 4 <= stackSize
      ensures forall k :: 0 <= k < |live| && live[k].isAllocated ==>
                exists s :: && s in stackMap && s.isData && s.itv == live[k]
                            && live[k].size <= s.size < live[k].size + 4 && s.size % 4 == 0
      ensures forall k :: 0 <= k < |live| && live[k].kind == ArgVar && live[k].spilled ==>
                Slot(live[k], false, 4 * live[k].specific, 4) in stackMap
      ensures forall s :: s in stackMap && s.isData ==>
                            exists k :: 0 <= k < |live| && live[k].isAllocated && HoldsData(s, live[k])
      ensures forall s :: s in stackMap && !s.isData ==> HoldsWord(s, live, ints, floats)
      ensures Overflows(old(State()), live) ==>
                SpillsHeld(stackMap, ints, INT_REG_NUMBER) && SpillsHeld(stackMap, floats, FLOAT_REG_NUMBER)
    {
      hide LiveApart, SpillsHeld, AllPacked, CallsFirst, AllApart, Within, ArgsNumbered, PlaceAll, FrameOf, HoldsData,
          HoldsWord, Overflows;
      ghost var a := State();
      PlaceAllSizes(a, live);
      Place(live);
      BuildFrame(live);
      FrameApart(live, State());
      FrameComplete(live, State());
      PackedMeans(State());
      forall k | 0 <= k < |live| && live[k].isAllocated
        ensures exists s :: && s in stackMap && s.isData && s.itv == live[k]
                            && live[k].size <= s.size < live[k].size + 4 && s.size % 4 == 0
      {
        var s :| s in stackMap && HoldsData(s, live[k]);
        HoldsParts(s, live[k]);
      }
      if Overflows(a, live) { SpillsHaveSlots(a, live); }
    }
  }

  /** The intervals of each register end before the next one starts. */
  ghost predicate LiveApart(bank: Bank) {
    forall r, i, j :: 0 <= r < |bank| && 0 <= i < j < |bank[r]| ==> bank[r][i].ed < bank[r][j].st
  }

  lemma PackedMeans(a: Alloc)
    requires AllPacked(a)
    ensures LiveApart(a.ints) && LiveApart(a.floats)
  {
    forall r, i, j | 0 <= r < |a.ints| && 0 <= i < j < |a.ints[r]| ensures a.ints[r][i].ed < a.ints[r][j].st {
      assert Packed(a.ints[r]);
    }
    forall r, i, j | 0 <= r < |a.floats| && 0 <= i < j < |a.floats[r]| ensures a.floats[r][i].ed < a.floats[r][j].st {
      assert Packed(a.floats[r]);
    }
  }

  lemma HoldsParts(s: Slot, x: Interval)
    requires HoldsData(s, x)
    ensures s.isData && s.itv == x && x.size <= s.size < x.size + 4 && s.size % 4 == 0
  {
  }

  /** Before the placement no overflow register is skipped, and calls are bound to real registers. */
  ghost predicate Overflows(a: Alloc, live: seq<Interval>) {
    && NoGaps(a.ints, INT_REG_NUMBER) && NoGaps(a.floats, FLOAT_REG_NUMBER)
    && forall i :: 0 <= i < |live| && live[i].kind == CallVal ==>
                     live[i].specific < if live[i].isFloat then FLOAT_REG_NUMBER else INT_REG_NUMBER
  }

  /** Every value in an overflow register that needs a place on the stack has a word there. */
  ghost predicate SpillsHeld(slots: seq<Slot>, bank: Bank, first: nat) {
    forall r, x :: first <= r < |bank| && x in bank[r] && x.kind != GlobalVar && x.kind != ImmVar ==>
                     exists s :: s in slots && s.itv == x && !s.isData
  }

  lemma SpillsHaveSlots(a: Alloc, live: seq<Interval>)
    requires Overflows(a, live) && |PlaceAll(a, live).ints| >= INT_REG_NUMBER
    requires |PlaceAll(a, live).floats| >= FLOAT_REG_NUMBER
    ensures var p := PlaceAll(a, live); var f := FrameOf(live, p.ints, p.floats);
            SpillsHeld(f.stackMap, p.ints, INT_REG_NUMBER) && SpillsHeld(f.stackMap, p.floats, FLOAT_REG_NUMBER)
  {
    hide FrameOf, NoGaps, PlaceAll;
    var p := PlaceAll(a, live);
    PlacementHasNoGaps(a, live, false, INT_REG_NUMBER);
    PlacementHasNoGaps(a, live, true, FLOAT_REG_NUMBER);
    forall r, x | INT_REG_NUMBER <= r < |p.ints| && x in p.ints[r] && x.kind != GlobalVar && x.kind != ImmVar
      ensures exists s :: s in FrameOf(live, p.ints, p.floats).stackMap && s.itv == x && !s.isData
    {
      EverySpillHasASlot(live, p, false, r, x);
    }
    forall r, x | FLOAT_REG_NUMBER <= r < |p.floats| && x in p.floats[r] && x.kind != GlobalVar && x.kind != ImmVar
      ensures exists s :: s in FrameOf(live, p.ints, p.floats).stackMap && s.itv == x && !s.isData
    {
      EverySpillHasASlot(live, p, true, r, x);
    }
  }

  lemma StepCases(a: Alloc, x: Interval)
    requires AllPacked(a) && NextOk(a, x)
    ensures Valid(x) && (x.kind == ArgVar ==> PlaceOne(a, x) == a)
    ensures x.kind == CallVal ==>
      var bank := BankOf(a, x.isFloat);
      x.specific < |bank| && PlaceOne(a, x) == WithBank(a, x.isFloat, bank[x.specific := bank[x.specific] + [x]])
  {
  }

  lemma {:induction false} UsedToIs(bank: Bank, i: nat, n: nat)
    requires i <= n <= |bank| && (forall j :: i <= j < n ==> bank[j] != []) && (n < |bank| ==> bank[n] == [])
    ensures UsedTo(bank, i) == n
    decreases n - i
  {
    if i < n { UsedToIs(bank, i + 1, n); }
  }

  /** x fits next to interval k: behind the last, before the first, or between k and its successor. */
  ghost predicate Gap(reg: Register, x: Interval, k: nat) {
    k < |reg| && (
      || (Before(reg[k], x) && k == |reg| - 1)
      || (Before(x, reg[k]) && k == 0)
      || (k < |reg| - 1 && Before(x, reg[k + 1]) && Before(reg[k], x)))
  }

  lemma {:induction false} GapFrom(reg: Register, x: Interval, k: nat)
    requires Packed(reg) && Valid(x) && Fits(reg, x) && k < |reg| && Before(reg[k], x)
    ensures exists j :: 0 <= j < |reg| && Gap(reg, x, j)
    decreases |reg| - k
  {
    if k < |reg| - 1 && !Before(x, reg[k + 1]) {
      OverlapIs(reg[k + 1], x);
      GapFrom(reg, x, k + 1);
    } else {
      assert Gap(reg, x, k);
    }
  }

  lemma NoGapNoFit(reg: Register, x: Interval)
    requires Packed(reg) && Valid(x) && reg != [] && forall k :: 0 <= k < |reg| ==> !Gap(reg, x, k)
    ensures !Fits(reg, x)
  {
    if Fits(reg, x) {
      OverlapIs(reg[0], x);
      assert !Gap(reg, x, 0);
      GapFrom(reg, x, 0);
    }
  }

  lemma PutInPacksIf(a: Alloc, x: Interval, k: nat)
    requires AllPacked(a) && Valid(x) && k < |BankOf(a, x.isFloat)|
    ensures Packed(BankOf(a, x.isFloat)[k])
    ensures Fits(BankOf(a, x.isFloat)[k], x) ==> AllPacked(PutIn(a, x, k))
  {
    hide Packed, Fits;
    if Fits(BankOf(a, x.isFloat)[k], x) { PutInPacks(a, x, k); }
  }
}
