/** The areas of a stack frame: stack arguments, save slots, spilled values and local arrays. */
module FrameLayout {
  import opened Intervals

  const INT_REG_NUMBER: nat := 13
  const FLOAT_REG_NUMBER: nat := 32
  const OP_SAVE_STACK_NUM: nat := 4

  /** An entry of the stack map: the interval of a value, or the data of a local array. */
  datatype Slot = Slot(itv: Interval, isData: bool, offset: int, size: int)

  function IsStackArg(x: Interval): bool {
    x.kind == ArgVar && x.spilled
  }

  function ArgSlots(live: seq<Interval>): seq<Slot> {
    if live == [] then []
    else
      var x := live[|live| - 1];
      ArgSlots(live[..|live| - 1]) + if IsStackArg(x) then [Slot(x, false, x.specific * 4, 4)] else []
  }

  function Spills(x: Interval): bool {
    x.kind != GlobalVar && x.kind != ImmVar
  }

  function RegisterSlots(reg: Register, offset: int): seq<Slot> {
    if reg == [] then []
    else
      var x := reg[|reg| - 1];
      RegisterSlots(reg[..|reg| - 1], offset) + if Spills(x) then [Slot(x, false, offset, 4)] else []
  }

  /** The slots of the registers from `first` up to, not including, n. */
  function BankSlots(bank: Bank, first: nat, n: nat, offset: int): seq<Slot>
    requires first <= n <= |bank|
    decreases n
  {
    if n == first then [] else BankSlots(bank, first, n - 1, offset) + RegisterSlots(bank[n - 1],
        offset + 4 * (n - 1 - first))
  }

  /** The first unused register from i on. */
  function UsedTo(bank: Bank, i: nat): (n: nat)
    requires i <= |bank|
    ensures i <= n <= |bank| && (forall j :: i <= j < n ==> bank[j] != []) && (n < |bank| ==> bank[n] == [])
    decreases |bank| - i
  {
    if i == |bank| || bank[i] == [] then i else UsedTo(bank, i + 1)
  }

  function RoundUp(size: int): int {
    (size + 3) / 4 * 4
  }

  function DataSize(live: seq<Interval>): int {
    if live == [] then 0
    else DataSize(live[..|live| - 1]) + if live[|live| - 1].isAllocated then RoundUp(live[|live| - 1].size) else 0
  }

  function DataSlots(live: seq<Interval>, offset: int): seq<Slot> {
    if live == [] then []
    else
      var before := live[..|live| - 1];
      var x := live[|live| - 1];
      DataSlots(before, offset) + if x.isAllocated then [Slot(x, true, offset + DataSize(before), RoundUp(x.size))]
                                  else []
  }

  /** Two entries do not disturb each other: their areas are apart, or they share a spill slot at different times. */
  ghost predicate Apart(s: Slot, t: Slot) {
    || s.offset + s.size <= t.offset
    || t.offset + t.size <= s.offset
    || (s.offset == t.offset && !s.isData && !t.isData && (s.itv.ed < t.itv.st || t.itv.ed < s.itv.st))
  }

  ghost predicate AllApart(slots: seq<Slot>) {
    forall i, j :: 0 <= i < j < |slots| ==> Apart(slots[i], slots[j])
  }

  /** All entries are aligned and lie between lo and hi. */
  ghost predicate Within(slots: seq<Slot>, lo: int, hi: int) {
    forall i :: 0 <= i < |slots| ==>
                  && lo <= slots[i].offset && slots[i].size >= 0
                  && slots[i].offset + slots[i].size <= hi && slots[i].offset % 4 == 0
  }

  lemma ConcatApart(a: seq<Slot>, b: seq<Slot>, lo: int, mid: int, hi: int)
    requires AllApart(a) && AllApart(b) && Within(a, lo, mid) && Within(b, mid, hi) && lo <= mid <= hi
    ensures AllApart(a + b) && Within(a + b, lo, hi)
  {
  }

  lemma {:induction false} RegisterSlotsAt(reg: Register, offset: int, i: nat)
    requires i < |RegisterSlots(reg, offset)|
    ensures var s := RegisterSlots(reg, offset)[i];
            s.offset == offset && s.size == 4 && !s.isData && s.itv in reg && Spills(s.itv)
    decreases reg
  {
    var before := reg[..|reg| - 1];
    assert reg == before + [reg[|reg| - 1]];
    if i < |RegisterSlots(before, offset)| { RegisterSlotsAt(before, offset, i); }
  }

  /** Intervals of one register share a slot, at different times. */
  lemma {:induction false} RegisterApart(reg: Register, offset: int)
    requires Packed(reg) && offset % 4 == 0
    ensures AllApart(RegisterSlots(reg, offset)) && Within(RegisterSlots(reg, offset), offset, offset + 4)
    decreases reg
  {
    var slots := RegisterSlots(reg, offset);
    forall i | 0 <= i < |slots|
      ensures slots[i].offset == offset && slots[i].size == 4 && !slots[i].isData && slots[i].itv in reg
    {
      RegisterSlotsAt(reg, offset, i);
    }
    if reg != [] {
      var n := |reg| - 1;
      var before := reg[..n];
      RegisterApart(before, offset);
      var rest := RegisterSlots(before, offset);
      forall i | 0 <= i < |rest| ensures Apart(rest[i], Slot(reg[n], false, offset, 4)) {
        RegisterSlotsAt(before, offset, i);
        var k :| 0 <= k < n && before[k] == rest[i].itv;
        assert Before(reg[k], reg[n]);
      }
    }
  }

  lemma BankUnfolds(bank: Bank, first: nat, n: nat, offset: int)
    requires first <= n <= |bank|
    ensures BankSlots(bank, first, n, offset) ==
            if n == first then []
            else BankSlots(bank, first, n - 1, offset) + RegisterSlots(bank[n - 1], offset + 4 * (n - 1 - first))
  {
    hide RegisterSlots;
  }

  lemma {:induction false} BankApart(bank: Bank, first: nat, n: nat, offset: int)
    requires first <= n <= |bank| && (forall i :: 0 <= i < |bank| ==> Packed(bank[i])) && offset % 4 == 0
    ensures AllApart(BankSlots(bank, first, n, offset))
    ensures Within(BankSlots(bank, first, n, offset), offset, offset + 4 * (n - first))
    decreases n
  {
    hide Packed, AllApart, Within, BankSlots, RegisterSlots;
    BankUnfolds(bank, first, n, offset);
    if n == first {
      NothingApart(offset);
    } else {
      BankApart(bank, first, n - 1, offset);
      var o := offset + 4 * (n - 1 - first);
      RegisterApart(bank[n - 1], o);
      ConcatApart(BankSlots(bank, first, n - 1, offset), RegisterSlots(bank[n - 1], o), offset, o, o + 4);
    }
  }

  lemma NothingApart(offset: int)
    ensures AllApart([]) && Within([], offset, offset)
  {
  }

  lemma {:induction false} DataApart(live: seq<Interval>, offset: int)
    requires offset % 4 == 0
    ensures AllApart(DataSlots(live, offset)) && Within(DataSlots(live, offset), offset, offset + DataSize(live))
    ensures DataSize(live) >= 0 && DataSize(live) % 4 == 0
    decreases live
  {
    hide AllApart, Within;
    if live == [] {
      NothingApart(offset);
    } else {
      var before, x := live[..|live| - 1], live[|live| - 1];
      DataApart(before, offset);
      var o := offset + DataSize(before);
      if x.isAllocated {
        OneApart(Slot(x, true, o, RoundUp(x.size)));
        ConcatApart(DataSlots(before, offset), [Slot(x, true, o, RoundUp(x.size))], offset, o, o + RoundUp(x.size));
      } else {
        assert DataSlots(live, offset) == DataSlots(before, offset);
      }
    }
  }

  lemma OneApart(s: Slot)
    requires s.offset % 4 == 0 && s.size >= 0
    ensures AllApart([s]) && Within([s], s.offset, s.offset + s.size)
  {
  }

  /** The stack arguments are numbered from 0 on without repetition. */
  ghost predicate ArgsNumbered(live: seq<Interval>) {
    && (forall i, j :: 0 <= i < j < |live| && IsStackArg(live[i]) && IsStackArg(live[j]) ==>
                         live[i].specific != live[j].specific)
    && (forall i :: 0 <= i < |live| && IsStackArg(live[i]) ==> live[i].specific < |ArgSlots(live)|)
  }

  lemma {:induction false} ArgSlotsAt(live: seq<Interval>, i: nat) returns (k: nat)
    requires i < |ArgSlots(live)|
    ensures k < |live| && IsStackArg(live[k]) && ArgSlots(live)[i] == Slot(live[k], false, live[k].specific * 4, 4)
    ensures i < |ArgSlots(live)| - 1 ==> k < |live| - 1 || !IsStackArg(live[|live| - 1])
    ensures k == |live| - 1 ==> i == |ArgSlots(live)| - 1
    decreases live
  {
    var n := |live| - 1;
    var before := live[..n];
    if i < |ArgSlots(before)| {
      k := ArgSlotsAt(before, i);
      assert before[k] == live[k];
    } else {
      k := n;
    }
  }

  lemma {:induction false} ArgsDiffer(live: seq<Interval>, i: nat, j: nat)
    requires i < j < |ArgSlots(live)|
    requires forall a, b :: 0 <= a < b < |live| && IsStackArg(live[a]) && IsStackArg(live[b]) ==>
                              live[a].specific != live[b].specific
    ensures ArgSlots(live)[i].offset != ArgSlots(live)[j].offset
    decreases live
  {
    var n := |live| - 1;
    var before := live[..n];
    if j < |ArgSlots(before)| {
      ArgsDiffer(before, i, j);
    } else {
      var k := ArgSlotsAt(before, i);
      assert before[k] == live[k];
    }
  }

  lemma ArgsApart(live: seq<Interval>)
    requires ArgsNumbered(live)
    ensures AllApart(ArgSlots(live)) && Within(ArgSlots(live), 0, 4 * |ArgSlots(live)|)
  {
    var slots := ArgSlots(live);
    forall i | 0 <= i < |slots| ensures 0 <= slots[i].offset && slots[i].size == 4 &&
        slots[i].offset + 4 <= 4 * |slots| && slots[i].offset % 4 == 0 {
      var k := ArgSlotsAt(live, i);
    }
    forall i, j | 0 <= i < j < |slots| ensures Apart(slots[i], slots[j]) {
      ArgsDiffer(live, i, j);
      var k := ArgSlotsAt(live, i);
      var l := ArgSlotsAt(live, j);
    }
  }

  /** A whole frame. */
  datatype Frame = Frame(stackMap: seq<Slot>, opSave: seq<int>, size: int)

  function FrameOf(live: seq<Interval>, ints: Bank, floats: Bank): Frame
    requires |ints| >= INT_REG_NUMBER && |floats| >= FLOAT_REG_NUMBER
  {
    var args := ArgSlots(live);
    var save := 4 * |args|;
    var intTo, floatTo := UsedTo(ints, INT_REG_NUMBER), UsedTo(floats, FLOAT_REG_NUMBER);
    var intBase := save + 4 * OP_SAVE_STACK_NUM;
    var floatBase := intBase + 4 * (intTo - INT_REG_NUMBER);
    var dataBase := floatBase + 4 * (floatTo - FLOAT_REG_NUMBER);
    Frame(args + BankSlots(ints, INT_REG_NUMBER, intTo, intBase) + BankSlots(floats, FLOAT_REG_NUMBER, floatTo,
        floatBase) + DataSlots(live, dataBase),
          [save, save + 4, save + 8, save + 12],
          dataBase + DataSize(live))
  }

  /** No two entries of the frame disturb each other, none meets a save slot, and all lie inside the frame. */
  lemma FrameApart(live: seq<Interval>, a: Alloc)
    requires |a.ints| >= INT_REG_NUMBER && |a.floats| >= FLOAT_REG_NUMBER && AllPacked(a) && ArgsNumbered(live)
    ensures var f := FrameOf(live, a.ints, a.floats);
      && AllApart(f.stackMap) && Within(f.stackMap, 0, f.size) && f.size % 4 == 0
      && (forall i, k :: 0 <= i < |f.stackMap| && 0 <= k < |f.opSave| ==>
          f.stackMap[i].offset + f.stackMap[i].size <= f.opSave[k] || f.opSave[k] + 4 <= f.stackMap[i].offset)
      && (forall k :: 0 <= k < |f.opSave| ==> 0 <= f.opSave[k] && f.opSave[k] + 4 <= f.size)
      && (forall k, l :: 0 <= k < l < |f.opSave| ==> f.opSave[k] + 4 <= f.opSave[l])
  {
    hide AllApart, Packed, ArgSlots, BankSlots, DataSlots, DataSize, ArgsNumbered;
    var f := FrameOf(live, a.ints, a.floats);
    var args := ArgSlots(live);
    var save := 4 * |args|;
    var intTo, floatTo := UsedTo(a.ints, INT_REG_NUMBER), UsedTo(a.floats, FLOAT_REG_NUMBER);
    var intBase := save + 4 * OP_SAVE_STACK_NUM;
    var floatBase := intBase + 4 * (intTo - INT_REG_NUMBER);
    var dataBase := floatBase + 4 * (floatTo - FLOAT_REG_NUMBER);
    var b := BankSlots(a.ints, INT_REG_NUMBER, intTo, intBase);
    var c := BankSlots(a.floats, FLOAT_REG_NUMBER, floatTo, floatBase);
    var d := DataSlots(live, dataBase);
    ArgsApart(live);
    BankApart(a.ints, INT_REG_NUMBER, intTo, intBase);
    BankApart(a.floats, FLOAT_REG_NUMBER, floatTo, floatBase);
    DataApart(live, dataBase);
    ConcatApart(c, d, floatBase, dataBase, f.size);
    ConcatApart(b, c + d, intBase, floatBase, f.size);
    WithinMore(args, 0, save, intBase);
    ConcatApart(args, b + (c + d), 0, intBase, f.size);
    assert f.stackMap == args + (b + (c + d));
  }

  lemma WithinMore(slots: seq<Slot>, lo: int, hi: int, hi': int)
    requires Within(slots, lo, hi) && hi <= hi'
    ensures Within(slots, lo, hi')
  {
  }

  lemma {:induction false} RegisterComplete(reg: Register, offset: int, x: Interval)
    requires x in reg && Spills(x)
    ensures Slot(x, false, offset, 4) in RegisterSlots(reg, offset)
    decreases reg
  {
    var n := |reg| - 1;
    var before := reg[..n];
    assert reg == before + [reg[n]];
    if x != reg[n] { RegisterComplete(before, offset, x); }
  }

  lemma {:induction false} BankComplete(bank: Bank, first: nat, n: nat, offset: int, r: nat, x: Interval)
    requires first <= r < n <= |bank| && x in bank[r] && Spills(x)
    ensures Slot(x, false, offset + 4 * (r - first), 4) in BankSlots(bank, first, n, offset)
    decreases n
  {
    if r == n - 1 {
      RegisterComplete(bank[r], offset + 4 * (r - first), x);
    } else {
      BankComplete(bank, first, n - 1, offset, r, x);
    }
  }

  lemma {:induction false} UsedBelow(bank: Bank, i: nat, r: nat)
    requires i <= r < |bank| && bank[r] != [] && NoGaps(bank, i)
    ensures r < UsedTo(bank, i)
    decreases r - i
  {
    if i < r { UsedBelow(bank, i + 1, r); }
  }

  lemma FrameHolds(live: seq<Interval>, a: Alloc, isFloat: bool) returns (base: int)
    requires |a.ints| >= INT_REG_NUMBER && |a.floats| >= FLOAT_REG_NUMBER
    ensures var bank, first := BankOf(a, isFloat), if isFloat then FLOAT_REG_NUMBER else INT_REG_NUMBER;
            forall s :: s in BankSlots(bank, first, UsedTo(bank, first), base) ==>
                          s in FrameOf(live, a.ints, a.floats).stackMap
  {
    hide ArgSlots, DataSlots, BankSlots, UsedTo;
    base := 4 * |ArgSlots(live)| + 4 * OP_SAVE_STACK_NUM;
    if isFloat { base := base + 4 * (UsedTo(a.ints, INT_REG_NUMBER) - INT_REG_NUMBER); }
  }

  /** A local array or variable has an area of its own that holds it, in whole words and with less than a word to
      spare. */
  ghost predicate HoldsData(s: Slot, x: Interval) {
    s.isData && s.itv == x && x.size <= s.size < x.size + 4 && s.size % 4 == 0
  }

  lemma {:induction false} DataComplete(live: seq<Interval>, offset: int, k: nat)
    requires k < |live| && live[k].isAllocated
    ensures exists s :: s in DataSlots(live, offset) && HoldsData(s, live[k])
    decreases live
  {
    var before, x := live[..|live| - 1], live[|live| - 1];
    if k < |before| {
      DataComplete(before, offset, k);
      var s :| s in DataSlots(before, offset) && HoldsData(s, before[k]);
      assert s in DataSlots(live, offset);
    } else {
      assert HoldsData(Slot(x, true, offset + DataSize(before), RoundUp(x.size)), x);
    }
  }

  lemma {:induction false} DataOnly(live: seq<Interval>, offset: int, s: Slot)
    requires s in DataSlots(live, offset)
    ensures s.isData && exists k :: 0 <= k < |live| && live[k].isAllocated && HoldsData(s, live[k])
    decreases live
  {
    var before, x := live[..|live| - 1], live[|live| - 1];
    if s in DataSlots(before, offset) {
      DataOnly(before, offset, s);
      var k :| 0 <= k < |before| && before[k].isAllocated && HoldsData(s, before[k]);
      assert live[k] == before[k];
    } else {
      assert live[|before|] == x;
    }
  }

  lemma {:induction false} ArgComplete(live: seq<Interval>, k: nat)
    requires k < |live| && live[k].kind == ArgVar && live[k].spilled
    ensures Slot(live[k], false, 4 * live[k].specific, 4) in ArgSlots(live)
    decreases live
  {
    var before := live[..|live| - 1];
    if k < |before| { ArgComplete(before, k); }
  }

  lemma {:induction false} BankMember(bank: Bank, first: nat, n: nat, offset: int, s: Slot)
    requires first <= n <= |bank| && s in BankSlots(bank, first, n, offset)
    ensures !s.isData && s.size == 4 && s.itv.kind != GlobalVar && s.itv.kind != ImmVar
    ensures exists r :: first <= r < n && s.itv in bank[r]
    decreases n
  {
    if s in BankSlots(bank, first, n - 1, offset) {
      BankMember(bank, first, n - 1, offset, s);
    } else {
      var o := offset + 4 * (n - 1 - first);
      var i :| 0 <= i < |RegisterSlots(bank[n - 1], o)| && RegisterSlots(bank[n - 1], o)[i] == s;
      RegisterSlotsAt(bank[n - 1], o, i);
    }
  }

  /** The word of an argument passed on the stack, or of a value in an overflow register that needs one. */
  ghost predicate HoldsWord(s: Slot, live: seq<Interval>, ints: Bank, floats: Bank) {
    && !s.isData && s.size == 4
    && (|| (exists k :: && 0 <= k < |live| && live[k].kind == ArgVar && live[k].spilled
                        && s == Slot(live[k], false, 4 * live[k].specific, 4))
        || (&& s.itv.kind != GlobalVar && s.itv.kind != ImmVar
            && (|| (exists r :: INT_REG_NUMBER <= r < |ints| && s.itv in ints[r])
                || (exists r :: FLOAT_REG_NUMBER <= r < |floats| && s.itv in floats[r]))))
  }

  /** What the frame holds: the local data, the arguments passed on the stack at their places, the values of overflow
      registers, and nothing else. */
  lemma FrameComplete(live: seq<Interval>, a: Alloc)
    requires |a.ints| >= INT_REG_NUMBER && |a.floats| >= FLOAT_REG_NUMBER
    ensures var f := FrameOf(live, a.ints, a.floats);
            && |f.opSave| == OP_SAVE_STACK_NUM
            && (forall k :: 0 <= k < |live| && live[k].isAllocated ==>
                              exists s :: s in f.stackMap && HoldsData(s, live[k]))
            && (forall k :: 0 <= k < |live| && live[k].kind == ArgVar && live[k].spilled ==>
                  Slot(live[k], false, 4 * live[k].specific, 4) in f.stackMap)
            && (forall s :: s in f.stackMap && s.isData ==>
                  exists k :: 0 <= k < |live| && live[k].isAllocated && HoldsData(s, live[k]))
            && (forall s :: s in f.stackMap && !s.isData ==> HoldsWord(s, live, a.ints, a.floats))
  {
    hide HoldsData, ArgSlots, BankSlots, DataSlots, DataSize;
    var f := FrameOf(live, a.ints, a.floats);
    var args := ArgSlots(live);
    var save := 4 * |args|;
    var intTo, floatTo := UsedTo(a.ints, INT_REG_NUMBER), UsedTo(a.floats, FLOAT_REG_NUMBER);
    var intBase := save + 4 * OP_SAVE_STACK_NUM;
    var floatBase := intBase + 4 * (intTo - INT_REG_NUMBER);
    var dataBase := floatBase + 4 * (floatTo - FLOAT_REG_NUMBER);
    var b := BankSlots(a.ints, INT_REG_NUMBER, intTo, intBase);
    var c := BankSlots(a.floats, FLOAT_REG_NUMBER, floatTo, floatBase);
    var d := DataSlots(live, dataBase);
    assert f.stackMap == args + b + c + d;
    forall k | 0 <= k < |live| && live[k].isAllocated
      ensures exists s :: s in f.stackMap && HoldsData(s, live[k])
    {
      DataComplete(live, dataBase, k);
      var s :| s in d && HoldsData(s, live[k]);
      assert s in f.stackMap;
    }
    forall k | 0 <= k < |live| && live[k].kind == ArgVar && live[k].spilled
      ensures Slot(live[k], false, 4 * live[k].specific, 4) in f.stackMap
    {
      ArgComplete(live, k);
    }
    forall s | s in f.stackMap
      ensures s.isData ==> exists k :: 0 <= k < |live| && live[k].isAllocated && HoldsData(s, live[k])
      ensures !s.isData ==> HoldsWord(s, live, a.ints, a.floats)
    {
      if s in args {
        var i :| 0 <= i < |args| && args[i] == s;
        var k := ArgSlotsAt(live, i);
      } else if s in b {
        BankMember(a.ints, INT_REG_NUMBER, intTo, intBase, s);
      } else if s in c {
        BankMember(a.floats, FLOAT_REG_NUMBER, floatTo, floatBase, s);
      } else {
        DataOnly(live, dataBase, s);
      }
    }
  }

  /** Stopping at the first unused register forgets no spilled value. */
  lemma EverySpillHasASlot(live: seq<Interval>, a: Alloc, isFloat: bool, r: nat, x: Interval)
    requires |a.ints| >= INT_REG_NUMBER && |a.floats| >= FLOAT_REG_NUMBER
    requires NoGaps(a.ints, INT_REG_NUMBER) && NoGaps(a.floats, FLOAT_REG_NUMBER)
    requires (if isFloat then FLOAT_REG_NUMBER else INT_REG_NUMBER) <= r < |BankOf(a, isFloat)|
    requires x in BankOf(a, isFloat)[r] && x.kind != GlobalVar && x.kind != ImmVar
    ensures exists s :: s in FrameOf(live, a.ints, a.floats).stackMap && s.itv == x && !s.isData
  {
    hide NoGaps, UsedTo, FrameOf, BankSlots;
    var bank, first := BankOf(a, isFloat), if isFloat then FLOAT_REG_NUMBER else INT_REG_NUMBER;
    UsedBelow(bank, first, r);
    var base := FrameHolds(live, a, isFloat);
    BankComplete(bank, first, UsedTo(bank, first), base, r, x);
    var s := Slot(x, false, base + 4 * (r - first), 4);
    assert s in FrameOf(live, a.ints, a.floats).stackMap;
  }
}
