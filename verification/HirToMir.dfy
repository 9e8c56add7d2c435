/** The lowering of if and while trees to branches between basic blocks, built from the back. */
module HirToMir {
  import opened Hir
  import opened Lowering

  predicate Distinct(s: seq<Label>) {
    forall i, j :: 0 <= i < j < |s| ==> s[i] != s[j]
  }

  lemma DistinctParts(a: seq<Label>, b: seq<Label>)
    requires Distinct(a + b)
    ensures Distinct(a) && Distinct(b) && forall x :: x in a ==> x !in b
  {
    var s := a + b;
    forall i, j | 0 <= i < j < |a| ensures a[i] != a[j] { assert s[i] == a[i] && s[j] == a[j]; }
    forall i, j | 0 <= i < j < |b| ensures b[i] != b[j] { assert s[|a| + i] == b[i] && s[|a| + j] == b[j]; }
    forall i, j | 0 <= i < |a| && 0 <= j < |b| ensures a[i] != b[j] { assert s[i] == a[i] && s[|a| + j] == b[j]; }
  }

  lemma {:induction false} LayoutSplit(ts: seq<Tree>, i: nat)
    requires i <= |ts|
    ensures LayoutList(ts) == LayoutList(ts[..i]) + LayoutList(ts[i..])
    decreases i
  {
    if i == 0 {
      assert ts[..0] == [] && ts[0..] == ts;
    } else {
      LayoutSplit(ts[1..], i - 1);
      assert ts[1..][..i - 1] == ts[..i][1..] && ts[1..][i - 1..] == ts[i..];
      assert ts[..i][0] == ts[0];
    }
  }

  ghost predicate AgreeOn(code: Code, code': Code, bs: seq<Label>) {
    forall b :: b in bs ==> (b in code <==> b in code') && (b in code ==> code'[b] == code[b])
  }

  ghost predicate SameOutside(code: Code, code': Code, bs: seq<Label>) {
    forall b :: b in code && b !in bs ==> b in code' && code'[b] == code[b]
  }

  /** Code for the blocks of t stays that when other blocks change. */
  lemma {:induction false} LoweredFrame(code0: Code, code: Code, code': Code, t: Tree, k: Ctx)
    requires Lowered(code0, code, t, k) && AgreeOn(code, code', Layout(t))
    ensures Lowered(code0, code', t, k)
    decreases t
  {
    match t
    case Basic(b) =>
      assert b in Layout(t);
    case If(conds, thens, elses) =>
      assert Layout(t) == conds + LayoutList(elses) + LayoutList(thens);
      assert forall b :: b in conds || b in LayoutList(elses) || b in LayoutList(thens) ==> b in Layout(t);
      LoweredListFrame(code0, code, code', thens, k);
      LoweredListFrame(code0, code, code', elses, k);
    case While(conds, body) =>
      assert Layout(t) == conds + LayoutList(body);
      assert forall b :: b in conds || b in LayoutList(body) ==> b in Layout(t);
      LoweredListFrame(code0, code, code', body, Ctx(Target(t), Target(t), k.next));
  }

  lemma {:induction false} LoweredListFrame(code0: Code, code: Code, code': Code, ts: seq<Tree>, k: Ctx)
    requires LoweredList(code0, code, ts, k) && AgreeOn(code, code', LayoutList(ts))
    ensures LoweredList(code0, code', ts, k)
    decreases ts
  {
    if ts != [] {
      assert LayoutList(ts) == Layout(ts[0]) + LayoutList(ts[1..]);
      assert forall b :: b in Layout(ts[0]) || b in LayoutList(ts[1..]) ==> b in LayoutList(ts);
      LoweredFrame(code0, code, code', ts[0], k.(next := TargetOf(ts[1..], k.next)));
      LoweredListFrame(code0, code, code', ts[1..], k);
    }
  }

  ghost predicate AllBelow(code: Code, unused: Label) {
    forall b :: b in code ==> b < unused
  }

  /** The blocks of a tree that is still to be lowered are as the front end left them. */
  ghost predicate Untouched(code0: Code, code: Code, bs: seq<Label>, unused: Label) {
    Distinct(bs) && forall b :: b in bs ==> NULL < b < unused && b in code0 && b in code && code[b] == code0[b]
  }

  lemma UntouchedParts(code0: Code, code: Code, a: seq<Label>, b: seq<Label>, unused: Label)
    requires Untouched(code0, code, a + b, unused)
    ensures Untouched(code0, code, a, unused) && Untouched(code0, code, b, unused) && forall x :: x in a ==> x !in b
  {
    DistinctParts(a, b);
    forall x | x in a || x in b ensures x in a + b { }
  }

  lemma {:induction false} WellFormedAt(code: Code, ts: seq<Tree>, i: nat, after: Label, inLoop: bool)
    requires WellFormedList(code, ts, after, inLoop) && i < |ts|
    ensures WellFormed(code, ts[i], TargetOf(ts[i + 1..], after), inLoop)
    decreases i
  {
    if i > 0 {
      assert ts[1..][i - 1] == ts[i] && ts[1..][i - 1 + 1..] == ts[i + 1..];
      WellFormedAt(code, ts[1..], i - 1, after, inLoop);
    }
  }

  /** Before tree i of a body is lowered its blocks are still untouched. */
  lemma ListStep(code0: Code, before: Code, code: Code, ts: seq<Tree>, i: nat, unused: Label, next: Label, inLoop: bool)
    requires i < |ts| && Untouched(code0, before, LayoutList(ts), unused) && WellFormedList(code0, ts, next, inLoop)
    requires SameOutside(before, code, LayoutList(ts[i + 1..]))
    ensures Untouched(code0, code, Layout(ts[i]), unused)
    ensures WellFormed(code0, ts[i], TargetOf(ts[i + 1..], next), inLoop)
    ensures forall b :: b in Layout(ts[i]) ==> b !in LayoutList(ts[i + 1..])
    ensures LayoutList(ts[i..]) == Layout(ts[i]) + LayoutList(ts[i + 1..])
  {
    hide Distinct, WellFormed, Layout;
    LayoutSplit(ts, i);
    assert ts[i..][0] == ts[i] && ts[i..][1..] == ts[i + 1..];
    UntouchedParts(code0, before, LayoutList(ts[..i]), LayoutList(ts[i..]), unused);
    UntouchedParts(code0, before, Layout(ts[i]), LayoutList(ts[i + 1..]), unused);
    WellFormedAt(code0, ts, i, next, inLoop);
  }

  /** After tree i has been lowered the trees from i on are. */
  lemma ListStepDone(code0: Code, before: Code, code1: Code, code: Code, ts: seq<Tree>, i: nat, k: Ctx)
    requires i < |ts| && LayoutList(ts[i..]) == Layout(ts[i]) + LayoutList(ts[i + 1..])
    requires forall b :: b in Layout(ts[i]) ==> b !in LayoutList(ts[i + 1..])
    requires LoweredList(code0, code1, ts[i + 1..], k)
    requires Lowered(code0, code, ts[i], k.(next := TargetOf(ts[i + 1..], k.next)))
    requires SameOutside(before, code1, LayoutList(ts[i + 1..])) && SameOutside(code1, code, Layout(ts[i]))
    requires code1.Keys == code.Keys
    ensures LoweredList(code0, code, ts[i..], k) && SameOutside(before, code, LayoutList(ts[i..]))
  {
    hide Lowered, Layout;
    assert ts[i..][0] == ts[i] && ts[i..][1..] == ts[i + 1..];
    LoweredListFrame(code0, code1, code, ts[i + 1..], k);
  }

  lemma IfParts(code0: Code, code: Code, conds: seq<Label>, thens: seq<Tree>, elses: seq<Tree>, unused: Label)
    requires Untouched(code0, code, Layout(If(conds, thens, elses)), unused)
    ensures Untouched(code0, code, conds, unused) && Untouched(code0, code, LayoutList(thens), unused) &&
        Untouched(code0, code, LayoutList(elses), unused)
    ensures (forall b :: b in LayoutList(thens) ==> b !in LayoutList(elses) && b !in conds) &&
        forall b :: b in LayoutList(elses) ==> b !in conds
  {
    hide Distinct;
    UntouchedParts(code0, code, conds + LayoutList(elses), LayoutList(thens), unused);
    UntouchedParts(code0, code, conds, LayoutList(elses), unused);
    forall b | b in conds || b in LayoutList(elses) ensures b in conds + LayoutList(elses) { }
  }

  lemma WhileParts(code0: Code, code: Code, conds: seq<Label>, body: seq<Tree>, unused: Label)
    requires Untouched(code0, code, Layout(While(conds, body)), unused)
    ensures Untouched(code0, code, conds, unused) && Untouched(code0, code, LayoutList(body), unused)
    ensures forall b :: b in LayoutList(body) ==> b !in conds
  {
    hide Distinct;
    UntouchedParts(code0, code, conds, LayoutList(body), unused);
  }

  lemma UntouchedStays(code0: Code, code: Code, code': Code, changed: seq<Label>, bs: seq<Label>, unused: Label)
    requires Untouched(code0, code, bs, unused) && SameOutside(code, code', changed)
    requires forall b :: b in changed ==> b !in bs
    ensures Untouched(code0, code', bs, unused)
  {
    hide Distinct;
  }

  lemma IfDone(code0: Code, code1: Code, code2: Code, code3: Code, code: Code, conds: seq<Label>, thens: seq<Tree>,
      elses: seq<Tree>, k: Ctx)
    requires LoweredList(code0, code2, thens, k) && LoweredList(code0, code3, elses, k)
    requires LoweredConds(code0, code, conds, TargetOf(thens, k.next), TargetOf(elses, k.next),
             Ctx(NULL, k.entry, k.exit))
    requires SameOutside(code1, code2, LayoutList(thens)) && SameOutside(code2, code3, LayoutList(elses))
    requires SameOutside(code3, code, conds)
    requires code1.Keys == code2.Keys == code3.Keys == code.Keys
    requires (forall b :: b in LayoutList(thens) ==> b !in LayoutList(elses) && b !in conds) &&
        forall b :: b in LayoutList(elses) ==> b !in conds
    ensures Lowered(code0, code, If(conds, thens, elses), k)
    ensures SameOutside(code1, code, Layout(If(conds, thens, elses)))
  {
    hide LoweredList, Closed, LayoutList, Terminated;
    LoweredListFrame(code0, code2, code, thens, k);
    LoweredListFrame(code0, code3, code, elses, k);
    CondsNext(code0, code, conds, TargetOf(thens, k.next), TargetOf(elses, k.next), k);
    assert forall b :: b in conds || b in LayoutList(elses) || b in LayoutList(thens) ==>
        b in conds + LayoutList(elses) + LayoutList(thens);
  }

  lemma WhileDone(code0: Code, code1: Code, code2: Code, code: Code, conds: seq<Label>, body: seq<Tree>, k: Ctx)
    requires conds != [] && LoweredList(code0, code2, body, Ctx(conds[0], conds[0], k.next))
    requires LoweredConds(code0, code, conds, TargetOf(body, conds[0]), k.next, Ctx(NULL, k.entry, k.exit))
    requires SameOutside(code1, code2, LayoutList(body)) && SameOutside(code2, code, conds)
    requires code1.Keys == code2.Keys == code.Keys
    requires forall b :: b in LayoutList(body) ==> b !in conds
    ensures Lowered(code0, code, While(conds, body), k) && SameOutside(code1, code, Layout(While(conds, body)))
  {
    hide LoweredList, Closed, LayoutList, Terminated;
    LoweredListFrame(code0, code2, code, body, Ctx(conds[0], conds[0], k.next));
    CondsNext(code0, code, conds, TargetOf(body, conds[0]), k.next, k);
    assert forall b :: b in conds || b in LayoutList(body) ==> b in conds + LayoutList(body);
  }

  /** A condition's own `next` plays no part. */
  lemma CondsNext(code0: Code, code: Code, conds: seq<Label>, yes: Label, no: Label, k: Ctx)
    requires LoweredConds(code0, code, conds, yes, no, Ctx(NULL, k.entry, k.exit))
    ensures LoweredConds(code0, code, conds, yes, no, k)
  {
    hide Closed;
    forall i {:trigger conds[i]} | 0 <= i < |conds| - 1
      ensures code[conds[i]] == Closed(code0[conds[i]], k.(next := conds[i + 1]))
    {
      assert code[conds[i]] == Closed(code0[conds[i]], Ctx(NULL, k.entry, k.exit).(next := conds[i + 1]));
    }
  }

  lemma UntouchedEnd(code0: Code, code: Code, bs: seq<Label>, unused: Label, c: seq<Instr>)
    requires Untouched(code0, code, bs, unused)
    ensures Untouched(code0, code[unused := c], bs, unused + 1)
  {
    hide Distinct;
  }

  lemma UntouchedAt(code0: Code, code: Code, bs: seq<Label>, unused: Label, i: nat)
    requires Untouched(code0, code, bs, unused) && i < |bs|
    ensures NULL < bs[i] < unused && bs[i] in code0 && bs[i] in code && code[bs[i]] == code0[bs[i]]
    ensures bs[i] !in bs[i + 1..] && bs[i..] == [bs[i]] + bs[i + 1..]
    ensures forall j :: i < j < |bs| ==> bs[i] != bs[j]
  {
    assert bs[i] in bs;
  }

  lemma LastCond(code0: Code, conds: seq<Label>, yes: Label, no: Label)
    requires CondsOk(code0, conds, yes, no)
    ensures conds != [] && var b := conds[|conds| - 1]; b in code0 && code0[b] != [] && code0[b][|code0[b]| - 1].Op?
  {
  }

  /** The condition blocks from i on are lowered. */
  ghost predicate CondsFrom(code0: Code, code: Code, conds: seq<Label>, i: nat, yes: Label, no: Label, k: Ctx) {
    var holds :=
      && i < |conds| && (forall j :: i <= j < |conds| ==> conds[j] in code && conds[j] in code0)
      && (forall j {:trigger conds[j]} :: i <= j < |conds| - 1 ==>
                                            code[conds[j]] == Closed(code0[conds[j]], k.(next := conds[j + 1])))
      && (var b := conds[|conds| - 1];
          code0[b] != [] && code0[b][|code0[b]| - 1].Op? &&
              code[b] == code0[b] + [CondBr(code0[b][|code0[b]| - 1].id, yes, no)]);
    holds
  }

  lemma CondsBegin(code0: Code, before: Code, code: Code, conds: seq<Label>, yes: Label, no: Label, k: Ctx)
    requires CondsOk(code0, conds, yes, no)
    requires var b := conds[|conds| - 1];
             && b in before && before[b] == code0[b]
             && code == before[b := code0[b] + [CondBr(code0[b][|code0[b]| - 1].id, yes, no)]]
    ensures CondsFrom(code0, code, conds, |conds| - 1, yes, no, k) && SameOutside(before, code, conds[|conds| - 1..])
    ensures conds[|conds| - 1..] == [conds[|conds| - 1]]
  {
    hide Closed;
  }

  lemma SameAt(before: Code, code: Code, bs: seq<Label>, b: Label)
    requires SameOutside(before, code, bs) && b in before && b !in bs
    ensures b in code && code[b] == before[b]
  {
  }

  lemma CondsStep(code0: Code, before: Code, code1: Code, code: Code, conds: seq<Label>, i: nat, yes: Label, no: Label,
      k: Ctx)
    requires CondsFrom(code0, code1, conds, i + 1, yes, no, k)
    requires SameOutside(before, code1, conds[i + 1..]) && SameOutside(code1, code, [conds[i]])
    requires code.Keys == code1.Keys
    requires conds[i] in code && conds[i] in code0
    requires code[conds[i]] == Closed(code0[conds[i]], k.(next := conds[i + 1]))
    requires (forall j :: i < j < |conds| ==> conds[i] != conds[j]) && conds[i..] == [conds[i]] + conds[i + 1..]
    ensures CondsFrom(code0, code, conds, i, yes, no, k) && SameOutside(before, code, conds[i..])
  {
    hide Closed;
  }

  lemma CondsAll(code0: Code, code: Code, conds: seq<Label>, yes: Label, no: Label, k: Ctx)
    requires CondsFrom(code0, code, conds, 0, yes, no, k)
    ensures LoweredConds(code0, code, conds, yes, no, k)
  {
    hide Closed;
  }

  lemma BasicReady(code0: Code, code: Code, bb: Label, unused: Label)
    requires Untouched(code0, code, Layout(Basic(bb)), unused)
    ensures NULL < bb < unused && bb in code0 && bb in code && code[bb] == code0[bb] && Layout(Basic(bb)) == [bb]
  {
    assert bb in Layout(Basic(bb));
  }

  lemma BasicDone(code0: Code, code: Code, bb: Label, k: Ctx, ty: ResultType, end: Label)
    requires bb in code0 && bb in code
    ensures code[bb] == Closed(code0[bb], k) ==> Lowered(code0, code, Basic(bb), k)
    ensures code[bb] == (if Terminated(code0[bb]) then code0[bb] else code0[bb] + [RetDefault(ty)]) ==>
        LoweredLast(code0, code, Basic(bb), ty, end)
  {
  }

  lemma EndReady(code0: Code, code: Code, t: Tree, unused: Label, ty: ResultType)
    requires Untouched(code0, code, Layout(t), unused) && AllBelow(code, unused)
    ensures Untouched(code0, code[unused := [RetDefault(ty)]], Layout(t), unused + 1) &&
        AllBelow(code[unused := [RetDefault(ty)]], unused + 1)
    ensures unused !in Layout(t)
  {
    hide Layout;
    UntouchedEnd(code0, code, Layout(t), unused, [RetDefault(ty)]);
  }

  lemma EndDone(code0: Code, before: Code, code1: Code, code: Code, t: Tree, ty: ResultType, end: Label)
    requires !t.Basic? && Lowered(code0, code, t, Ctx(end, NULL, NULL)) && end !in Layout(t)
    requires end !in before && code1 == before[end := [RetDefault(ty)]] && SameOutside(code1, code, Layout(t))
    ensures LoweredLast(code0, code, t, ty, end) && SameOutside(before, code, Layout(t))
  {
    hide Lowered, Layout;
    assert end in code1;
  }

  /** Code for a whole function stays that when other blocks change. */
  lemma {:induction false} FunctionFrame(code0: Code, code: Code, code': Code, ts: seq<Tree>, ty: ResultType,
      end: Label)
    requires LoweredFunction(code0, code, ts, ty, end) && AgreeOn(code, code', LayoutList(ts) + [end])
    ensures LoweredFunction(code0, code', ts, ty, end)
    decreases ts
  {
    if ts != [] {
      assert LayoutList(ts) == Layout(ts[0]) + LayoutList(ts[1..]);
      assert forall b :: b in Layout(ts[0]) || b in LayoutList(ts[1..]) || b == end ==> b in LayoutList(ts) + [end];
      if |ts| > 1 {
        LoweredFrame(code0, code, code', ts[0], Ctx(Target(ts[1]), NULL, NULL));
        FunctionFrame(code0, code, code', ts[1..], ty, end);
      } else if ts[0].Basic? {
        assert ts[0].bb in Layout(ts[0]);
      } else {
        LoweredFrame(code0, code, code', ts[0], Ctx(end, NULL, NULL));
      }
    }
  }

  /** The trees from i on are lowered; end is the label kept for the block at the end of the function. */
  ghost predicate FunctionFrom(code0: Code, code: Code, blocks: seq<Label>, ts: seq<Tree>, i: nat, ty: ResultType,
      end: Label) {
    var holds :=
      && i < |ts| && LoweredFunction(code0, code, ts[i..], ty, end)
      && blocks == LayoutList(ts[i..]) + (if ts[|ts| - 1].Basic? then [] else [end])
      && SameOutside(code0, code, LayoutList(ts[i..]));
    holds
  }

  lemma LastDone(code0: Code, code: Code, blocks: seq<Label>, ts: seq<Tree>, ty: ResultType, end: Label)
    requires ts != []
    requires var t := ts[|ts| - 1];
             && LoweredLast(code0, code, t, ty, end) && SameOutside(code0, code, Layout(t))
             && blocks == Layout(t) + (if t.Basic? then [] else [end])
    ensures FunctionFrom(code0, code, blocks, ts, |ts| - 1, ty, end)
  {
    hide LoweredLast, Layout, SameOutside;
    var t := ts[|ts| - 1];
    assert ts[|ts| - 1..] == [t] && [t][1..] == [];
    assert LayoutList([t]) == Layout(t) + LayoutList([]) == Layout(t);
  }

  lemma FunctionStep(code0: Code, code1: Code, code: Code, blocks1: seq<Label>, blocks: seq<Label>, ts: seq<Tree>,
      i: nat, ty: ResultType, end: Label)
    requires FunctionFrom(code0, code1, blocks1, ts, i + 1, ty, end) && end !in Layout(ts[i]) && code.Keys == code1.Keys
    requires Lowered(code0, code, ts[i], Ctx(Target(ts[i + 1]), NULL, NULL)) && SameOutside(code1, code, Layout(ts[i]))
    requires blocks == Layout(ts[i]) + blocks1 && LayoutList(ts[i..]) == Layout(ts[i]) + LayoutList(ts[i + 1..])
    requires forall b :: b in Layout(ts[i]) ==> b !in LayoutList(ts[i + 1..])
    ensures FunctionFrom(code0, code, blocks, ts, i, ty, end)
  {
    hide Lowered, LoweredLast, Layout, LayoutList;
    var rest := ts[i + 1..];
    assert ts[i..][0] == ts[i] && ts[i..][1..] == rest && ts[i..][1] == ts[i + 1];
    assert AgreeOn(code1, code, LayoutList(rest) + [end]);
    FunctionFrame(code0, code1, code, rest, ty, end);
  }

  lemma FromSame(code0: Code, code: Code, blocks: seq<Label>, ts: seq<Tree>, i: nat, ty: ResultType, end: Label)
    requires FunctionFrom(code0, code, blocks, ts, i, ty, end)
    ensures SameOutside(code0, code, LayoutList(ts[i..]))
  {
  }

  lemma UntouchedLater(code0: Code, code: Code, bs: seq<Label>, unused: Label, unused': Label)
    requires Untouched(code0, code, bs, unused) && unused <= unused'
    ensures Untouched(code0, code, bs, unused') && unused !in bs
  {
    hide Distinct;
  }

  lemma FunctionDone(code0: Code, code: Code, blocks: seq<Label>, ts: seq<Tree>, ty: ResultType, end: Label)
    requires FunctionFrom(code0, code, blocks, ts, 0, ty, end) && Untouched(code0, code0, LayoutList(ts), end)
    ensures LoweredFunction(code0, code, ts, ty, end) && Distinct(blocks)
    ensures blocks == LayoutList(ts) + (if ts[|ts| - 1].Basic? then [] else [end])
    ensures Target(ts[0]) != NULL ==> blocks != [] && blocks[0] == Target(ts[0])
  {
    hide LoweredFunction;
    assert ts[0..] == ts;
    if Target(ts[0]) != NULL { FrontOfLayout(ts); }
    assert forall i :: 0 <= i < |LayoutList(ts)| ==> LayoutList(ts)[i] in LayoutList(ts);
  }

  lemma FrontOfLayout(ts: seq<Tree>)
    requires ts != [] && Target(ts[0]) != NULL
    ensures LayoutList(ts) != [] && LayoutList(ts)[0] == Target(ts[0])
  {
    assert Layout(ts[0]) != [] && Layout(ts[0])[0] == Target(ts[0]);
  }

  lemma ListBegins(code0: Code, code: Code, ts: seq<Tree>, next: Label, entry: Label, exit: Label)
    ensures ts[|ts|..] == [] && LayoutList([]) == [] && LoweredList(code0, code, [], Ctx(next, entry, exit))
    ensures SameOutside(code, code, [])
  {
  }

  class HirToMir {
    var baseBlocks: seq<Tree>
    var resultType: ResultType
    /** The instructions of every basic block and the list of basic blocks of the function. */
    var code: Code
    var basicBlocks: seq<Label>
    var unused: Label

    constructor (baseBlocks: seq<Tree>, resultType: ResultType, code: Code, unused: Label)
      ensures this.baseBlocks == baseBlocks && this.resultType == resultType && this.code == code &&
          this.unused == unused && basicBlocks == []
    {
      this.baseBlocks, this.resultType, this.code, this.unused, basicBlocks := baseBlocks, resultType, code, unused, [];
    }

    /** A basic block: returns at the end of the function, or else branches on unless it is terminated. */
    method GenBasic(bb: Label, next: Label, entry: Label, exit: Label)
      requires bb in code && (next == NULL ==> basicBlocks == [])
      modifies this`code, this`basicBlocks
      ensures basicBlocks == [bb] + old(basicBlocks) && code.Keys == old(code).Keys
      ensures SameOutside(old(code), code, [bb])
      ensures next != NULL ==> code[bb] == Closed(old(code)[bb], Ctx(next, entry, exit))
      ensures next == NULL ==> code[bb] == if Terminated(old(code)[bb]) then old(code)[bb]
                                           else old(code)[bb] + [RetDefault(resultType)]
    {
      if next == NULL && !Terminated(code[bb]) && basicBlocks == [] {
        code := code[bb := code[bb] + [RetDefault(resultType)]];
      } else if !Terminated(code[bb]) {
        var target := next;
        var c := code[bb];
        if c != [] {
          if c[|c| - 1].Break? {
            target := exit;
            c := c[..|c| - 1];
          } else if c[|c| - 1].Continue? {
            target := entry;
            c := c[..|c| - 1];
          }
        }
        code := code[bb := c + [Br(target)]];
      }
      basicBlocks := [bb] + basicBlocks;
    }

    /** The block that returns the default value at the end of the function. */
    method EndBlock() returns (end: Label)
      modifies this`code, this`basicBlocks, this`unused
      ensures end == old(unused) && unused == end + 1
      ensures basicBlocks == old(basicBlocks) + [end] && code == old(code)[end := [RetDefault(resultType)]]
    {
      end := unused;
      unused := unused + 1;
      basicBlocks := basicBlocks + [end];
      code := code[end := [RetDefault(resultType)]];
    }

    /** The blocks of a condition, the last one first. */
    method GenConds(conds: seq<Label>, yes: Label, no: Label, entry: Label, exit: Label,
        ghost code0: Code) returns (r: Label)
      requires CondsOk(code0, conds, yes, no) && Untouched(code0, code, conds, unused)
      modifies this`code, this`basicBlocks
      ensures r == conds[0] && basicBlocks == conds + old(basicBlocks)
      ensures LoweredConds(code0, code, conds, yes, no, Ctx(NULL, entry, exit))
      ensures code.Keys == old(code).Keys && SameOutside(old(code), code, conds)
    {
      hide Closed, CondsOk, Untouched, Terminated, CondsFrom, SameOutside, LoweredConds;
      LastCond(code0, conds, yes, no);
      var n := |conds| - 1;
      var last := conds[n];
      UntouchedAt(code0, code, conds, unused, n);
      var c := code[last];
      code := code[last := c + [CondBr(c[|c| - 1].id, yes, no)]];
      basicBlocks := [last] + basicBlocks;
      CondsBegin(code0, old(code), code, conds, yes, no, Ctx(NULL, entry, exit));
      r := last;
      var i := n;
      while i > 0
        invariant 0 <= i <= n && r == conds[i] && r != NULL && basicBlocks == conds[i..] + old(basicBlocks)
        invariant code.Keys == old(code).Keys && SameOutside(old(code), code, conds[i..])
        invariant CondsFrom(code0, code, conds, i, yes, no, Ctx(NULL, entry, exit))
      {
        i := i - 1;
        ghost var code1 := code;
        UntouchedAt(code0, old(code), conds, unused, i);
        SameAt(old(code), code1, conds[i + 1..], conds[i]);
        GenBasic(conds[i], r, entry, exit);
        r := conds[i];
        CondsStep(code0, old(code), code1, code, conds, i, yes, no, Ctx(NULL, entry, exit));
      }
      CondsAll(code0, code, conds, yes, no, Ctx(NULL, entry, exit));
    }

    /** The trees of a body from the last to the first, each continuing at the one after it. */
    method GenList(ts: seq<Tree>, next: Label, entry: Label, exit: Label, ghost code0: Code,
        ghost inLoop: bool) returns (cur: Label)
      requires NULL < next < unused && AllBelow(code, unused) && Untouched(code0, code, LayoutList(ts), unused) &&
          WellFormedList(code0, ts, next, inLoop)
      modifies this`code, this`basicBlocks, this`unused
      ensures cur == TargetOf(ts, next) && NULL < cur < unused && unused == old(unused)
      ensures LoweredList(code0, code, ts, Ctx(next, entry, exit)) && basicBlocks == LayoutList(ts) + old(basicBlocks)
      ensures code.Keys == old(code).Keys && SameOutside(old(code), code, LayoutList(ts))
      decreases ts, 0
    {
      hide Untouched, WellFormedList, LoweredList, Lowered, WellFormed, Layout, LayoutList, SameOutside, LoweredLast;
      ListBegins(code0, code, ts, next, entry, exit);
      ghost var k := Ctx(next, entry, exit);
      cur := next;
      var i := |ts|;
      while i > 0
        invariant 0 <= i <= |ts| && cur == TargetOf(ts[i..], next) && NULL < cur < unused && unused == old(unused)
        invariant LoweredList(code0, code, ts[i..], k) && basicBlocks == LayoutList(ts[i..]) + old(basicBlocks)
        invariant code.Keys == old(code).Keys && SameOutside(old(code), code, LayoutList(ts[i..]))
      {
        i := i - 1;
        ghost var code1 := code;
        ListStep(code0, old(code), code, ts, i, unused, next, inLoop);
        cur := GenBasicBlock(ts[i], cur, entry, exit, code0, inLoop);
        ListStepDone(code0, old(code), code1, code, ts, i, k);
      }
      assert ts[0..] == ts;
    }

    /** Lowers one tree; the result is the block to enter it by. */
    method GenBasicBlock(t: Tree, next: Label, entry: Label, exit: Label, ghost code0: Code,
        ghost inLoop: bool) returns (r: Label)
      requires Untouched(code0, code, Layout(t), unused) && next < unused && AllBelow(code, unused)
      requires WellFormed(code0, t, if next == NULL then unused else next, inLoop)
      requires next == NULL ==> basicBlocks == [] && !inLoop && entry == NULL && exit == NULL
      modifies this`code, this`basicBlocks, this`unused
      ensures r == Target(t) && NULL < r < unused
      ensures SameOutside(old(code), code, Layout(t)) && AllBelow(code, unused)
      ensures next != NULL ==>
        && Lowered(code0, code, t, Ctx(next, entry, exit)) && basicBlocks == Layout(t) + old(basicBlocks)
        && unused == old(unused) && code.Keys == old(code).Keys
      ensures next == NULL ==>
        && LoweredLast(code0, code, t, resultType, old(unused))
        && basicBlocks == Layout(t) + (if t.Basic? then [] else [old(unused)])
        && unused == old(unused) + (if t.Basic? then 0 else 1)
        && code.Keys == old(code).Keys + (if t.Basic? then {} else {old(unused)})
      decreases t, 1
    {
      hide WellFormed, WellFormedList, Lowered, LoweredLast, Layout, Untouched, SameOutside, Closed;
      ghost var before := code;
      if t.Basic? {
        BasicReady(code0, code, t.bb, unused);
        GenBasic(t.bb, next, entry, exit);
        r := t.bb;
        BasicDone(code0, code, t.bb, Ctx(next, entry, exit), resultType, unused);
        return;
      }
      var next' := next;
      if next == NULL {
        EndReady(code0, code, t, unused, resultType);
        next' := EndBlock();
      }
      ghost var code1 := code;
      if t.If? {
        r := GenIf(t.conds, t.thens, t.elses, next', entry, exit, code0, inLoop);
      } else {
        r := GenWhile(t.conds, t.body, next', entry, exit, code0, inLoop);
      }
      if next == NULL {
        EndDone(code0, before, code1, code, t, resultType, next');
      }
    }

    /** Lowers the two branches, then the condition. */
    method GenIf(conds: seq<Label>, thens: seq<Tree>, elses: seq<Tree>, next: Label, entry: Label, exit: Label,
                 ghost code0: Code, ghost inLoop: bool) returns (r: Label)
      requires Untouched(code0, code, Layout(If(conds, thens, elses)), unused) && NULL < next < unused
      requires AllBelow(code, unused)
      requires WellFormed(code0, If(conds, thens, elses), next, inLoop)
      modifies this`code, this`basicBlocks, this`unused
      ensures r == Target(If(conds, thens, elses)) && NULL < r < unused && unused == old(unused)
      ensures Lowered(code0, code, If(conds, thens, elses), Ctx(next, entry, exit))
      ensures basicBlocks == Layout(If(conds, thens, elses)) + old(basicBlocks)
      ensures code.Keys == old(code).Keys && SameOutside(old(code), code, Layout(If(conds, thens, elses)))
      decreases If(conds, thens, elses), 0
    {
      hide Untouched, WellFormedList, LoweredList, Lowered, LayoutList, SameOutside, LoweredConds, CondsOk;
      ghost var code1, k := code, Ctx(next, entry, exit);
      IfParts(code0, code1, conds, thens, elses, unused);
      LastCond(code0, conds, TargetOf(thens, next), TargetOf(elses, next));
      UntouchedAt(code0, code1, conds, unused, 0);
      var yes := GenList(thens, next, entry, exit, code0, inLoop);
      ghost var code2 := code;
      UntouchedStays(code0, code1, code2, LayoutList(thens), LayoutList(elses), unused);
      UntouchedStays(code0, code1, code2, LayoutList(thens), conds, unused);
      var no := GenList(elses, next, entry, exit, code0, inLoop);
      ghost var code3 := code;
      UntouchedStays(code0, code2, code3, LayoutList(elses), conds, unused);
      r := GenConds(conds, yes, no, entry, exit, code0);
      IfDone(code0, code1, code2, code3, code, conds, thens, elses, k);
    }

    /** Lowers the body, which continues at the first condition block, then the condition. */
    method GenWhile(conds: seq<Label>, body: seq<Tree>, next: Label, entry: Label, exit: Label, ghost code0: Code,
        ghost inLoop: bool) returns (r: Label)
      requires Untouched(code0, code, Layout(While(conds, body)), unused) && NULL < next < unused
      requires AllBelow(code, unused)
      requires WellFormed(code0, While(conds, body), next, inLoop)
      modifies this`code, this`basicBlocks, this`unused
      ensures r == Target(While(conds, body)) && NULL < r < unused && unused == old(unused)
      ensures Lowered(code0, code, While(conds, body), Ctx(next, entry, exit))
      ensures basicBlocks == Layout(While(conds, body)) + old(basicBlocks)
      ensures code.Keys == old(code).Keys && SameOutside(old(code), code, Layout(While(conds, body)))
      decreases While(conds, body), 0
    {
      hide Untouched, WellFormedList, LoweredList, Lowered, LayoutList, SameOutside, LoweredConds, CondsOk;
      ghost var code1, k := code, Ctx(next, entry, exit);
      LastCond(code0, conds, TargetOf(body, Target(While(conds, body))), next);
      var first := conds[0];
      WhileParts(code0, code1, conds, body, unused);
      UntouchedAt(code0, code1, conds, unused, 0);
      var yes := GenList(body, first, first, next, code0, true);
      ghost var code2 := code;
      UntouchedStays(code0, code1, code2, LayoutList(body), conds, unused);
      r := GenConds(conds, yes, next, entry, exit, code0);
      WhileDone(code0, code1, code2, code, conds, body, k);
    }

    /** Lowers a function; its first basic block is where its first tree starts. */
    method Run()
      requires Untouched(code, code, LayoutList(baseBlocks), unused) && AllBelow(code, unused) && basicBlocks == []
      requires WellFormedList(code, baseBlocks, unused, false) && unused > NULL
      modifies this
      ensures baseBlocks == [] && resultType == old(resultType)
      ensures old(baseBlocks) == [] ==> basicBlocks == [] && code == old(code)
      ensures old(baseBlocks) != [] ==>
        && LoweredFunction(old(code), code, old(baseBlocks), resultType, old(unused))
        && basicBlocks ==
           LayoutList(old(baseBlocks)) + (if old(baseBlocks[|baseBlocks| - 1].Basic?) then [] else [old(unused)])
        && Distinct(basicBlocks) && basicBlocks != [] && basicBlocks[0] == Target(old(baseBlocks)[0])
    {
      hide LoweredFunction, LayoutList, Layout, WellFormedList, WellFormed, Lowered, LoweredLast, Distinct, SameOutside,
          FunctionFrom, Untouched, AllBelow;
      ghost var code0, end := code, unused;
      var ts := baseBlocks;
      var next := NULL;
      var i := |ts|;
      ListBegins(code0, code, ts, NULL, NULL, NULL);
      while i > 0
        invariant 0 <= i <= |ts| && unused >= end && resultType == old(resultType) && AllBelow(code, unused)
        invariant i == |ts| ==> next == NULL && code == code0 && basicBlocks == [] && unused == end
        invariant i < |ts| ==>
                    && NULL < next < unused && next == Target(ts[i])
                    && FunctionFrom(code0, code, basicBlocks, ts, i, resultType, end)
        invariant SameOutside(code0, code, LayoutList(ts[i..]))
        decreases i
      {
        i := i - 1;
        ghost var code1, blocks1 := code, basicBlocks;
        ListStep(code0, code0, code, ts, i, end, end, false);
        UntouchedLater(code0, code, Layout(ts[i]), end, unused);
        assert TargetOf(ts[i + 1..], end) == if i == |ts| - 1 then end else Target(ts[i + 1]);
        next := GenBasicBlock(ts[i], next, NULL, NULL, code0, false);
        if i == |ts| - 1 {
          LastDone(code0, code, basicBlocks, ts, resultType, end);
        } else {
          FunctionStep(code0, code1, code, blocks1, basicBlocks, ts, i, resultType, end);
        }
        FromSame(code0, code, basicBlocks, ts, i, resultType, end);
      }
      baseBlocks := [];
      if ts != [] {
        FunctionDone(code0, code, basicBlocks, ts, resultType, end);
      }
    }
  }
}
