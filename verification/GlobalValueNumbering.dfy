/** Value numbering with scoped tables over extended blocks. */
module GlobalValueNumbering {
  import opened Cfg
  import opened ValueTable
  import opened ValueOrder
  import opened ValueFlow
  import opened ValueRepeat
  import opened ValueWalk
  import opened ValueSearch
  import opened ValueAddress
  import opened ValueExtended
  import opened ValueWhole
  import opened Wrappers

  class GlobalValueNumbering {
    const g: Graph
    const code: Code
    const keys: seq<nat>
    var lists: Lists
    var tables: Tables
    var gone: map<nat, Value>
    var waitDelete: seq<nat>
    var visited: set<Block>
    var workList: seq<Block>
    ghost var order: seq<Block>
    ghost const f: Interp
    ghost const before: Before
    ghost const first: Lists
    ghost var at: nat
    ghost var stuck: Tables

    /** keys are the instructions in the order of their addresses. */
    constructor (g: Graph, code: Code, keys: seq<nat>, lists: Lists, ghost f: Interp, ghost before: Before)
      ensures this.g == g && this.code == code && this.keys == keys
      ensures this.lists == this.first == lists && this.f == f && this.before == before
      ensures tables == Tables([], [], []) && gone == map[] && waitDelete == [] && visited == {} && workList == []
      ensures order == []
    {
      this.g, this.code, this.keys, this.lists, this.first, this.f, this.before := g, code, keys, lists, lists, f,
          before;
      tables, gone, waitDelete, visited, workList, order := Tables([], [], []), map[], [], {}, [], [];
    }

    /** The tables are sound where avail is available. */
    ghost predicate Here(avail: set<nat>)
      reads this`tables, this`gone
    {
      Ready(f, code, before, gone, avail, tables) && Tidy(code, tables) && GoneKinds(code, gone)
    }

    ghost function Scene(): Context
      reads this`gone
    {
      Context(code, gone, keys)
    }

    ghost function Whole(): Input {
      Input(g, code, first, keys)
    }

    ghost function Stage(): Progress
      reads this
    {
      Progress(tables, gone, order, visited, workList)
    }

    /** The search for instruction at, begun with the tables stuck, nests deeper than fuel. */
    ghost predicate Failed(fuel: nat)
      reads this
    {
      && Fit(Scene()) && Scoped(stuck) && Var(at) in Pool(code)
      && Look(Scene(), stuck, Var(at), Fuel(fuel)).Spent?
    }

    /** Constants are the same when they print the same. */
    method FindConstant(s: map<Value, Value>, v: Value) returns (r: Found)
      ensures r.Hit? ==> v.Const? && exists c :: c in s && c.Const? && c.name == v.name && s[c] == r.value
      ensures r.Missing? && v.Const? ==> forall c :: c in s && c.Const? ==> c.name != v.name
    {
      r := Missing;
      if v.Const? {
        var keys := s.Keys;
        while keys != {}
          invariant keys <= s.Keys && forall c :: c in s && c.Const? && c.name == v.name ==> c in keys
        {
          var c :| c in keys;
          if c.Const? && c.name == v.name { return Hit(s[c]); }
          keys := keys - {c};
        }
      }
    }

    /** The innermost scope that knows v decides. */
    method FindOnTable(v: Value) returns (r: Found)
      requires |tables.binary| == |tables.gep| == |tables.values|
      ensures r.Missing? ==> NoneInside(code, gone, tables, 0, v)
      ensures r.Hit? ==> Innermost(code, gone, tables, v, r.value)
      ensures r.Missing? && v.Var? && v.id in code && code[v.id].op.Gep? ==>
                forall n :: 0 <= n < |tables.gep| ==> v.id !in tables.gep[n]
      ensures r.Missing? && v.Var? && v.id in code && code[v.id].op.Binary? && |code[v.id].args| == 2 ==>
                var x, y := Resolve(code[v.id].args[0], gone), Resolve(code[v.id].args[1], gone);
                forall n :: 0 <= n < |tables.binary| ==>
                  && Key(x, y, code[v.id].op) !in tables.binary[n]
                  && (code[v.id].op.comm ==> Key(y, x, code[v.id].op) !in tables.binary[n])
      ensures r.Missing? && v.Const? ==>
                forall n, c :: 0 <= n < |tables.values| && c in tables.values[n] && c.Const? ==> c.name != v.name
    {
      r := Missing;
      var n: nat := |tables.binary|;
      if IsGep(code, v) {
        while n > 0
          invariant n <= |tables.binary| && NoneInside(code, gone, tables, n, v)
        {
          n := n - 1;
          if v.id in tables.gep[n] {
            assert HitAt(code, gone, tables, n, v, tables.gep[n][v.id]);
            return Hit(tables.gep[n][v.id]);
          }
        }
      } else if IsBinary(code, v) {
        var k := KeyOf(code, gone, v.id);
        while n > 0
          invariant n <= |tables.binary| && NoneInside(code, gone, tables, n, v)
        {
          n := n - 1;
          if k in tables.binary[n] {
            assert HitAt(code, gone, tables, n, v, tables.binary[n][k]);
            return Hit(tables.binary[n][k]);
          } else if code[v.id].op.comm {
            if Swapped(k) in tables.binary[n] {
              assert HitAt(code, gone, tables, n, v, tables.binary[n][Swapped(k)]);
              return Hit(tables.binary[n][Swapped(k)]);
            }
          }
        }
      } else {
        while n > 0
          invariant n <= |tables.binary| && NoneInside(code, gone, tables, n, v)
        {
          n := n - 1;
          if v in tables.values[n] {
            assert HitAt(code, gone, tables, n, v, tables.values[n][v]);
            return Hit(tables.values[n][v]);
          }
          var c := FindConstant(tables.values[n], v);
          if c.Hit? {
            assert HitAt(code, gone, tables, n, v, c.value);
            return c;
          }
        }
      }
      NoneMeans(code, gone, tables, v);
    }

    method PushValueToTable(v: Value)
      requires tables.binary != [] && tables.gep != [] && tables.values != []
      requires v.Var? && v.id in code && code[v.id].op.Binary? ==> |code[v.id].args| == 2
      modifies this`tables
      ensures tables == PushOwn(code, gone, old(tables), v)
    {
      if IsGep(code, v) {
        var n := |tables.gep| - 1;
        var scope: map<nat, Value> := tables.gep[n];
        if v.id !in scope { scope := scope[v.id := v]; }
        tables := tables.(gep := tables.gep[n := scope]);
      } else if IsBinary(code, v) {
        var n := |tables.binary| - 1;
        var k, scope := KeyOf(code, gone, v.id), tables.binary[n];
        if k !in scope { scope := scope[k := v]; }
        tables := tables.(binary := tables.binary[n := scope]);
      } else {
        var n := |tables.values| - 1;
        var scope := tables.values[n];
        if v !in scope { scope := scope[v := v]; }
        tables := tables.(values := tables.values[n := scope]);
      }
    }

    /** The value that stands for v, entering v itself when nothing does. The search may come back to the same
        address computation; ok is false when it nests deeper than fuel. */
    method LookUpOrAdd(ghost avail: set<nat>, v: Value, fuel: nat) returns (ok: bool, r: Value)
      requires Here(avail) && CanLook(code, gone, avail, v) && v in Pool(code)
      requires (v.Var? ==> v.id in before && before[v.id] <= avail)
      modifies this`tables
      ensures Fit(Scene()) && Scoped(old(tables))
      ensures Look(Scene(), old(tables), v, Fuel(fuel)) == if ok then Ended(tables, r) else Spent
      ensures ok ==> Here(Plus(avail, v)) && Grown(old(tables), tables)
      ensures ok ==> Same(f, code, Plus(avail, v), v, r) && Usable(r, Plus(avail, v), gone) && (r != v ==> Here(avail))
      ensures ok && !NoneInside(code, gone, old(tables), 0, v) ==>
                tables == old(tables) && Innermost(code, gone, tables, v, r) && (r == v && v.Var? ==> v.id in avail)
      ensures ok && r == v ==> !NoneInside(code, gone, tables, 0, v)
      ensures ok && IsNumbered(code, v) ==> SameKind(code, v, r)
      decreases fuel, 0
    {
      hide Ready, Same, Usable, CanLook, NoneInside, Grown, Innermost, PushOwn, ArgsIn, Tidy, GoneKinds, Fit, Pool,
          OnTable, FindInstr, Later;
      LookFacts(f, code, before, gone, avail, tables, v);
      SceneFits(f, code, before, gone, avail, tables, keys);
      TidyNames(code, tables);
      var found := FindOnTable(v);
      OnTableIs(Scene(), tables, v, found);
      if found.Hit? {
        FoundIsSame(f, code, before, gone, avail, tables, v, found.value);
        FoundKind(code, gone, tables, v, found.value);
        GrownRefl(tables);
        return true, found.value;
      }
      if v.Var? && code[v.id].op.Numbered() {
        if fuel == 0 { return false, v; }
        ok, r := FindSameInstrInTable(avail, v.id, fuel - 1);
        if !ok { return; }
        if r != v {
          InstrFound(f, code, before, gone, avail, tables, v.id, r);
          return;
        }
        LookFacts(f, code, before, gone, avail, tables, v);
      }
      // Other instructions have no equal in the tables; a constant is searched once more, with the same outcome.
      ghost var was := tables;
      PushValueToTable(v);
      PushedNotMissing(code, gone, was, v);
      PushShape(code, gone, was, v);
      PushGrows(code, gone, was, v);
      GrownTrans(old(tables), was, tables);
      PushTidy(code, gone, was, v);
      TidyNames(code, tables);
      var again := FindOnTable(v);
      OnTableIs(Scene(), tables, v, again);
      ok, r := true, again.value;
      AfterPush(f, code, before, gone, avail, was, v, r);
      FoundKind(code, gone, tables, v, r);
    }

    /** The values that stand for the present operands of instruction i. */
    method LookUpOperands(ghost avail: set<nat>, i: nat, fuel: nat) returns (ok: bool, ys: seq<Value>)
      requires Here(avail) && i in code && i in before && code[i].op.Numbered() && ArgsIn(code, i, avail)
      modifies this`tables
      ensures Fit(Scene()) && Scoped(old(tables)) && forall v :: v in Args(code, i, gone) ==> v in Pool(code)
      ensures LookAll(Scene(), old(tables), Args(code, i, gone), [], Fuel(fuel)) ==
                if ok then Ended(tables, ys) else Spent
      ensures ok ==> Here(avail) && Grown(old(tables), tables) && SameAll(f, code, avail, Args(code, i, gone), ys)
      decreases fuel, 1
    {
      hide Ready, Same, Usable, CanLook, NoneInside, Grown, Innermost, ArgsIn, Tidy, GoneKinds, Fit, Pool, Look, Later;
      SceneFits(f, code, before, gone, avail, tables, keys);
      ArgsInPool(Scene(), i);
      var args := Args(code, i, gone);
      ys := [];
      GrownRefl(tables);
      while |ys| < |args|
        invariant |ys| <= |args| && Here(avail) && Grown(old(tables), tables)
        invariant SameAll(f, code, avail, args[..|ys|], ys)
        invariant Scoped(tables)
        invariant LookAll(Scene(), old(tables), args, [], Fuel(fuel)) == LookAll(Scene(), tables, args, ys, Fuel(fuel))
      {
        ghost var was := tables;
        OperandLooks(f, code, before, gone, avail, tables, i, |ys|);
        OperandBefore(f, code, before, gone, avail, tables, args[|ys|]);
        var y;
        ok, y := LookUpOrAdd(avail, args[|ys|], fuel);
        if !ok { return; }
        GrownTrans(old(tables), was, tables);
        GrownShape(was, tables);
        SameAllMore(f, code, avail, args, ys, y);
        ys := ys + [y];
      }
      assert args[..|ys|] == args;
      ok := true;
    }

    /** An instruction in the tables with the same operation on the same values; i itself when there is none. */
    method FindSameInstrInTable(ghost avail: set<nat>, i: nat, fuel: nat) returns (ok: bool, r: Value)
      requires Here(avail) && i in code && i in before && ArgsIn(code, i, avail)
      modifies this`tables
      ensures Fit(Scene()) && Scoped(old(tables))
      ensures Finds(FindInstr(Scene(), old(tables), i, Fuel(fuel)), ok, tables, i, r)
      ensures ok ==> Here(avail) && Grown(old(tables), tables)
      ensures ok && r != Var(i) ==> Same(f, code, avail + {i}, Var(i), r) && Usable(r, avail, gone)
      ensures ok && code[i].op.Numbered() ==> SameKind(code, Var(i), r)
      decreases fuel, 3
    {
      hide Ready, Same, Usable, CanLook, Grown, SameAll, Tidy, GoneKinds, Fit, Pool, LookAll, Scan, Later;
      SceneFits(f, code, before, gone, avail, tables, keys);
      ok, r := true, Var(i);
      GrownRefl(tables);
      if code[i].op.Binary? {
        var ys;
        ok, ys := LookUpOperands(avail, i, fuel);
        if !ok { return; }
        assert |ys| == 2 by { SameAllLength(f, code, avail, Args(code, i, gone), ys); }
        assert ys == [ys[0], ys[1]];
        TwoArgs(Scene(), i);
        var n := 0;
        while n < |tables.binary|
          invariant FirstKey(tables.binary, Key(ys[0], ys[1], code[i].op), 0) == FirstKey(tables.binary,
                    Key(ys[0], ys[1], code[i].op), n)
        {
          // For commutative operations the same key is tried a second time, with the same outcome.
          var k := Key(ys[0], ys[1], code[i].op);
          if k in tables.binary[n] {
            KeyFound(f, code, before, gone, avail, tables, n, i, ys[0], ys[1]);
            KeyKind(code, tables, n, k);
            return true, tables.binary[n][k];
          }
          n := n + 1;
        }
      } else if code[i].op.Gep? {
        ok, r := FindSameGep(avail, i, fuel);
      }
    }

    method FindSameGep(ghost avail: set<nat>, i: nat, fuel: nat) returns (ok: bool, r: Value)
      requires Here(avail) && i in code && i in before && code[i].op.Gep? && ArgsIn(code, i, avail)
      modifies this`tables
      ensures Fit(Scene()) && Scoped(old(tables))
      ensures Finds(FindInstr(Scene(), old(tables), i, Fuel(fuel)), ok, tables, i, r)
      ensures ok ==> Here(avail) && Grown(old(tables), tables)
      ensures ok && r != Var(i) ==> Same(f, code, avail + {i}, Var(i), r) && Usable(r, avail, gone)
      ensures ok ==> SameKind(code, Var(i), r)
      decreases fuel, 2
    {
      hide Ready, Same, Usable, CanLook, Grown, SameAll, Tidy, GoneKinds, Fit, Pool, LookAll, Later;
      SceneFits(f, code, before, gone, avail, tables, keys);
      r := Var(i);
      var oprds;
      ok, oprds := LookUpOperands(avail, i, fuel);
      if !ok { return; }
      var n, count := 0, |tables.gep|;
      GrownShape(old(tables), tables);
      ghost var c, lim, start := Scene(), Fuel(fuel), tables;
      while n < count
        invariant n <= count == |tables.gep| && Here(avail) && Grown(old(tables), tables) && Scoped(tables)
        invariant Scan(c, start, oprds, start.gep[0], 0, 0, lim) == Scan(c, tables, oprds,
            if n < count then tables.gep[n] else map[], n, 0, lim)
      {
        // The scope is copied before its keys are gone through, in the order of their addresses.
        var scope := tables.gep[n];
        ScopeEntries(f, code, before, gone, avail, tables, n);
        TidyScope(code, tables, n);
        var k := 0;
        while k < |keys|
          invariant k <= |keys| && n < count == |tables.gep| && Here(avail) && Grown(old(tables), tables)
          invariant Scoped(tables)
          invariant GepEntries(f, code, avail, gone, scope) && Selves(code, scope)
          invariant Scan(c, start, oprds, start.gep[0], 0, 0, lim) == Scan(c, tables, oprds, scope, n, k, lim)
        {
          var j := keys[k];
          if j in scope {
            ghost var was := tables;
            assert Plus(avail, Var(j)) == avail;
            OperandBefore(f, code, before, gone, avail, tables, Var(j));
            var oprds2;
            ok, oprds2 := LookUpOperands(avail, j, fuel);
            if !ok { return; }
            GrownTrans(old(tables), was, tables);
            GrownShape(was, tables);
            if oprds == oprds2 {
              GepFound(f, code, before, gone, avail, tables, scope, i, j, oprds);
              return true, scope[j];
            }
          }
          k := k + 1;
        }
        n := n + 1;
      }
      ok := true;
    }

    method DeleteValueFromTable(d: nat)
      modifies this`tables
      ensures tables == Deleted(code, gone, old(tables), d)
    {
      var n := 0;
      if IsGep(code, Var(d)) {
        var scopes := tables.gep;
        while n < |scopes|
          invariant n <= |scopes| == |tables.gep| && forall m :: 0 <= m < |scopes| ==>
              scopes[m] == if m < n then tables.gep[m] - {d} else tables.gep[m]
        {
          var scope: map<nat, Value> := scopes[n] - {d};
          scopes := scopes[n := scope];
          n := n + 1;
        }
        assert scopes == Erase(tables.gep, d);
        tables := tables.(gep := scopes);
      } else if IsBinary(code, Var(d)) {
        var k, scopes := KeyOf(code, gone, d), tables.binary;
        while n < |scopes|
          invariant n <= |scopes| == |tables.binary|
          invariant forall m :: 0 <= m < |scopes| ==>
                      scopes[m] == if m < n then tables.binary[m] - {k} - {k} else tables.binary[m]
        {
          // For commutative operations the key with swapped operands is built but not used.
          scopes := scopes[n := scopes[n] - {k}];
          scopes := scopes[n := scopes[n] - {k}];
          n := n + 1;
        }
        assert scopes == Erase(Erase(tables.binary, k), k);
        tables := tables.(binary := scopes);
      }
    }

    /** All uses of d read r from now on. */
    method Replace(d: nat, r: Value)
      requires r != Var(d)
      modifies this`tables, this`gone, this`waitDelete
      ensures tables == Deleted(code, old(gone), old(tables), d) && gone == old(gone)[d := r]
      ensures waitDelete == old(waitDelete) + [d]
    {
      DeleteValueFromTable(d);
      gone := gone[d := r];
      waitDelete := waitDelete + [d];
    }

    /** One instruction: it is replaced by what the innermost scope that knows it holds; if it stays the tables know
        it. */
    method Number(ghost avail: set<nat>, d: nat, fuel: nat) returns (ok: bool)
      requires Here(avail) && d in code && d in before && before[d] == avail && ArgsIn(code, d, avail)
      requires d !in gone && d !in avail && forall y :: y in gone ==> gone[y] != Var(d)
      modifies this`tables, this`gone, this`waitDelete, this`at, this`stuck
      ensures Fit(old(Scene())) && Scoped(old(tables)) && Var(d) in Pool(code)
      ensures !ok ==> Failed(fuel)
      ensures ok ==> Here(avail + {d}) && Shrunk(old(tables), tables)
      ensures ok ==> (gone == old(gone) && waitDelete == old(waitDelete)) ||
                     (exists r :: gone == old(gone)[d := r] && waitDelete == old(waitDelete) + [d] &&
                                  (r.Var? ==> r.id in avail))
      ensures code[d].op.Numbered() ==> ok == Look(old(Scene()), old(tables), Var(d), Fuel(fuel)).Ended?
      ensures ok && code[d].op.Numbered() ==>
                var s := Look(old(Scene()), old(tables), Var(d), Fuel(fuel));
                if s.r == Var(d) then gone == old(gone) && tables == s.t
                else gone == old(gone)[d := s.r] && tables == Deleted(code, old(gone), s.t, d)
      ensures ok && code[d].op.Numbered() && !NoneInside(code, old(gone), old(tables), 0, Var(d)) ==>
                d in gone && Innermost(code, old(gone), old(tables), Var(d), gone[d])
      ensures ok && code[d].op.Numbered() && d !in gone ==> !NoneInside(code, gone, tables, 0, Var(d))
      ensures !code[d].op.Numbered() ==> ok && tables == old(tables) && gone == old(gone)
      ensures NumberOne(Whole(), old(tables), old(gone), d, Deep(fuel)) == if ok then Some((tables, gone)) else None
    {
      hide Ready, Same, Grown, Shrunk, Deleted, Down, ArgsIn, PushOwn, NoneInside, Innermost, Tidy, GoneKinds, Fit,
          Pool, Look, Later;
      SceneFits(f, code, before, gone, avail, tables, keys);
      ArgsInPool(Scene(), d);
      GrownRefl(tables);
      GrownShrunk(tables, tables);
      ok := true;
      if code[d].op.Numbered() {
        at, stuck := d, tables;
        NumberLooks(f, code, before, gone, avail, tables, d);
        LookFacts(f, code, before, gone, avail, tables, Var(d));
        var r;
        ok, r := LookUpOrAdd(avail, Var(d), fuel);
        if !ok { return; }
        GrownShrunk(old(tables), tables);
        if r != Var(d) {
          ReplaceReady(f, code, before, gone, avail, tables, d, r);
          DeletedWithin(code, gone, tables, d);
          ReplacedOuter(code, gone, old(tables), tables, d, r);
          WithinShrunk(tables, Deleted(code, gone, tables, d));
          ShrunkTrans(old(tables), tables, Deleted(code, gone, tables, d));
          WithinTidy(code, Deleted(code, gone, tables, d), tables);
          GoneKindsMore(code, gone, d, r);
          Replace(d, r);
          assert gone == old(gone)[d := r];
        }
      } else {
        InstrFound(f, code, before, gone, avail, tables, d, Const(0, 0));
      }
    }

    /** All instructions of a block in order; up are the blocks whose scopes are open. */
    method LVN(ghost w: Walk, ghost up: seq<Block>, b: Block, fuel: nat) returns (ok: bool)
      requires WalkOk(f, g, code, first, before, w) && Next(g, w, b) && w.gone == gone && w.lists == lists
      requires waitDelete == []
      requires b in lists && Here(AvailIn(g, first, b)) && Branch(g, up + [b]) && Blocks(up) <= Blocks(w.order)
      requires AddressesLocal(g, code, first) ==> Opened(code, gone, tables, SeenIds(first, up))
      modifies this`tables, this`gone, this`waitDelete, this`at, this`stuck
      ensures ok ==> Here(AvailOut(g, first, b)) && Shrunk(old(tables), tables) && GoneFrom(g, first, w.gone, gone, b)
      ensures ok ==> b in first && Without(first[b], Ids(waitDelete)) == Without(first[b], gone.Keys)
      ensures ok && AddressesLocal(g, code, first) ==> Opened(code, gone, tables, SeenIds(first, up + [b]))
      ensures AddressesLocal(g, code, first) && fuel > |code| ==> ok
      ensures !ok ==> Failed(fuel)
      ensures b in first
      ensures NumberList(Whole(), old(tables), old(gone), first[b], 0, Deep(fuel)) ==
                if ok then Some((tables, gone)) else None
      ensures ok ==> RepeatsGone(code, gone, first[b], |first[b]|)
    {
      hide Remembered, RepeatsGone, Ordered, NumberOne, WalkOk, Next, Ready, Shrunk, InBlock, GoneFrom, AvailIn, Ids,
          Without, ArgsIn, Down, Tidy,
          GoneKinds,
          AddressesLocal, Opened, OpenIds, Branch, Blocks,
        SeenIds, Failed, Innermost, NoneInside, Deleted, Look, Fit, Pool;
      UnnumberedList(f, g, code, first, before, w, b);
      BlockBegins(g, first, w.gone, b);
      NoRepeatsYet(code, gone, tables, first[b]);
      OpenBegin(first, up, b);
      GrownRefl(tables);
      GrownShrunk(tables, tables);
      NoIds();
      var k: nat := 0;
      ok := true;
      while k < |lists[b]|
        invariant lists == w.lists && lists[b] == first[b] && k <= |lists[b]|
        invariant Here(AvailIn(g, first, b) + Ids(first[b][..k]))
        invariant Shrunk(old(tables), tables) && InBlock(g, first, w.gone, gone, b, k)
        invariant Ids(waitDelete) == gone.Keys - w.gone.Keys
        invariant AddressesLocal(g, code, first) ==> Opened(code, gone, tables, OpenIds(first, up + [b], k))
        invariant NumberList(Whole(), old(tables), old(gone), first[b], 0, Deep(fuel)) ==
                  NumberList(Whole(), tables, gone, first[b], k, Deep(fuel))
        invariant Remembered(code, gone, tables, first[b], k) && RepeatsGone(code, gone, first[b], k)
      {
        var d := lists[b][k];
        Reached(f, g, code, first, before, w, gone, b, k);
        ghost var was, prev, wait := tables, gone, waitDelete;
        if AddressesLocal(g, code, first) {
          SceneFits(f, code, before, gone, AvailIn(g, first, b) + Ids(first[b][..k]), tables, keys);
          NumberCalm(f, g, code, first, before, w, up, b, k, gone, tables, keys, fuel);
        }
        ok := Number(AvailIn(g, first, b) + Ids(first[b][..k]), d, fuel);
        if !ok {
          ListFails(Whole(), was, prev, first[b], k, Deep(fuel));
          return;
        }
        ListStep(Whole(), was, prev, first[b], k, Deep(fuel), tables, gone);
        NumberRepeats(f, before, Context(code, prev, keys), AvailIn(g, first, b), was, gone, tables, first[b], k,
            Fuel(fuel));
        if AddressesLocal(g, code, first) {
          NumberOpened(g, code, first, prev, gone, was, tables, up, b, k, keys, fuel);
        }
        ShrunkTrans(old(tables), was, tables);
        NumberedStep(g, first, w.gone, prev, gone, b, k, wait, waitDelete);
        IdsNext(first[b], k);
        assert AvailIn(g, first, b) + Ids(first[b][..k]) + {d} == AvailIn(g, first, b) + Ids(first[b][..k + 1]);
        k := k + 1;
      }
      assert first[b][..|first[b]|] == first[b];
      BlockNumbered(g, first, w.gone, gone, b);
      DeletesAll(f, g, code, first, before, w, gone, b, Ids(waitDelete));
    }

    method DeleteInstr(b: Block, x: nat)
      requires b in lists
      modifies this`lists
      ensures lists == old(lists)[b := RemoveFirst(old(lists)[b], x)]
    {
      hide RemoveFirst;
      var i, l := 0, lists[b];
      assert l[0..] == l && l[..0] == [];
      while i < |l| && l[i] != x
        invariant i <= |l| && lists == old(lists) && RemoveFirst(l, x) == l[..i] + RemoveFirst(l[i..], x)
      {
        RemovePassed(l, x, i);
        i := i + 1;
      }
      RemoveReached(l, x, i);
      if i < |l| {
        lists := lists[b := l[..i] + l[i + 1..]];
      } else {
        assert lists == lists[b := l];
      }
    }

    method DeleteWaiting(b: Block)
      requires b in lists && Distinct(lists[b])
      modifies this`lists
      ensures lists == old(lists)[b := Without(old(lists)[b], Ids(waitDelete))]
    {
      var i := 0;
      ghost var l := lists[b];
      WithoutNone(l);
      assert Ids(waitDelete[..0]) == {};
      assert lists == lists[b := l];
      while i < |waitDelete|
        invariant i <= |waitDelete| && lists == old(lists)[b := Without(l, Ids(waitDelete[..i]))]
      {
        DeleteInstr(b, waitDelete[i]);
        RemoveIsWithout(l, Ids(waitDelete[..i]), waitDelete[i]);
        IdsNext(waitDelete, i);
        i := i + 1;
      }
      assert waitDelete[..i] == waitDelete;
    }

    ghost function Now(): Walk
      reads this
    {
      Walk(order, visited, workList, gone, lists)
    }

    /** A block, then the blocks that have it as their only predecessor, inside one scope; joins are queued. The
        scopes of the blocks up are open. */
    method SVN(ghost up: seq<Block>, b: Block, fuel: nat) returns (ok: bool)
      requires WalkOk(f, g, code, first, before, Canon(g, Now())) && Next(g, Now(), b)
      requires visited + {b} == Canon(g, Now()).visited + {b}
      requires Sound(f, code, AvailIn(g, first, b), gone, tables) && Tidy(code, tables) && GoneKinds(code, gone)
      requires Branch(g, up + [b]) && Blocks(up) <= Blocks(order)
      requires AddressesLocal(g, code, first) ==> Opened(code, gone, tables, SeenIds(first, up))
      modifies this
      ensures ok ==> WalkOk(f, g, code, first, before, Now()) && Grew(g, first, Canon(g, old(Now())), Now(), b)
      ensures ok ==> Onward(g, Now(), |old(order)|) && Within(tables, old(tables)) && tables.gep == old(tables).gep
      ensures ok ==> Tidy(code, tables) && GoneKinds(code, gone)
      ensures AddressesLocal(g, code, first) && fuel > |code| ==> ok
      ensures !ok ==> Failed(fuel)
      ensures NumberTree(Whole(), old(Stage()), b, Deep(fuel)) == if ok then Some(Stage()) else None
      decreases g.succs.Keys - Blocks(order)
    {
      hide RepeatsGone, NumberTree, NumberBelow, NumberList, WalkOk, Next, Sound, Ready, Grew, Onward, Within, Shrunk,
          Midway,
          GoneFrom,
        AvailIn, AvailOut, Without, Ids, Blocks, PushScope, PopScope, Canon, Tidy, GoneKinds, AddressesLocal, Opened,
            Branch,
        SeenIds, Failed, Among;
      ghost var w, t, path := Canon(g, Now()), tables, up + [b];
      ghost var x, start, bound := Whole(), Stage(), Deep(fuel);
      CanonFields(g, Now(), b);
      StartBlock(f, g, code, first, before, w, b, tables);
      visited := visited + {b};
      PushScopeTidy(code, tables);
      if AddressesLocal(g, code, first) { OpenedScope(code, gone, tables, SeenIds(first, up)); }
      tables := PushScope(tables);
      waitDelete := [];
      ok := LVN(w, up, b, fuel);
      if !ok {
        TreeFails(x, start, b, bound);
        return;
      }
      DeleteWaiting(b);
      order := order + [b];
      TreeBegins(x, start, b, bound, Stage());
      AmongBegins(f, x, before, up, w, t, b, Now(), tables);
      var i: nat := 0;
      while i < |g.succs[b]|
        invariant i <= |g.succs[b]| && Among(f, x, before, path, w, t, b, i, Now(), tables)
        invariant NumberTree(x, start, b, bound) == Closed(NumberBelow(x, Stage(), b, i, bound))
      {
        var s := g.succs[b][i];
        ghost var u, stage := Now(), Stage();
        AmongChild(f, x, before, path, w, t, b, i, Now(), tables);
        if |g.preds[s]| == 1 {
          ok := SVN(path, s, fuel);
          BelowChild(x, stage, b, i, bound, if ok then Some(Stage()) else None);
          if !ok { return; }
          AmongNext(f, x, before, path, w, t, b, i, u, stage.t, Now(), tables);
        } else {
          if s !in visited {
            visited := visited + {s};
            workList := workList + [s];
          }
          BelowJoin(x, stage, b, i, bound, Stage());
          AmongJoin(f, x, before, path, w, t, b, i, u, tables, Now());
        }
        i := i + 1;
      }
      AmongEnds(f, x, before, path, w, t, b, Now(), tables);
      BelowEnds(x, Stage(), b, bound);
      tables := PopScope(tables);
      ok := true;
    }

    /** Value numbering of a function. Unless a search nests deeper than fuel, which with enough of it means that the
        search never ends, every block is numbered. */
    method Run(fuel: nat) returns (ok: bool)
      requires InSsa(g, code, first, before) && Commutes(f) && SingleEdges(g)
      requires lists == first && gone == map[] && order == [] && tables.binary == [] && tables.gep == []
      requires Distinct(keys) && Ids(keys) == code.Keys
      modifies this
      ensures AddressesLocal(g, code, first) && fuel > |code| ==> ok
      ensures !ok ==> Failed(fuel) && (fuel >= Enough(code) ==> Circular(Scene(), stuck, Var(at)))
      ensures ok ==> Distinct(order) && Blocks(order) == g.succs.Keys && tables == Tables([], [], [])
      ensures ok ==> GoneOk(f, code, before, gone) && lists.Keys == first.Keys && forall b :: b in first ==>
          lists[b] == Without(first[b], gone.Keys)
      ensures ok ==> forall b :: b in first ==> RepeatsGone(code, gone, first[b], |first[b]|)
      ensures Numbering(Whole(), Deep(fuel)) == if ok then Some(Stage()) else None
      ensures fuel >= Enough(code) ==> Numbering(Whole(), Watched) == if ok then Some(Stage()) else None
    {
      hide RepeatsGone, NumberTree, NumberAll, WalkOk, Next, Sound, Grew, Onward, Within, AvailIn, Without, Ids, Blocks,
          Canon,
          InSsa, Ordered,
        GoneOk, Commutes, SingleEdges, AddressesLocal, Opened, Branch, SeenIds, Fit, Pool, Look, Nesting, Queueing,
            GoneKinds, Tidy;
      ghost var x := Whole();
      tables := tables.(values := []);
      visited, workList := {}, [g.entry];
      QueueBegins(f, x, before);
      ok := true;
      while workList != []
        invariant Queueing(f, x, before, Now()) && tables == Tables([], [], [])
        invariant Numbering(x, Deep(fuel)) == NumberAll(x, Stage(), Deep(fuel))
        decreases g.succs.Keys - Blocks(order)
      {
        ghost var w, stage := Now(), Stage();
        var b := workList[0];
        workList := workList[1..];
        ghost var u := Now();
        QueueReady(f, x, before, w, u, b);
        ok := SVN([], b, fuel);
        AllStep(x, stage, Deep(fuel), if ok then Some(Stage()) else None);
        if !ok {
          EndsWithin(Scene(), stuck, Var(at), fuel);
          NumberingEnds(x, fuel);
          return;
        }
        QueueNext(f, x, before, w, u, b, Now(), tables);
      }
      QueueEnds(f, x, before, Now());
      AllEnds(x, Stage(), Deep(fuel));
      NumberingEnds(x, fuel);
    }
  }
}
