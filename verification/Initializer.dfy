/** Initializers of global arrays: shaping the flat list of values and printing it as assembler data. */
module Initializer {
  import opened Arith
  import opened Decimal
  import opened FloatWords
  import opened Wrappers

  /** A scalar stands for its 32-bit word. */
  datatype Const = Scalar(word: int) | Array(elems: seq<Const>)

  function Words(c: Const): seq<int>
    decreases c
  {
    match c
    case Scalar(w) => [w]
    case Array(es) => WordsOf(es)
  }

  function WordsOf(es: seq<Const>): seq<int>
    decreases es
  {
    if es == [] then [] else Words(es[0]) + WordsOf(es[1..])
  }

  /** Arrays of arrays of one shape, with scalars at the bottom and no empty dimension; n is the number of words. */
  predicate Shaped(c: Const, n: nat)
    decreases c
  {
    match c
    case Scalar(_) => n == 1
    case Array(es) =>
      && es != [] && n % |es| == 0
      && (forall i :: 0 <= i < |es| ==> es[i].Array? == es[0].Array?) && ShapedAll(es, n / |es|)
  }

  predicate ShapedAll(es: seq<Const>, n: nat)
    decreases es
  {
    es != [] ==> Shaped(es[0], n) && ShapedAll(es[1..], n)
  }

  /** The size of the type of a constant in bytes. */
  function SizeOf(c: Const): nat
    decreases c
  {
    match c
    case Scalar(_) => 4
    case Array(es) => if es == [] then 0 else |es| * SizeOf(es[0])
  }

  const LONG: string := "    .long "
  const ZERO: string := "    .zero "

  function LongLine(w: int): string {
    LONG + ToString(w) + "\n"
  }

  function ZeroLine(bytes: nat): string {
    ZERO + ToString(bytes) + "\n"
  }

  function Zeros(n: nat): seq<int> {
    seq(n, _ => 0)
  }

  /** The first line break at or after i. */
  function LineEnd(t: string, i: nat): (k: nat)
    requires i <= |t|
    ensures i <= k <= |t| && (forall j :: i <= j < k ==> t[j] != '\n') && (k < |t| ==> t[k] == '\n')
    decreases |t| - i
  {
    if i == |t| || t[i] == '\n' then i else LineEnd(t, i + 1)
  }

  /** The words that an assembler lays out for one line. */
  function ReadLine(line: string): Option<seq<int>> {
    if |line| > 10 && IsNumber(line[10..]) then
      if line[..10] == LONG then Some([Parse(line[10..])])
      else if line[..10] == ZERO && Parse(line[10..]) >= 0 then Some(Zeros(Parse(line[10..]) / 4))
      else None
    else None
  }

  /** The words that an assembler lays out for a text of .long and .zero lines. */
  function Decode(t: string): Option<seq<int>>
    decreases |t|
  {
    if t == "" then Some([])
    else
      var k := LineEnd(t, 0);
      if k == |t| then None
      else
        match (ReadLine(t[..k]), Decode(t[k + 1..]))
        case (Some(x), Some(y)) => Some(x + y)
        case _ => None
  }

  lemma LineEndIs(t: string, k: nat)
    requires k < |t| && t[k] == '\n' && forall j :: 0 <= j < k ==> t[j] != '\n'
    ensures LineEnd(t, 0) == k
  {
  }

  function Join(x: Option<seq<int>>, y: Option<seq<int>>): Option<seq<int>> {
    if x.Some? && y.Some? then Some(x.value + y.value) else None
  }

  lemma DecodeUnfold(t: string, k: nat)
    requires t != "" && LineEnd(t, 0) == k
    ensures Decode(t) == if k == |t| then None else Join(ReadLine(t[..k]), Decode(t[k + 1..]))
  {
    hide ReadLine;
  }

  lemma DecodeNothing()
    ensures Decode("") == Some([])
  {
  }

  lemma {:induction false} DecodeConcat(a: string, b: string)
    requires Decode(a).Some? && Decode(b).Some?
    ensures Decode(a + b) == Some(Decode(a).value + Decode(b).value)
    decreases |a|
  {
    hide ReadLine, LineEnd, Decode;
    DecodeNothing();
    if a == "" {
      assert a + b == b;
      assert Decode(a).value + Decode(b).value == Decode(b).value;
    } else {
      var k := LineEnd(a, 0);
      DecodeUnfold(a, k);
      LineEndIs(a + b, k);
      DecodeUnfold(a + b, k);
      assert (a + b)[..k] == a[..k] && (a + b)[k + 1..] == a[k + 1..] + b;
      DecodeConcat(a[k + 1..], b);
      var x, y, z := ReadLine(a[..k]).value, Decode(a[k + 1..]).value, Decode(b).value;
      assert (x + y) + z == x + (y + z);
    }
  }

  lemma DecodeLine(head: string, n: int)
    requires head == LONG || (head == ZERO && n >= 0)
    ensures Decode(head + ToString(n) + "\n") == Some(if head == LONG then [n] else Zeros(n / 4))
  {
    ParseToString(n);
    var num := ToString(n);
    var t := head + num + "\n";
    var k := 10 + |num|;
    assert forall j :: 0 <= j < 10 ==> head[j] != '\n';
    forall j | 0 <= j < k ensures t[j] != '\n' {
      if j >= 10 { assert t[j] == num[j - 10]; } else { assert t[j] == head[j]; }
    }
    LineEndIs(t, k);
    assert t[..k] == head + num && t[k + 1..] == "";
    assert (head + num)[..10] == head && (head + num)[10..] == num;
    var x := if head == LONG then [n] else Zeros(n / 4);
    assert x + [] == x;
  }

  predicate ZeroAt(t: string, k: nat) {
    12 * k + 10 < |t| && t[12 * k + 10] == '0'
  }

  /** The test at every twelfth character from the tenth on stops within n steps at something other than a zero. */
  ghost predicate Stops(t: string, n: nat) {
    exists j :: StopsAt(t, n, j)
  }

  ghost predicate StopsAt(t: string, n: nat, j: nat) {
    j < n && 12 * j + 10 < |t| && t[12 * j + 10] != '0' && forall i :: 0 <= i < j ==> ZeroAt(t, i)
  }

  /** The lines of n zero words. */
  ghost predicate ZeroLines(t: string, n: nat) {
    |t| == 12 * n && forall i :: 0 <= i < n ==> ZeroAt(t, i)
  }

  lemma LongLineIs(w: int)
    ensures var t := LongLine(w); |t| > 11 && (t[10] == '0' <==> w == 0) && (w == 0 ==> |t| == 12)
  {
    ParseToString(w);
    var t := LongLine(w);
    assert t[10] == ToString(w)[0];
  }

  lemma ZeroLineStops(bytes: nat, n: nat)
    requires bytes > 0 && n > 0
    ensures Stops(ZeroLine(bytes), n)
  {
    ParseToString(bytes);
    var t := ZeroLine(bytes);
    assert t[10] == ToString(bytes)[0];
    assert StopsAt(t, n, 0);
  }

  lemma StopsLonger(t: string, n: nat, u: string, m: nat)
    requires Stops(t, n) && n <= m
    ensures Stops(t + u, m)
  {
    var j: nat :| StopsAt(t, n, j);
    forall i | 0 <= i < j ensures ZeroAt(t + u, i) { assert ZeroAt(t, i); }
    assert StopsAt(t + u, m, j);
  }

  lemma ZeroThenStop(t: string, n: nat, w: int, u: string, m: nat)
    requires ZeroLines(t, n) && w != 0 && n < m
    ensures Stops(t + LongLine(w) + u, m)
  {
    LongLineIs(w);
    var s := t + LongLine(w) + u;
    assert s[12 * n + 10] == LongLine(w)[10];
    forall i | 0 <= i < n ensures ZeroAt(s, i) { assert ZeroAt(t, i); }
    assert StopsAt(s, m, n);
  }

  lemma {:induction false} ShapedAt(es: seq<Const>, n: nat, i: nat)
    requires ShapedAll(es, n) && i < |es|
    ensures Shaped(es[i], n)
    decreases i
  {
    if i > 0 { ShapedAt(es[1..], n, i - 1); }
  }

  lemma {:induction false} WordsCount(c: Const, n: nat)
    requires Shaped(c, n)
    ensures |Words(c)| == n && SizeOf(c) == 4 * n && n > 0
    decreases c
  {
    if c.Array? {
      var m := n / |c.elems|;
      WordsOfCount(c.elems, m);
      WordsCount(c.elems[0], m);
      assert n == |c.elems| * m;
    }
  }

  lemma {:induction false} WordsOfCount(es: seq<Const>, n: nat)
    requires ShapedAll(es, n)
    ensures |WordsOf(es)| == |es| * n
    decreases es
  {
    if es != [] {
      WordsCount(es[0], n);
      WordsOfCount(es[1..], n);
    }
  }

  lemma {:induction false} WordsOfSplit(es: seq<Const>, i: nat)
    requires i < |es|
    ensures WordsOf(es[..i + 1]) == WordsOf(es[..i]) + Words(es[i])
    decreases i
  {
    if i == 0 {
      assert es[..1][1..] == [] && es[..0] == [];
    } else {
      WordsOfSplit(es[1..], i - 1);
      assert es[..i + 1][1..] == es[1..][..i] && es[..i][1..] == es[1..][..i - 1] &&
          es[..i + 1][0] == es[..i][0] == es[0] && es[1..][i - 1] == es[i];
    }
  }

  /** What holds of the text of the first elements of an array. */
  ghost predicate Printed(es: seq<Const>, i: nat, t: string, n: nat) {
    && i <= |es| && Decode(t) == Some(WordsOf(es[..i])) && (i == 0 ==> t == "")
    && (i > 0 && es[0].Array? ==> Stops(t, n))
    && (i > 0 && !es[0].Array? ==> Stops(t, i) || (ZeroLines(t, i) && WordsOf(es[..i]) == Zeros(i)))
  }

  lemma PrintedStep(es: seq<Const>, i: nat, t: string, n: nat, e: string, m: nat)
    requires i < |es| && Printed(es, i, t, n) && (forall k :: 0 <= k < |es| ==> es[k].Array? == es[0].Array?) && m <= n
    requires Decode(e) == Some(Words(es[i])) && (es[i].Array? ==> Stops(e, m))
    requires (es[i].Scalar? ==> e == LongLine(es[i].word))
    ensures Printed(es, i + 1, t + e, n)
  {
    hide Stops, ZeroLines, Decode;
    DecodeConcat(t, e);
    WordsOfSplit(es, i);
    if es[i].Scalar? {
      ScalarStep(es, i, t, e);
    } else if i == 0 {
      StopsLonger(e, m, "", n);
      assert t + e == e && e + "" == e;
    } else {
      StopsLonger(t, n, e, n);
    }
  }

  lemma ScalarStep(es: seq<Const>, i: nat, t: string, e: string)
    requires i < |es| && es[i].Scalar? && e == LongLine(es[i].word) && (i == 0 ==> t == "")
    requires i > 0 ==> Stops(t, i) || (ZeroLines(t, i) && WordsOf(es[..i]) == Zeros(i))
    ensures Stops(t + e, i + 1) || (ZeroLines(t + e, i + 1) && WordsOf(es[..i + 1]) == Zeros(i + 1))
  {
    var w := es[i].word;
    WordsOfSplit(es, i);
    if i > 0 && Stops(t, i) {
      StopsLonger(t, i, e, i + 1);
    } else {
      if i == 0 { assert WordsOf(es[..0]) == Zeros(0); }
      if w != 0 {
        ZeroThenStop(t, i, w, "", i + 1);
        assert t + LongLine(w) + "" == t + e;
      } else {
        ZeroLinesStep(t, i);
        assert Zeros(i) + [0] == Zeros(i + 1);
      }
    }
  }

  lemma ZeroLinesStep(t: string, i: nat)
    requires ZeroLines(t, i)
    ensures ZeroLines(t + LongLine(0), i + 1)
  {
    LongLineIs(0);
    var s := t + LongLine(0);
    forall k | 0 <= k < i + 1 ensures ZeroAt(s, k) {
      if k < i { assert ZeroAt(t, k); } else { assert s[12 * k + 10] == LongLine(0)[10]; }
    }
  }

  /** While every character examined has been a zero the next one is still inside the text. */
  lemma TestInside(es: seq<Const>, t: string, n: nat, i: nat)
    requires Shaped(Array(es), n) && Printed(es, |es|, t, n) && i < n
    requires forall k :: 0 <= k < i ==> ZeroAt(t, k)
    ensures 12 * i + 10 < |t|
  {
    ScalarCount(es, n);
    if Stops(t, n) {
      var j: nat :| StopsAt(t, n, j);
      assert !ZeroAt(t, j);
    } else {
      assert ZeroAt(t, i);
    }
  }

  lemma ScalarCount(es: seq<Const>, n: nat)
    requires Shaped(Array(es), n)
    ensures !es[0].Array? ==> n == |es|
  {
    if !es[0].Array? {
      assert Shaped(es[0], n / |es|) && n / |es| == 1;
      assert n == |es| * (n / |es|) + n % |es|;
    }
  }

  lemma NoStop(t: string, n: nat)
    requires forall k :: 0 <= k < n ==> ZeroAt(t, k)
    ensures !Stops(t, n)
  {
    forall j: nat ensures !StopsAt(t, n, j) {
      if j < n { assert ZeroAt(t, j); }
    }
  }

  /** If the test finds only zeros the array is a row of zero words. */
  lemma OnlyZeros(es: seq<Const>, t: string, n: nat)
    requires Shaped(Array(es), n) && Printed(es, |es|, t, n)
    requires forall k :: 0 <= k < n ==> ZeroAt(t, k)
    ensures WordsOf(es) == Zeros(n)
  {
    assert es[..|es|] == es;
    NoStop(t, n);
    ScalarCount(es, n);
  }

  /** If it finds something else the text stands for the array as it is. */
  lemma FoundOther(es: seq<Const>, t: string, n: nat, i: nat)
    requires Printed(es, |es|, t, n) && i < n && 12 * i + 10 < |t| && t[12 * i + 10] != '0'
    requires forall k :: 0 <= k < i ==> ZeroAt(t, k)
    ensures Decode(t) == Some(WordsOf(es)) && Stops(t, n)
  {
    assert es[..|es|] == es;
    assert StopsAt(t, n, i);
  }

  /** Prints an initializer: an array whose words are all zero and directly below it becomes one .zero line. */
  method GenerateInitializer(c: Const, ghost n: nat) returns (text: string)
    requires Shaped(c, n)
    ensures Decode(text) == Some(Words(c))
    ensures (c.Array? ==> Stops(text, n)) && (c.Scalar? ==> text == LongLine(c.word))
    decreases c
  {
    hide Decode, Printed, Stops, ToString, Words, WordsOf, Shaped, SizeOf, Zeros, ZeroAt;
    match c
    case Scalar(w) =>
      DecodeLine(LONG, w);
      ScalarWords(w);
      text := LongLine(w);
    case Array(es) =>
      var code := "";
      ArrayParts(es, n);
      ghost var m := n / |es|;
      WordsCount(c, n);
      PrintedNothing(es, n);
      PartSmaller(n, |es|);
      for i := 0 to |es|
        invariant Printed(es, i, code, n)
      {
        ShapedAt(es, m, i);
        var e := GenerateInitializer(es[i], m);
        PrintedStep(es, i, code, n, e, m);
        code := code + e;
      }
      var check := false;
      var i := 0;
      while i < SizeOf(c) / 4
        invariant 0 <= i <= n && !check
        invariant forall k :: 0 <= k < i ==> ZeroAt(code, k)
      {
        TestInside(es, code, n, i);
        if code[i * 12 + 10] != '0' {
          check := true;
          break;
        }
        ZeroHere(code, i);
        i := i + 1;
      }
      if check {
        FoundOther(es, code, n, i);
        text := code;
      } else {
        OnlyZeros(es, code, n);
        DecodeLine(ZERO, SizeOf(c));
        ZeroLineStops(SizeOf(c), n);
        text := ZeroLine(SizeOf(c));
      }
  }

  lemma ScalarWords(w: int)
    ensures Words(Scalar(w)) == [w]
  {
  }

  lemma ArrayParts(es: seq<Const>, n: nat)
    requires Shaped(Array(es), n)
    ensures es != [] && n % |es| == 0 && (forall i :: 0 <= i < |es| ==> es[i].Array? == es[0].Array?)
    ensures ShapedAll(es, n / |es|) && Words(Array(es)) == WordsOf(es)
  {
  }

  lemma ZeroHere(t: string, i: nat)
    requires 12 * i + 10 < |t| && t[12 * i + 10] == '0'
    ensures ZeroAt(t, i)
  {
  }

  lemma PrintedNothing(es: seq<Const>, n: nat)
    ensures Printed(es, 0, "", n)
  {
    assert es[..0] == [];
  }

  lemma PartSmaller(n: nat, k: nat)
    requires k > 0 && n % k == 0
    ensures n / k <= n
  {
    QuotientBounds(n, k);
    var q := n / k;
    if q < 0 { MulMono(q + 1, 0, k); }
    MulMono(1, k, q);
  }

  /** A value of a flat initializer list: an integer or the word of a float. */
  datatype Elem = IntElem(val: Long) | FloatElem(bits: Word)

  /** The word of a value in an array of floats or integers. Integers are printed as 32-bit words. */
  function Convert(wild: Word -> Long, isFloat: bool, e: Elem): int {
    match e
    case IntElem(n) => if isFloat then FloatOf(n) else Wrap(n)
    case FloatElem(b) => if isFloat then b else Wrap(ToLong(wild, b))
  }

  /** A word that stands for the value: in an array of floats the float itself, or the one nearest to the integer, which
      up to 2^24 is the integer; in an array of integers the integer, or the float without its fraction, both modulo
      2^32. */
  ghost predicate Denotes(isFloat: bool, e: Elem, word: int) {
    match e
    case IntElem(n) =>
      if isFloat then Nearest(n, word) && (-0x100_0000 <= n <= 0x100_0000 ==> Scaled(word) == n * Unit())
      else IsWord(word) && (n - word) % WORD == 0
    case FloatElem(b) =>
      if isFloat then word == b
      else
        var t := TruncDiv(Scaled(b), Unit());
        IsWord(word) && (Finite(b) && IsLong(t) ==> (t - word) % WORD == 0)
  }

  ghost predicate DenoteAll(isFloat: bool, flat: seq<Elem>, words: seq<int>) {
    |words| == |flat| && forall k :: 0 <= k < |flat| ==> Denotes(isFloat, flat[k], words[k])
  }

  lemma ConvertDenotes(wild: Word -> Long, isFloat: bool, e: Elem)
    ensures Denotes(isFloat, e, Convert(wild, isFloat, e))
  {
    hide Nearest, Scaled, FloatOf, Finite, IntOf, TruncDiv, Unit;
    match e
    case IntElem(n) =>
      FloatOfNearest(n);
      if -0x100_0000 <= n <= 0x100_0000 { SmallExact(n); }
    case FloatElem(b) =>
      if Finite(b) { IntOfTruncates(b); }
  }

  /** Every converted word stands for its value. */
  lemma {:induction false} ConvertedDenote(wild: Word -> Long, isFloat: bool, flat: seq<Elem>)
    ensures DenoteAll(isFloat, flat, Converted(wild, isFloat, flat))
    decreases flat
  {
    hide Denotes, Convert;
    if flat != [] {
      ConvertDenotes(wild, isFloat, flat[0]);
      ConvertedDenote(wild, isFloat, flat[1..]);
    }
  }

  function Converted(wild: Word -> Long, isFloat: bool, flat: seq<Elem>): (r: seq<int>)
    ensures |r| == |flat|
  {
    if flat == [] then [] else [Convert(wild, isFloat, flat[0])] + Converted(wild, isFloat, flat[1..])
  }

  function Scalars(ws: seq<int>): (r: seq<Const>)
    ensures |r| == |ws|
    ensures forall i :: 0 <= i < |r| ==> r[i].Scalar?
  {
    if ws == [] then [] else [Scalar(ws[0])] + Scalars(ws[1..])
  }

  function Product(bounds: seq<int>): int {
    if bounds == [] then 1 else bounds[0] * Product(bounds[1..])
  }

  ghost predicate Fits(bounds: seq<int>, n: nat) {
    bounds != [] && (forall i :: 0 <= i < |bounds| ==> bounds[i] > 0) && Product(bounds) == n
  }

  lemma {:induction false} ProductPositive(bounds: seq<int>)
    requires forall i :: 0 <= i < |bounds| ==> bounds[i] > 0
    ensures Product(bounds) > 0
    decreases bounds
  {
    if bounds != [] { ProductPositive(bounds[1..]); }
  }

  lemma FitsRest(bounds: seq<int>, n: nat)
    requires Fits(bounds, n)
    ensures var dim := n / bounds[0]; dim >= 1 && n == bounds[0] * dim && n % dim == 0 &&
                                      (dim != 1 ==> Fits(bounds[1..], dim))
  {
    var c, p := bounds[0], Product(bounds[1..]);
    ProductPositive(bounds[1..]);
    assert n == c * p;
    Divides(c, p);
    Divides(p, c);
    assert c * p == p * c;
    assert bounds[1..] == [] ==> p == 1;
  }

  /** Shapes a flat list. A dimension whose parts have one element each becomes a row of scalars. */
  function Turn(wild: Word -> Long, isFloat: bool, bounds: seq<int>, flat: seq<Elem>): Const
    requires Fits(bounds, |flat|)
    decreases |bounds|, |flat|, 0
  {
    FitsRest(bounds, |flat|);
    var dim := |flat| / bounds[0];
    if dim == 1 then Array(Scalars(Converted(wild, isFloat, flat)))
    else Array(TurnParts(wild, isFloat, bounds[1..], flat, dim))
  }

  function TurnParts(wild: Word -> Long, isFloat: bool, bounds: seq<int>, flat: seq<Elem>, dim: nat): seq<Const>
    requires dim >= 1 && |flat| % dim == 0 && Fits(bounds, dim)
    decreases |bounds|, |flat|, 1
  {
    if flat == [] then []
    else
      PartFits(|flat|, dim);
      [Turn(wild, isFloat, bounds, flat[..dim])] + TurnParts(wild, isFloat, bounds, flat[dim..], dim)
  }

  lemma PartFits(n: nat, dim: nat)
    requires n > 0 && dim >= 1 && n % dim == 0
    ensures dim <= n && (n - dim) % dim == 0 && (n - dim) / dim == n / dim - 1
  {
    var q := n / dim;
    assert n == dim * q;
    assert q >= 1;
    assert n - dim == dim * (q - 1);
    Divides(dim, q - 1);
  }

  lemma Divides(dim: nat, q: nat)
    requires dim >= 1
    ensures (dim * q) % dim == 0 && (dim * q) / dim == q
  {
    assert (q + 1) * dim == q * dim + dim && q * dim == dim * q;
    QuotientIs(dim * q, dim, q);
  }

  lemma {:induction false} ScalarsWords(ws: seq<int>)
    ensures WordsOf(Scalars(ws)) == ws && ShapedAll(Scalars(ws), 1)
    decreases ws
  {
    if ws != [] { ScalarsWords(ws[1..]); }
  }

  lemma {:induction false} ConvertedConcat(wild: Word -> Long, isFloat: bool, a: seq<Elem>, b: seq<Elem>)
    ensures Converted(wild, isFloat, a + b) == Converted(wild, isFloat, a) + Converted(wild, isFloat, b)
    decreases a
  {
    if a == [] {
      assert a + b == b;
    } else {
      assert (a + b)[1..] == a[1..] + b;
      ConvertedConcat(wild, isFloat, a[1..], b);
    }
  }

  /** Shaping loses, adds and moves nothing. */
  lemma {:induction false} TurnKeeps(wild: Word -> Long, isFloat: bool, bounds: seq<int>, flat: seq<Elem>)
    requires Fits(bounds, |flat|)
    ensures var c := Turn(wild, isFloat, bounds, flat);
            c.Array? && Words(c) == Converted(wild, isFloat, flat) && Shaped(c, |flat|)
    ensures DenoteAll(isFloat, flat, Words(Turn(wild, isFloat, bounds, flat)))
    decreases |bounds|, |flat|, 0
  {
    hide WordsOf, ShapedAll, Converted, Product, Scalars, TurnParts, DenoteAll;
    ConvertedDenote(wild, isFloat, flat);
    FitsRest(bounds, |flat|);
    var dim := |flat| / bounds[0];
    if dim == 1 {
      ScalarsWords(Converted(wild, isFloat, flat));
      Divides(|flat|, 1);
      RowShaped(Scalars(Converted(wild, isFloat, flat)));
    } else {
      var parts := TurnParts(wild, isFloat, bounds[1..], flat, dim);
      PartsKeep(wild, isFloat, bounds[1..], flat, dim);
      Divides(dim, bounds[0]);
      Divides(bounds[0], dim);
      assert dim * bounds[0] == |flat|;
      assert |parts| == bounds[0];
    }
  }

  lemma RowShaped(es: seq<Const>)
    requires es != [] && (forall i :: 0 <= i < |es| ==> es[i].Scalar?) && ShapedAll(es, 1)
    ensures Shaped(Array(es), |es|)
  {
    hide ShapedAll;
    Divides(|es|, 1);
  }

  lemma {:induction false} PartsKeep(wild: Word -> Long, isFloat: bool, bounds: seq<int>, flat: seq<Elem>, dim: nat)
    requires dim >= 1 && |flat| % dim == 0 && Fits(bounds, dim)
    ensures var parts := TurnParts(wild, isFloat, bounds, flat, dim);
      && WordsOf(parts) == Converted(wild, isFloat, flat) && ShapedAll(parts, dim) && |parts| == |flat| / dim
      && forall i :: 0 <= i < |parts| ==> parts[i].Array?
    decreases |bounds|, |flat|, 1
  {
    if flat != [] {
      PartFits(|flat|, dim);
      TurnKeeps(wild, isFloat, bounds, flat[..dim]);
      PartsKeep(wild, isFloat, bounds, flat[dim..], dim);
      ConvertedConcat(wild, isFloat, flat[..dim], flat[dim..]);
      assert flat == flat[..dim] + flat[dim..];
    }
  }

  /** Emitting a shaped list and laying the text out as data gives the converted list back. */
  method EmitGlobal(wild: Word -> Long, isFloat: bool, bounds: seq<int>, flat: seq<Elem>) returns (text: string)
    requires Fits(bounds, |flat|)
    ensures Decode(text) == Some(Converted(wild, isFloat, flat))
    ensures Decode(text).Some? && DenoteAll(isFloat, flat, Decode(text).value)
  {
    hide DenoteAll, Decode, Turn, Shaped, Words;
    TurnKeeps(wild, isFloat, bounds, flat);
    text := GenerateInitializer(Turn(wild, isFloat, bounds, flat), |flat|);
  }
}
