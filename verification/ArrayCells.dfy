/** Where the elements of a multi-dimensional array lie. */
module ArrayCells {
  import opened Arith
  import opened BlockIr

  /** A 32-bit scalar or an array of n elements. */
  datatype Ty = Word | Array(n: nat, elem: Ty)

  function SizeOf(t: Ty): nat {
    match t
    case Word => 4
    case Array(n, e) => n * SizeOf(e)
  }

  /** The sizes that the first k indices below an object of type t are multiplied with. */
  function Sizes(t: Ty, k: nat): seq<int>
  {
    if k == 0 || t.Word? then [] else [SizeOf(t.elem)] + Sizes(t.elem, k - 1)
  }

  function Depth(t: Ty): nat {
    match t
    case Word => 0
    case Array(_, e) => 1 + Depth(e)
  }

  /** One index for each dimension, each within its bound. */
  predicate InBounds(t: Ty, idxs: seq<int>)
    decreases t
  {
    match t
    case Word => idxs == []
    case Array(n, e) => idxs != [] && 0 <= idxs[0] < n && InBounds(e, idxs[1..])
  }

  lemma {:induction false} IndexSumFront(idxs: seq<int>, sizes: seq<int>)
    requires idxs != [] && |idxs| == |sizes|
    ensures IndexSum(idxs, sizes) == Scaled(idxs[0], sizes[0]) + IndexSum(idxs[1..], sizes[1..])
    decreases |idxs|
  {
    hide Scaled;
    var n := |idxs| - 1;
    if n > 0 {
      IndexSumFront(idxs[..n], sizes[..n]);
      assert idxs[1..][..n - 1] == idxs[..n][1..] && sizes[1..][..n - 1] == sizes[..n][1..];
    }
  }

  lemma {:induction false} SizesLength(t: Ty, idxs: seq<int>)
    requires InBounds(t, idxs)
    ensures |idxs| == Depth(t) && |Sizes(t, |idxs|)| == |idxs|
    decreases t
  {
    if t.Array? { SizesLength(t.elem, idxs[1..]); }
  }

  /** The offset that the index chain adds for an element. */
  ghost function Offset(t: Ty, idxs: seq<int>): int {
    IndexSum(idxs, Sizes(t, |idxs|))
  }

  lemma OffsetStep(t: Ty, idxs: seq<int>)
    requires InBounds(t, idxs) && t.Array?
    ensures Offset(t, idxs) == idxs[0] * SizeOf(t.elem) + Offset(t.elem, idxs[1..])
  {
    SizesLength(t, idxs);
    IndexSumFront(idxs, Sizes(t, |idxs|));
    assert Sizes(t, |idxs|)[1..] == Sizes(t.elem, |idxs| - 1);
  }

  lemma WordOffset(t: Ty, idxs: seq<int>)
    requires InBounds(t, idxs) && t.Word?
    ensures Offset(t, idxs) == 0
  {
  }

  /** Every element lies whole inside the array, aligned to words. */
  lemma {:induction false} CellInside(t: Ty, idxs: seq<int>)
    requires InBounds(t, idxs)
    ensures 0 <= Offset(t, idxs) && Offset(t, idxs) + 4 <= SizeOf(t) && Offset(t, idxs) % 4 == 0
    decreases t
  {
    hide Offset;
    if t.Word? {
      WordOffset(t, idxs);
    } else {
      CellInside(t.elem, idxs[1..]);
      OffsetStep(t, idxs);
      SizeWhole(t.elem);
      RowInside(idxs[0], t.n, SizeOf(t.elem), Offset(t.elem, idxs[1..]));
    }
  }

  lemma RowInside(i: int, n: nat, e: int, o: int)
    requires 0 <= i < n && 0 <= o && o + 4 <= e && o % 4 == 0 && e % 4 == 0
    ensures 0 <= i * e + o && i * e + o + 4 <= n * e && (i * e + o) % 4 == 0
  {
    Apart(i, n, e);
    MulMono(0, i, e);
    MulWhole(i, e);
    RowFrom(i * e, n * e, e, o);
  }

  lemma RowFrom(row: int, end: int, e: int, o: int)
    requires 0 <= row && row + e <= end && 0 <= o && o + 4 <= e && o % 4 == 0 && row % 4 == 0
    ensures 0 <= row + o && row + o + 4 <= end && (row + o) % 4 == 0
  {
  }

  lemma {:induction false} SizeWhole(t: Ty)
    ensures SizeOf(t) % 4 == 0
    decreases t
  {
    if t.Array? {
      SizeWhole(t.elem);
      MulWhole(t.n, SizeOf(t.elem));
    }
  }

  lemma MulWhole(i: int, e: int)
    requires e % 4 == 0
    ensures (i * e) % 4 == 0
  {
    var q := e / 4;
    assert i * e == 4 * (i * q) by { assert e == 4 * q; }
  }

  /** Different elements lie at different places. */
  lemma {:induction false} CellsDiffer(t: Ty, a: seq<int>, b: seq<int>)
    requires InBounds(t, a) && InBounds(t, b) && a != b
    ensures Offset(t, a) != Offset(t, b)
    decreases t
  {
    SizesLength(t, a);
    SizesLength(t, b);
    if t.Array? {
      OffsetStep(t, a);
      OffsetStep(t, b);
      CellInside(t.elem, a[1..]);
      CellInside(t.elem, b[1..]);
      if a[0] == b[0] {
        assert a == [a[0]] + a[1..] && b == [b[0]] + b[1..];
        CellsDiffer(t.elem, a[1..], b[1..]);
      } else if a[0] < b[0] {
        Apart(a[0], b[0], SizeOf(t.elem));
      } else {
        Apart(b[0], a[0], SizeOf(t.elem));
      }
    }
  }

  lemma Apart(i: int, j: int, e: int)
    requires i < j && e >= 0
    ensures i * e + e <= j * e
  {
    MulMono(i + 1, j, e);
    assert (i + 1) * e == i * e + e;
  }

  /** A zero leading index, for the pointer itself, adds nothing. */
  lemma LeadingZero(t: Ty, idxs: seq<int>)
    requires InBounds(t, idxs)
    ensures IndexSum([0] + idxs, [SizeOf(t)] + Sizes(t, |idxs|)) == Offset(t, idxs)
  {
    SizesLength(t, idxs);
    IndexSumFront([0] + idxs, [SizeOf(t)] + Sizes(t, |idxs|));
    assert ([0] + idxs)[1..] == idxs && ([SizeOf(t)] + Sizes(t, |idxs|))[1..] == Sizes(t, |idxs|);
  }

  /** In an object that does not wrap around the address space an in-bounds address computation yields the element's
      cell. */
  lemma GepCell(t: Ty, base: int, idxs: seq<int>)
    requires InBounds(t, idxs) && IsWord(base) && IsWord(base + SizeOf(t))
    ensures ValueOf(Gep([SizeOf(t)] + Sizes(t, |idxs|)), [base, 0] + idxs) == base + Offset(t, idxs)
  {
    hide InBounds, Offset, SizeOf, IndexSum, Sizes, Wrap;
    LeadingZero(t, idxs);
    CellInside(t, idxs);
    assert ([base, 0] + idxs)[1..] == [0] + idxs;
    WrapWord(base + Offset(t, idxs));
  }
}
