/** The bit test for powers of two. */
module PowerOfTwo {
  import opened Arith

  /** Bitwise and. */
  function BitAnd(x: nat, y: nat): nat {
    if x == 0 || y == 0 then 0 else (x % 2) * (y % 2) + 2 * BitAnd(x / 2, y / 2)
  }

  /** x is not zero and has no bit in common with x - 1, as 32-bit words. */
  predicate IsPowerOfTwo(x: int) {
    x != 0 && BitAnd(Unsigned(x), Unsigned(x - 1)) == 0
  }

  /** The least s with 2^s at least x. */
  function CeilLog2(x: int): nat {
    if x <= 1 then 0 else 1 + CeilLog2((x + 1) / 2)
  }

  lemma BitSquare(b: nat)
    requires b < 2
    ensures b * b == b
  {
    if b == 0 { assert b * b == 0; } else { assert b * b == 1; }
  }

  lemma {:induction false} AndSelf(x: nat)
    ensures BitAnd(x, x) == x
    decreases x
  {
    if x > 0 {
      AndSelf(x / 2);
      assert x == 2 * (x / 2) + x % 2;
      BitSquare(x % 2);
    }
  }

  /** Below the sign bit the test finds exactly the powers of two. */
  lemma {:induction false} BitTest(x: nat)
    requires x > 0
    ensures BitAnd(x, x - 1) == 0 <==> x == Pow2(CeilLog2(x))
    decreases x
  {
    if x == 1 {
    } else if x % 2 == 1 {
      var h := x / 2;
      assert x == 2 * h + 1 && (x - 1) / 2 == h && (x - 1) % 2 == 0;
      AndSelf(h);
      assert BitAnd(x, x - 1) == 2 * h;
      assert Pow2(CeilLog2(x)) == 2 * Pow2(CeilLog2((x + 1) / 2));
    } else {
      var h := x / 2;
      assert x == 2 * h && (x - 1) / 2 == h - 1 && (x + 1) / 2 == h;
      BitTest(h);
      if x > 1 { assert BitAnd(x, x - 1) == 2 * BitAnd(h, h - 1); }
    }
  }

  lemma {:induction false} HighBit(x: nat, y: nat, k: nat)
    requires Pow2(k) <= x < Pow2(k + 1) && Pow2(k) <= y < Pow2(k + 1)
    ensures BitAnd(x, y) >= Pow2(k)
    decreases k
  {
    if k > 0 {
      HighBit(x / 2, y / 2, k - 1);
      assert BitAnd(x, y) == (x % 2) * (y % 2) + 2 * BitAnd(x / 2, y / 2);
      assert (x % 2) * (y % 2) >= 0;
    }
  }

  /** For every word but the smallest one the test finds exactly the powers of two. */
  lemma PowerOfTwoIs(x: int)
    requires IsWord(x) && x != -HALF
    ensures IsPowerOfTwo(x) <==> x > 0 && x == Pow2(CeilLog2(x))
    ensures IsPowerOfTwo(x) ==> CeilLog2(x) <= 30
  {
    hide BitAnd, Pow2, CeilLog2;
    if x > 0 {
      assert Unsigned(x) == x && Unsigned(x - 1) == x - 1;
      BitTest(x);
      if CeilLog2(x) > 30 {
        Pow2Values();
        Pow2Mono(31, CeilLog2(x));
      }
    } else if x < 0 {
      assert Unsigned(x) == x + WORD && Unsigned(x - 1) == x - 1 + WORD;
      Pow2Values();
      HighBit(x + WORD, x - 1 + WORD, 31);
    }
  }

  lemma {:induction false} LogOfPower(k: nat)
    ensures CeilLog2(Pow2(k)) == k
    decreases k
  {
    if k > 0 {
      LogOfPower(k - 1);
      assert (Pow2(k) + 1) / 2 == Pow2(k - 1);
    }
  }

  /** The test finds a word exactly if it is some 2^k. */
  lemma PowersFound(x: int)
    requires IsWord(x) && x != -HALF
    ensures IsPowerOfTwo(x) <==> exists k: nat :: x == Pow2(k)
  {
    hide BitAnd, Pow2, CeilLog2, IsPowerOfTwo;
    PowerOfTwoIs(x);
    if k: nat :| x == Pow2(k) { LogOfPower(k); }
  }
}
