/** Base-128 arithmetic of the block trees: powers, digits, tree heights and the guarded
    right shift that the file system computes them with. */
module Radix {
  const REFS_PER_BLOCK := 128
  const WORD_LIMIT := 0x1_0000_0000

  type Word = x: int | 0 <= x < WORD_LIMIT

  /** 128 to the power l: how many data blocks a full subtree of height l covers. */
  function Pow(l: nat): (p: nat)
    ensures p > 0
  {
    if l == 0 then 1 else 128 * Pow(l - 1)
  }

  /** A right shift: n halvings. */
  function ShiftR(x: Word, n: nat): (r: Word)
    ensures r <= x
  {
    if n == 0 then x else ShiftR(x, n - 1) / 2
  }

  /** log_shift_r: a shift by the word width or more gives 0. */
  function LogShiftR(x: Word, nbits: nat): (r: Word)
  {
    if nbits >= 32 then 0 else ShiftR(x, nbits)
  }

  lemma MulMonotone(d: nat, a: int, b: int)
    requires a <= b
    ensures d * a <= d * b
  {
  }

  lemma {:induction false} PowMonotone(k: nat, l: nat)
    requires k <= l
    ensures Pow(k) <= Pow(l)
  {
    if k < l {
      PowMonotone(k, l - 1);
    }
  }

  lemma FivePowersCoverWords()
    ensures Pow(5) >= 8 * WORD_LIMIT && Pow(4) < WORD_LIMIT
  {
    assert Pow(1) == 128 && Pow(2) == 16384;
    assert Pow(3) == 2097152;
    assert Pow(4) == 268435456;
    assert Pow(5) == 34359738368;
  }

  lemma SmallQuotient(x: nat, d: nat)
    requires d > 0
    ensures x / d == 0 <==> x < d
  {
    assert x == d * (x / d) + x % d;
    if x < d {
      DivUnique(x, d, 0, x);
    }
  }

  /** Number of levels above the data blocks in the tree of a file of n blocks. */
  function Height(n: nat): nat {
    if n <= 1 then 0 else Height((n - 1) / 128 + 1) + 1
  }

  lemma {:induction false} HeightCovers(n: nat)
    ensures n <= Pow(Height(n))
    ensures Height(n) > 0 ==> Pow(Height(n) - 1) < n
  {
    if n > 1 {
      var m := (n - 1) / 128 + 1;
      HeightCovers(m);
      assert n <= 128 * m && 128 * (m - 1) < n;
    }
  }

  /** The height is determined by being the least l with n <= 128^l, and 32-bit sizes
      never need more than five levels. */
  lemma HeightIsLeast(n: nat, l: nat)
    ensures n <= Pow(l) <==> Height(n) <= l
    ensures n < WORD_LIMIT ==> Height(n) <= 5
  {
    var h := Height(n);
    HeightCovers(n);
    if h <= l {
      PowMonotone(h, l);
    } else {
      PowMonotone(l, h - 1);
    }
    if n < WORD_LIMIT && h > 5 {
      FivePowersCoverWords();
      PowMonotone(5, h - 1);
    }
  }

  lemma HeightMonotone(m: nat, n: nat)
    requires m <= n
    ensures Height(m) <= Height(n)
  {
    HeightIsLeast(m, Height(n));
  }

  /** The offset with its last l base-128 digits removed. */
  function Prefix(offset: nat, l: nat): (q: nat)
    ensures q <= offset
  {
    if l == 0 then offset else Prefix(offset, l - 1) / 128
  }

  /** The digit of offset that selects the reference in an indirect block of level l + 1. */
  function Digit(offset: nat, l: nat): (d: nat)
    ensures d < 128
  {
    Prefix(offset, l) % 128
  }

  /** The first offset whose prefix at the given level is index. */
  function StartOf(index: nat, level: nat): nat
    decreases level
  {
    if level == 0 then index else StartOf(128 * index, level - 1)
  }

  lemma DivDiv(x: nat, d: nat)
    requires d > 0
    ensures x / (128 * d) == x / d / 128
  {
    var q := x / d;
    var q1, r1 := q / 128, q % 128;
    assert d * q == d * (128 * q1) + d * r1;
    MulMonotone(d, r1, 127);
    DivUnique(x, 128 * d, q1, d * r1 + x % d);
  }

  lemma DivUnique(x: int, d: nat, q: int, r: int)
    requires d > 0 && x == d * q + r && 0 <= r < d
    ensures x / d == q
  {
    var q' := x / d;
    assert x == d * q' + x % d;
    if q' > q {
      MulMonotone(d, q + 1, q');
      assert false;
    } else if q' < q {
      MulMonotone(d, q' + 1, q);
      assert false;
    }
  }

  lemma {:induction false} PrefixIsQuotient(x: nat, l: nat)
    ensures Prefix(x, l) == x / Pow(l)
  {
    if l > 0 {
      PrefixIsQuotient(x, l - 1);
      DivDiv(x, Pow(l - 1));
    }
  }

  lemma PrefixZero(x: nat, l: nat)
    ensures Prefix(x, l) == 0 <==> x < Pow(l)
  {
    PrefixIsQuotient(x, l);
    SmallQuotient(x, Pow(l));
  }

  lemma {:induction false} StartIsProduct(index: nat, level: nat)
    ensures StartOf(index, level) == index * Pow(level)
    decreases level
  {
    if level > 0 {
      StartIsProduct(128 * index, level - 1);
    }
  }

  /** Only index 0 starts inside the first subtree of a level. */
  lemma StartInside(index: nat, level: nat)
    ensures StartOf(index, level) < Pow(level) <==> index == 0
  {
    StartIsProduct(index, level);
    if index > 0 {
      MulMonotone(Pow(level), 1, index);
    }
  }

  lemma PrefixStart(offset: nat, l: nat)
    ensures StartOf(Prefix(offset, l), l) <= offset
  {
    PrefixIsQuotient(offset, l);
    StartIsProduct(Prefix(offset, l), l);
    assert offset == Pow(l) * (offset / Pow(l)) + offset % Pow(l);
  }

  lemma {:induction false} ShiftIsPrefix(x: Word, l: nat)
    ensures ShiftR(x, 7 * l) == Prefix(x, l)
  {
    if l > 0 {
      ShiftIsPrefix(x, l - 1);
      var n := 7 * (l - 1);
      assert ShiftR(x, n + 1) == ShiftR(x, n) / 2 && ShiftR(x, n + 2) == ShiftR(x, n) / 4;
      assert ShiftR(x, n + 3) == ShiftR(x, n) / 8 && ShiftR(x, n + 4) == ShiftR(x, n) / 16;
      assert ShiftR(x, n + 5) == ShiftR(x, n) / 32 && ShiftR(x, n + 6) == ShiftR(x, n) / 64;
    }
  }

  /** Shifting by whole digits removes them, the guard included: from five digits on the
      shift is by more than the word width and nothing is left. */
  lemma ShiftRemovesDigits(x: Word, l: nat)
    ensures LogShiftR(x, 7 * l) == Prefix(x, l)
  {
    ShiftIsPrefix(x, l);
    if l >= 5 {
      FivePowersCoverWords();
      PowMonotone(5, l);
      PrefixZero(x, l);
    }
  }

  /** Two offsets below 128^l with the same digits are the same: distinct offsets follow
      distinct paths from the root. */
  lemma DigitsDetermineOffset(x: nat, y: nat, l: nat)
    requires x < Pow(l) && y < Pow(l)
    requires forall k :: 0 <= k < l ==> Digit(x, k) == Digit(y, k)
    ensures x == y
  {
    PrefixZero(x, l);
    PrefixZero(y, l);
    PrefixesAgree(x, y, l, 0);
  }

  lemma {:induction false} PrefixesAgree(x: nat, y: nat, l: nat, k: nat)
    requires k <= l && Prefix(x, l) == Prefix(y, l)
    requires forall i :: 0 <= i < l ==> Digit(x, i) == Digit(y, i)
    ensures Prefix(x, k) == Prefix(y, k)
    decreases l - k
  {
    if k < l {
      PrefixesAgree(x, y, l, k + 1);
      assert Digit(x, k) == Digit(y, k);
    }
  }

  lemma {:induction false} RangeSize(lo: nat, hi: nat, s: set<nat>)
    requires lo <= hi && forall b :: b in s <==> lo <= b < hi
    ensures |s| == hi - lo
    decreases hi - lo
  {
    if lo < hi {
      RangeSize(lo + 1, hi, s - {lo});
    } else {
      assert s == {};
    }
  }

  /** treedisk_init's computation of log2(REFS_PER_BLOCK). */
  method ComputeLogRpb() returns (logRpb: nat)
    ensures logRpb == 7
  {
    logRpb := 1;
    while ShiftR(REFS_PER_BLOCK - 1, logRpb) != 0
      invariant 1 <= logRpb <= 7
      invariant logRpb > 1 ==> ShiftR(REFS_PER_BLOCK - 1, logRpb - 1) != 0
      decreases 7 - logRpb
    {
      assert ShiftR(127, 3) == 15;
      assert ShiftR(127, 6) == 1;
      logRpb := logRpb + 1;
    }
    assert ShiftR(127, 3) == 15;
    assert ShiftR(127, 6) == 1;
  }

  /** The level-counting loop of treedisk_read and treedisk_write. It ends because the
      guarded shift reaches 0 after at most five digits. */
  method CountLevels(x: Word) returns (nlevels: nat)
    ensures nlevels == Height(x + 1)
  {
    nlevels := 0;
    ShiftRemovesDigits(x, 0);
    while LogShiftR(x, nlevels * 7) != 0
      invariant nlevels <= Height(x + 1)
      decreases Height(x + 1) - nlevels
    {
      ShiftRemovesDigits(x, nlevels);
      PrefixZero(x, nlevels);
      HeightIsLeast(x + 1, nlevels);
      nlevels := nlevels + 1;
    }
    ShiftRemovesDigits(x, nlevels);
    PrefixZero(x, nlevels);
    HeightIsLeast(x + 1, nlevels);
  }
}
