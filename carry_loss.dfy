/**
 * Where `Bnum_sum`, and with it `Bnum_mult` and `Bnum_pow`, fall short of the
 * value their comments promise, and the definitions that keep the promise.
 *
 * `Bnum_sum` stops when both operands are exhausted and never appends the
 * carry out of the top block, so 0xFFFFFFFF + 1 comes out as the single block
 * 0.  `Bnum_mult` folds its partial products with `Bnum_sum` and loses the
 * same carry whenever a fold overflows the running total.  The corrected sum
 * appends that carry as one more block when it is nonzero (as the partial
 * products of `Bnum_mult` already do), and the corrected product and power
 * fold with the corrected sum; all three are exact.  The comparisons, which
 * compare blocks, answer by value only on canonical operands; the corrected
 * sum keeps those canonical where `Bnum_sum` does not.
 */
module CarryLoss {
  import opened Digits
  import opened Compare
  import opened Addition
  import opened Multiplication

  /** As written: 0xFFFFFFFF + 1 is the block 0, worth 0 instead of 2^32, and not even canonical. */
  lemma SumLosesCarry()
    ensures SumBlocks([BASE - 1], [1]) == [0] && SumCarry([BASE - 1], [1]) == 1
    ensures Val(SumBlocks([BASE - 1], [1])) == 0 && Val([BASE - 1]) + Val([1]) == BASE
    ensures Canonical([BASE - 1]) && Canonical([1]) && !Canonical(SumBlocks([BASE - 1], [1]))
  {
    var a, b: seq<Block> := [BASE - 1], [1];
    assert AddFrom(a, b, 1, 1) == [] && CarryFrom(a, b, 1, 1) == 1;
    assert AddFrom(a, b, 0, 0) == [0] + AddFrom(a, b, 1, 1);
    assert Val([0]) == 0 + BASE * Val([]);
  }

  /** The sum as intended: the blocks `Bnum_sum` writes, then its final carry when that is nonzero. */
  function ExactSumBlocks(a: seq<Block>, b: seq<Block>): seq<Block>
  {
    if SumCarry(a, b) == 0 then SumBlocks(a, b) else SumBlocks(a, b) + [SumCarry(a, b)]
  }

  /**
   * The corrected sum is exact, agrees with `Bnum_sum` in every block that
   * writes, and has one block more exactly when a carry is left.
   */
  lemma ExactSumValue(a: seq<Block>, b: seq<Block>)
    ensures Val(ExactSumBlocks(a, b)) == Val(a) + Val(b)
    ensures |ExactSumBlocks(a, b)| == Max(|a|, |b|) + SumCarry(a, b)
    ensures ExactSumBlocks(a, b)[..Max(|a|, |b|)] == SumBlocks(a, b)
  {
    var s, c, n := SumBlocks(a, b), SumCarry(a, b), Max(|a|, |b|);
    SumLengthAndValue(a, b);
    var p: int := Weight(n);
    if c == 0 {
      assert c * p == 0;
      assert s[..n] == s;
    } else {
      assert c * p == p;
      ValPush(s, 1);
      assert (s + [1])[..n] == s;
    }
  }

  /** Unlike `Bnum_sum`, the corrected sum keeps canonical operands canonical. */
  lemma ExactSumCanonical(a: seq<Block>, b: seq<Block>)
    requires Canonical(a) && Canonical(b)
    ensures Canonical(ExactSumBlocks(a, b))
  {
    var s := SumBlocks(a, b);
    if SumCarry(a, b) == 0 && s != [] && !Canonical(s) {
      SumLengthAndValue(a, b);
      SumExactIffNoCarry(a, b);
      var longer := if |a| < |b| then b else a;
      CanonicalLowerBound(longer);
      ZeroTopUpperBound(s);
      assert false;
    }
  }

  /**
   * As written, the comparisons see the lost carry: 0xFFFFFFFF + 1 is worth 0,
   * yet `Bnum_eq` tells it apart from `Bnum_create(0)` and `Bnum_le` puts it
   * above it, because its zero block makes it one block longer.
   */
  lemma LostCarryMisleadsComparison()
    ensures Val(SumBlocks([BASE - 1], [1])) == Val(BlocksOf(0))
    ensures SumBlocks([BASE - 1], [1]) != BlocksOf(0)
    ensures !BlocksLe(SumBlocks([BASE - 1], [1]), BlocksOf(0))
  {
    SumLosesCarry();
    assert BlocksOf(0) == [];
  }

  /**
   * For canonical a, b and c the comparisons of the corrected sum of a and b
   * with c decide by value again: equal blocks exactly when the values are
   * equal, `BlocksLe` exactly when the sum is at most the other value.
   */
  lemma ExactSumComparesByValue(a: seq<Block>, b: seq<Block>, c: seq<Block>)
    requires Canonical(a) && Canonical(b) && Canonical(c)
    ensures ExactSumBlocks(a, b) == c <==> Val(a) + Val(b) == Val(c)
    ensures BlocksLe(ExactSumBlocks(a, b), c) <==> Val(a) + Val(b) <= Val(c)
    ensures BlocksLe(c, ExactSumBlocks(a, b)) <==> Val(c) <= Val(a) + Val(b)
  {
    var s := ExactSumBlocks(a, b);
    ExactSumCanonical(a, b);
    ExactSumValue(a, b);
    CanonicalValInjective(s, c);
    CanonicalIsValueOrder(s, c);
    CanonicalIsValueOrder(c, s);
  }

  /**
   * The other non-canonical zero, which the corrected sum does not remove:
   * 2^32 * 0 pads its second partial product with one zero block, so both
   * `Bnum_mult` and the corrected product give [0], which the comparisons
   * tell apart from `Bnum_create(0)` although both are worth 0.
   */
  lemma MultByEmptyMisleadsComparison()
    ensures MultBlocks([0, 1], []) == [0] && ExactMultBlocks([0, 1], []) == [0]
    ensures Val([0]) == Val(BlocksOf(0)) && [0] != BlocksOf(0) && !BlocksLe([0], BlocksOf(0))
  {
    var a: seq<Block> := [0, 1];
    MultByEmpty(a, 2);
    assert Zeros(1) == [0];
    var p0, p1 := PartialProduct(0, [], 0), PartialProduct(1, [], 1);
    assert p0 == [] && p1 == [0];
    SumWithEmpty(p0);
    assert ExactMultPrefix(a, [], 1) == [];
    SumWithEmpty(p1);
    assert ExactMultPrefix(a, [], 2) == [0];
    assert BlocksOf(0) == [];
    assert Val([0]) == 0 + BASE * Val([]);
  }

  /** As written: (2^32 + 2) * 0xFFFFFFFF comes out as [2^32 - 2, 0] instead of [2^32 - 2, 0, 1]: the second fold drops its carry. */
  lemma MultLosesCarry()
    ensures MultBlocks([2, 1], [BASE - 1]) == [BASE - 2, 0]
    ensures Val(MultBlocks([2, 1], [BASE - 1])) == BASE - 2
    ensures Val([2, 1]) * Val([BASE - 1]) == Val([BASE - 2, 0, 1])
    ensures Canonical([2, 1]) && Canonical([BASE - 1]) && !Canonical(MultBlocks([2, 1], [BASE - 1]))
  {
    var a, b: seq<Block> := [2, 1], [BASE - 1];
    var p0 := PartialProduct(2, b, 0);
    assert MulFrom(2, b, 1, 1) == [1];
    assert MulFrom(2, b, 0, 0) == [BASE - 2] + MulFrom(2, b, 1, 1);
    assert p0 == [BASE - 2, 1];
    SumWithEmpty(p0);
    assert MultPrefix(a, b, 1) == p0;
    var p1 := PartialProduct(1, b, 1);
    MulFromOne(b, 0);
    assert p1 == [0, BASE - 1];
    assert AddFrom(p0, p1, 2, 1) == [];
    assert AddFrom(p0, p1, 1, 0) == [0] + AddFrom(p0, p1, 2, 1);
    assert AddFrom(p0, p1, 0, 0) == [BASE - 2] + AddFrom(p0, p1, 1, 0);
    assert MultPrefix(a, b, 2) == [BASE - 2, 0];
    ProductValues();
  }

  /** The values in `MultLosesCarry`: (2^32 + 2) * (2^32 - 1) == 2^64 + 2^32 - 2. */
  lemma ProductValues()
    ensures Val([BASE - 2, 0]) == BASE - 2
    ensures Val([2, 1]) * Val([BASE - 1]) == Val([BASE - 2, 0, 1])
  {
    assert Val([0]) == 0 + BASE * Val([]);
    assert Val([1]) == 1 + BASE * Val([]);
    assert Val([0, 1]) == 0 + BASE * Val([1]) by {
      assert [0, 1][1..] == [1];
    }
    assert Val([BASE - 2, 0, 1]) == BASE - 2 + BASE * Val([0, 1]) by {
      assert [BASE - 2, 0, 1][1..] == [0, 1];
    }
    assert Val([BASE - 2, 0]) == BASE - 2 + BASE * Val([0]) by {
      assert [BASE - 2, 0][1..] == [0];
    }
    assert Val([2, 1]) == 2 + BASE * Val([1]) by {
      assert [2, 1][1..] == [1];
    }
    assert Val([BASE - 1]) == BASE - 1 + BASE * Val([]);
    var x: int := BASE;
    assert (x + 2) * (x - 1) == x - 2 + x * x;
  }

  /**
   * As written, `Bnum_pow` loses a carry too: 2642246^3 comes out as
   * [2720163800, 245] instead of [2720163800, 245, 1].  The square is exact;
   * the second fold of the last multiplication drops the carry.
   */
  lemma PowLosesCarry()
    ensures PowBlocks([2642246], 3) == [2720163800, 245]
    ensures NatPow(Val([2642246]), 3) == Val([2720163800, 245, 1])
  {
    var x: Block := 2642246;
    var a: seq<Block> := [x];
    PowOne(a);
    assert MulFrom(x, a, 1, 1625) == [1625];
    assert MulFrom(x, a, 0, 0) == [2142068516] + MulFrom(x, a, 1, 1625);
    MultSingleBlock(PowBlocks(a, 1), a);
    var sq: seq<Block> := [2142068516, 1625];
    assert PowBlocks(a, 2) == sq;
    var p0, p1 := PartialProduct(2142068516, a, 0), PartialProduct(1625, a, 1);
    assert MulFrom(2142068516, a, 1, 1317791) == [1317791];
    assert MulFrom(2142068516, a, 0, 0) == [2720163800] + MulFrom(2142068516, a, 1, 1317791);
    assert p0 == [2720163800, 1317791];
    assert MulFrom(1625, a, 1, 0) == [];
    assert MulFrom(1625, a, 0, 0) == [4293649750] + MulFrom(1625, a, 1, 0);
    assert Zeros(1) == [0];
    assert p1 == [0, 4293649750];
    SumWithEmpty(p0);
    assert MultPrefix(sq, a, 1) == p0;
    assert AddFrom(p0, p1, 2, 1) == [];
    assert AddFrom(p0, p1, 1, 0) == [245] + AddFrom(p0, p1, 2, 1);
    assert AddFrom(p0, p1, 0, 0) == [2720163800] + AddFrom(p0, p1, 1, 0);
    assert MultPrefix(sq, a, 2) == [2720163800, 245];
    assert PowBlocks(a, 3) == MultBlocks(sq, a);
    assert Val([1]) == 1 + BASE * Val([]);
    assert Val([245, 1]) == 245 + BASE * Val([1]) by {
      assert [245, 1][1..] == [1];
    }
    assert Val([2720163800, 245, 1]) == 2720163800 + BASE * Val([245, 1]) by {
      assert [2720163800, 245, 1][1..] == [245, 1];
    }
    assert Val(a) == x + BASE * Val([]);
    assert NatPow(x, 3) == x * x * x;
  }

  /** The product as intended: the partial products of `Bnum_mult`, folded with the corrected sum. */
  function ExactMultPrefix(a: seq<Block>, b: seq<Block>, k: nat): seq<Block>
    requires k <= |a|
    decreases k
  {
    if k == 0 then []
    else ExactSumBlocks(ExactMultPrefix(a, b, k - 1), PartialProduct(a[k - 1], b, k - 1))
  }

  function ExactMultBlocks(a: seq<Block>, b: seq<Block>): seq<Block>
  {
    ExactMultPrefix(a, b, |a|)
  }

  /** Each corrected fold adds exactly the next partial product. */
  lemma {:induction false} ExactMultPrefixValue(a: seq<Block>, b: seq<Block>, k: nat)
    requires k <= |a|
    ensures Val(ExactMultPrefix(a, b, k)) == Val(a[..k]) * Val(b)
    decreases k
  {
    if k > 0 {
      assert a[..k] == a[..k - 1] + [a[k - 1]];
      var prev, part := ExactMultPrefix(a, b, k - 1), PartialProduct(a[k - 1], b, k - 1);
      assert Val(ExactMultPrefix(a, b, k)) == Val(prev) + Val(part) by {
        ExactSumValue(prev, part);
      }
      assert Val(a[..k]) == Val(a[..k - 1]) + a[k - 1] * Weight(k - 1) by {
        ValPush(a[..k - 1], a[k - 1]);
      }
      assert Val(part) == a[k - 1] * Val(b) * Weight(k - 1) by {
        PartialProductValue(a[k - 1], b, k - 1);
      }
      ExactMultPrefixValue(a, b, k - 1);
      FoldStep(Val(ExactMultPrefix(a, b, k)), 0, Val(prev), Val(part), 0,
               Val(a[..k - 1]), Val(b), a[k - 1], Weight(k - 1), Val(a[..k]));
    }
  }

  /**
   * The corrected product is exact; `Bnum_mult` falls short of it by exactly
   * the carries its folds drop.
   */
  lemma ExactMultValue(a: seq<Block>, b: seq<Block>)
    ensures Val(ExactMultBlocks(a, b)) == Val(a) * Val(b)
    ensures Val(MultBlocks(a, b)) + LostCarry(a, b, |a|) == Val(ExactMultBlocks(a, b))
  {
    ExactMultPrefixValue(a, b, |a|);
    assert a[..|a|] == a;
    MultValue(a, b);
  }

  /** The power as intended: n corrected multiplications of an accumulator starting at [1]. */
  function ExactPowBlocks(a: seq<Block>, n: int): seq<Block>
    decreases n
  {
    if n <= 0 then [1] else ExactMultBlocks(ExactPowBlocks(a, n - 1), a)
  }

  /** The corrected power is Val(a)^n. */
  lemma {:induction false} ExactPowValue(a: seq<Block>, n: nat)
    ensures Val(ExactPowBlocks(a, n)) == NatPow(Val(a), n)
    decreases n
  {
    if n == 0 {
      ValCons(1, []);
    } else {
      ExactPowValue(a, n - 1);
      ExactMultValue(ExactPowBlocks(a, n - 1), a);
    }
  }
}
