/**
 * What `Bnum_sum` computes.
 *
 * The sum walks both operands from the least significant block, adds the two
 * blocks (0 once an operand is exhausted) and the carry in 64-bit arithmetic,
 * keeps the low 32 bits as the next block and the high bits as the next carry.
 * When both operands are exhausted it stops: the last carry is dropped, so the
 * result always has exactly max(|a|, |b|) blocks and is the true sum only
 * modulo BASE^max(|a|, |b|).
 */
module Addition {
  import opened Digits

  function Max(m: nat, n: nat): nat
  {
    if m < n then n else m
  }

  /** The block of an operand at position i, 0 once it is exhausted. */
  function Digit(s: seq<Block>, i: nat): Block
  {
    if i < |s| then s[i] else 0
  }

  /** The blocks the sum loops append from position i on, with incoming carry `carry`. */
  function AddFrom(a: seq<Block>, b: seq<Block>, i: nat, carry: nat): seq<Block>
    requires carry <= 1
    decreases Max(|a|, |b|) - i
  {
    if i >= |a| && i >= |b| then []
    else
      var s := Digit(a, i) + Digit(b, i) + carry;
      [s % BASE] + AddFrom(a, b, i + 1, s / BASE)
  }

  /** The carry left over when both operands are exhausted, which the sum discards. */
  function CarryFrom(a: seq<Block>, b: seq<Block>, i: nat, carry: nat): (c: nat)
    requires carry <= 1
    ensures c <= 1
    decreases Max(|a|, |b|) - i
  {
    if i >= |a| && i >= |b| then carry
    else
      var s := Digit(a, i) + Digit(b, i) + carry;
      CarryFrom(a, b, i + 1, s / BASE)
  }

  /** The blocks of `Bnum_sum(a, b)`. */
  function SumBlocks(a: seq<Block>, b: seq<Block>): seq<Block>
  {
    AddFrom(a, b, 0, 0)
  }

  /** The carry `Bnum_sum(a, b)` loses. */
  function SumCarry(a: seq<Block>, b: seq<Block>): nat
  {
    CarryFrom(a, b, 0, 0)
  }

  /** The sum appends one block per position up to the longer operand's length, never one more. */
  lemma {:induction false} AddFromLength(a: seq<Block>, b: seq<Block>, i: nat, carry: nat)
    requires carry <= 1 && i <= Max(|a|, |b|)
    ensures |AddFrom(a, b, i, carry)| == Max(|a|, |b|) - i
    decreases Max(|a|, |b|) - i
  {
    if i < |a| || i < |b| {
      var s := Digit(a, i) + Digit(b, i) + carry;
      AddFromLength(a, b, i + 1, s / BASE);
    }
  }

  /** The value of the blocks of `s` from position i on, as weights relative to i. */
  function ValFrom(s: seq<Block>, i: nat): nat
    decreases |s| - i
  {
    if i >= |s| then 0 else s[i] + BASE * ValFrom(s, i + 1)
  }

  /** `ValFrom` is the value of the suffix. */
  lemma {:induction false} ValFromSuffix(s: seq<Block>, i: nat)
    requires i <= |s|
    ensures ValFrom(s, i) == Val(s[i..])
    decreases |s| - i
  {
    if i < |s| {
      ValFromSuffix(s, i + 1);
      SliceCons(s, i);
      ValCons(s[i], s[i + 1..]);
    }
  }

  /** The sum from position i on with its final carry kept as one more block. */
  function CarriedFrom(a: seq<Block>, b: seq<Block>, i: nat, carry: nat): seq<Block>
    requires carry <= 1
    decreases Max(|a|, |b|) - i
  {
    if i >= |a| && i >= |b| then [carry]
    else
      var s := Digit(a, i) + Digit(b, i) + carry;
      [s % BASE] + CarriedFrom(a, b, i + 1, s / BASE)
  }

  /** Keeping the final carry is appending it to what the loops write. */
  lemma {:induction false} CarriedFromSplit(a: seq<Block>, b: seq<Block>, i: nat, carry: nat)
    requires carry <= 1
    ensures CarriedFrom(a, b, i, carry) == AddFrom(a, b, i, carry) + [CarryFrom(a, b, i, carry)]
    decreases Max(|a|, |b|) - i
  {
    if i < |a| || i < |b| {
      var s := Digit(a, i) + Digit(b, i) + carry;
      CarriedFromSplit(a, b, i + 1, s / BASE);
      var r, f := AddFrom(a, b, i + 1, s / BASE), CarryFrom(a, b, i + 1, s / BASE);
      assert CarryFrom(a, b, i, carry) == f;
      assert AddFrom(a, b, i, carry) == [s % BASE] + r;
      assert [s % BASE] + (r + [f]) == ([s % BASE] + r) + [f];
    }
  }

  /** With the final carry kept the sum is exact. */
  lemma {:induction false} CarriedFromValue(a: seq<Block>, b: seq<Block>, i: nat, carry: nat)
    requires carry <= 1
    ensures Val(CarriedFrom(a, b, i, carry)) == ValFrom(a, i) + ValFrom(b, i) + carry
    decreases Max(|a|, |b|) - i
  {
    if i < |a| || i < |b| {
      var x, y := Digit(a, i), Digit(b, i);
      var s := x + y + carry;
      var r := CarriedFrom(a, b, i + 1, s / BASE);
      assert CarriedFrom(a, b, i, carry) == [s % BASE] + r;
      ValCons(s % BASE, r);
      assert ValFrom(a, i) == x + BASE * ValFrom(a, i + 1);
      assert ValFrom(b, i) == y + BASE * ValFrom(b, i + 1);
      CarriedFromValue(a, b, i + 1, s / BASE);
      CarryStep(s, x, y, carry, Val(r), ValFrom(a, i + 1), ValFrom(b, i + 1));
    } else {
      ValCons(carry, []);
    }
  }

  /** The arithmetic of one step of the sum: a block and its carry out make up the block sum. */
  lemma CarryStep(s: int, x: int, y: int, carry: int, vr: int, va: int, vb: int)
    requires s == x + y + carry && vr == va + vb + s / BASE
    ensures s % BASE + BASE * vr == (x + BASE * va) + (y + BASE * vb) + carry
  {
    assert s == s % BASE + BASE * (s / BASE);
  }

  /** The blocks and the lost carry together hold the exact sum, carry_out * BASE^n being the part dropped. */
  lemma SumLengthAndValue(a: seq<Block>, b: seq<Block>)
    ensures |SumBlocks(a, b)| == Max(|a|, |b|)
    ensures SumCarry(a, b) <= 1
    ensures Val(SumBlocks(a, b)) + SumCarry(a, b) * Weight(Max(|a|, |b|)) == Val(a) + Val(b)
  {
    AddFromLength(a, b, 0, 0);
    CarriedFromSplit(a, b, 0, 0);
    CarriedFromValue(a, b, 0, 0);
    ValPush(SumBlocks(a, b), SumCarry(a, b));
    ValFromSuffix(a, 0);
    ValFromSuffix(b, 0);
    assert a[0..] == a && b[0..] == b;
  }

  /**
   * `Bnum_sum` is addition modulo BASE^n, n = max(|a|, |b|): the result has
   * exactly n blocks, its value is the sum reduced modulo BASE^n and the lost
   * carry is the quotient, at most 1.
   */
  lemma SumIsTruncated(a: seq<Block>, b: seq<Block>)
    ensures |SumBlocks(a, b)| == Max(|a|, |b|)
    ensures SumCarry(a, b) <= 1
    ensures Val(SumBlocks(a, b)) == (Val(a) + Val(b)) % Weight(Max(|a|, |b|))
    ensures SumCarry(a, b) == (Val(a) + Val(b)) / Weight(Max(|a|, |b|))
  {
    SumLengthAndValue(a, b);
    ValBound(SumBlocks(a, b));
    var v: int, c: int, p: int := Val(SumBlocks(a, b)), SumCarry(a, b), Weight(Max(|a|, |b|));
    var x: int := Val(a) + Val(b);
    OneCarry(v, c, p, x);
    DivModBelowTwice(x, p);
  }

  /** The sum is exact exactly when no carry is lost, i.e. when it fits in n blocks. */
  lemma SumExactIffNoCarry(a: seq<Block>, b: seq<Block>)
    ensures Val(SumBlocks(a, b)) == Val(a) + Val(b) <==> SumCarry(a, b) == 0
    ensures SumCarry(a, b) == 0 <==> Val(a) + Val(b) < Weight(Max(|a|, |b|))
  {
    SumLengthAndValue(a, b);
    ValBound(SumBlocks(a, b));
    OneCarry(Val(SumBlocks(a, b)), SumCarry(a, b), Weight(Max(|a|, |b|)), Val(a) + Val(b));
  }

  /** A remainder v below p and a carry c of at most 1 with v + c * p == x. */
  lemma OneCarry(v: nat, c: nat, p: nat, x: nat)
    requires v < p && c <= 1 && v + c * p == x
    ensures x == if c == 0 then v else v + p
    ensures v == x <==> c == 0
    ensures c == 0 <==> x < p
  {
  }

  /** The sum is symmetric block for block, lost carry included. */
  lemma {:induction false} AddFromSymmetric(a: seq<Block>, b: seq<Block>, i: nat, carry: nat)
    requires carry <= 1
    ensures AddFrom(a, b, i, carry) == AddFrom(b, a, i, carry)
    ensures CarryFrom(a, b, i, carry) == CarryFrom(b, a, i, carry)
    decreases Max(|a|, |b|) - i
  {
    if i < |a| || i < |b| {
      var s := Digit(a, i) + Digit(b, i) + carry;
      AddFromSymmetric(a, b, i + 1, s / BASE);
    }
  }

  /** Adding an operand with no blocks copies the rest of the other, with no carry. */
  lemma {:induction false} AddNothing(a: seq<Block>, i: nat)
    requires i <= |a|
    ensures AddFrom(a, [], i, 0) == a[i..] && CarryFrom(a, [], i, 0) == 0
    decreases |a| - i
  {
    if i < |a| {
      AddNothing(a, i + 1);
      SliceCons(a, i);
    }
  }

  /** `Bnum_sum(a, empty)` and `Bnum_sum(empty, a)` are block-for-block copies of `a`. */
  lemma SumWithEmpty(a: seq<Block>)
    ensures SumBlocks(a, []) == a && SumBlocks([], a) == a
    ensures SumCarry(a, []) == 0 && SumCarry([], a) == 0
  {
    AddNothing(a, 0);
    AddFromSymmetric(a, [], 0, 0);
  }
}
