/**
 * The library itself: the `Bnum` record and the operations of big_numbers.c.
 *
 * A `Bnum` holds its blocks, least significant first, and the cached block
 * count `numBlocks`; the linked list of the C code becomes one sequence whose
 * only mutation is `AddBlock`, which appends a most significant block.  Every
 * operation walks its operands block by block as the C loops do and is proved
 * against the specification functions of the modules Compare, Addition and
 * Multiplication.  No operation changes its operands, and every arithmetic
 * result is a freshly allocated `Bnum`.
 */
module BigNumbers {
  import opened Digits
  import opened Compare
  import opened Addition
  import opened Multiplication

  class Bnum {
    /** The blocks, least significant first. */
    var blocks: seq<Block>
    /** The cached count of blocks. */
    var numBlocks: int

    /** The count is kept equal to the number of blocks. */
    ghost predicate Valid()
      reads this
    {
      numBlocks == |blocks|
    }

    /**
     * `Bnum_create(num)`: the base-2^32 blocks of `num`, least significant
     * first, with no zero top block; 0 gives no blocks at all.
     */
    constructor (num: U64)
      ensures Valid() && blocks == BlocksOf(num)
      ensures Val(blocks) == num && Canonical(blocks)
      ensures |blocks| == (if num == 0 then 0 else if num < BASE then 1 else 2)
    {
      blocks := [];
      numBlocks := 0;
      new;
      BlocksOfCorrect(num);
      BlocksOfU64(num);
      if num == 0 {
        return;
      }
      var n: nat := num;
      while n > 0
        invariant Valid()
        invariant blocks + BlocksOf(n) == BlocksOf(num)
        decreases n
      {
        AddBlock(n % BASE);
        n := n / BASE;
      }
    }

    /**
     * `add_block`: append `v` as the new most significant block and count it;
     * the blocks already there are unchanged.
     */
    method AddBlock(v: Block)
      requires Valid()
      modifies this
      ensures Valid()
      ensures blocks == old(blocks) + [v]
      ensures numBlocks == old(numBlocks) + 1
    {
      blocks := blocks + [v];
      numBlocks := numBlocks + 1;
    }
  }

  /** `Bnum_eq`: same number of blocks and the same block at every position. */
  method Eq(a: Bnum, b: Bnum) returns (r: bool)
    ensures r <==> a.blocks == b.blocks
    ensures Canonical(a.blocks) && Canonical(b.blocks) ==> (r <==> Val(a.blocks) == Val(b.blocks))
  {
    if Canonical(a.blocks) && Canonical(b.blocks) {
      CanonicalValInjective(a.blocks, b.blocks);
    }
    var i := 0;
    while i < |a.blocks| && i < |b.blocks|
      invariant i <= |a.blocks| && i <= |b.blocks|
      invariant forall k :: 0 <= k < i ==> a.blocks[k] == b.blocks[k]
    {
      if a.blocks[i] != b.blocks[i] {
        return false;
      }
      i := i + 1;
    }
    r := |a.blocks| == |b.blocks|;
  }

  /** `Bnum_ne`: the negation of `Bnum_eq`. */
  method Ne(a: Bnum, b: Bnum) returns (r: bool)
    ensures r <==> a.blocks != b.blocks
    ensures Canonical(a.blocks) && Canonical(b.blocks) ==> (r <==> Val(a.blocks) != Val(b.blocks))
  {
    var eq := Eq(a, b);
    r := !eq;
  }

  /**
   * `Bnum_le`: decided by the block counts when they differ, otherwise by
   * the most significant differing block; equal blocks give true.
   */
  method Le(a: Bnum, b: Bnum) returns (r: bool)
    requires a.Valid() && b.Valid()
    ensures r == BlocksLe(a.blocks, b.blocks)
    ensures Canonical(a.blocks) && Canonical(b.blocks) ==> (r <==> Val(a.blocks) <= Val(b.blocks))
  {
    if Canonical(a.blocks) && Canonical(b.blocks) {
      CanonicalIsValueOrder(a.blocks, b.blocks);
    }
    if a.numBlocks != b.numBlocks {
      return a.numBlocks < b.numBlocks;
    }
    var i := a.numBlocks;
    while i > 0
      invariant 0 <= i <= |a.blocks| == |b.blocks|
      invariant a.blocks[i..] == b.blocks[i..]
    {
      if a.blocks[i - 1] != b.blocks[i - 1] {
        FirstDifferenceDecides(a.blocks, b.blocks, i - 1);
        return a.blocks[i - 1] < b.blocks[i - 1];
      }
      SliceCons(a.blocks, i - 1);
      SliceCons(b.blocks, i - 1);
      i := i - 1;
    }
    assert a.blocks == a.blocks[0..] && b.blocks == b.blocks[0..];
    ReflexiveLe(a.blocks);
    r := true;
  }

  /** `Bnum_ge`: the mirror image of `Bnum_le`, i.e. `Bnum_le(b, a)`. */
  method Ge(a: Bnum, b: Bnum) returns (r: bool)
    requires a.Valid() && b.Valid()
    ensures r == BlocksLe(b.blocks, a.blocks)
    ensures Canonical(a.blocks) && Canonical(b.blocks) ==> (r <==> Val(a.blocks) >= Val(b.blocks))
  {
    if Canonical(a.blocks) && Canonical(b.blocks) {
      CanonicalIsValueOrder(b.blocks, a.blocks);
    }
    if a.numBlocks != b.numBlocks {
      return a.numBlocks > b.numBlocks;
    }
    var i := a.numBlocks;
    while i > 0
      invariant 0 <= i <= |a.blocks| == |b.blocks|
      invariant a.blocks[i..] == b.blocks[i..]
    {
      if a.blocks[i - 1] != b.blocks[i - 1] {
        FirstDifferenceDecides(b.blocks, a.blocks, i - 1);
        return a.blocks[i - 1] > b.blocks[i - 1];
      }
      SliceCons(a.blocks, i - 1);
      SliceCons(b.blocks, i - 1);
      i := i - 1;
    }
    assert a.blocks == a.blocks[0..] && b.blocks == b.blocks[0..];
    ReflexiveLe(a.blocks);
    r := true;
  }

  /**
   * `Bnum_lt`, written as `!Bnum_ge(a, b)`: the strict part of the order,
   * and `Val(a) < Val(b)` on canonical inputs.
   */
  method Lt(a: Bnum, b: Bnum) returns (r: bool)
    requires a.Valid() && b.Valid()
    ensures r == !BlocksLe(b.blocks, a.blocks)
    ensures r <==> BlocksLe(a.blocks, b.blocks) && a.blocks != b.blocks
    ensures Canonical(a.blocks) && Canonical(b.blocks) ==> (r <==> Val(a.blocks) < Val(b.blocks))
  {
    var ge := Ge(a, b);
    NotGeIsStrict(a.blocks, b.blocks);
    r := !ge;
  }

  /**
   * `Bnum_gt`, written as `!Bnum_le(a, b)`: the strict part of the reversed
   * order, and `Val(a) > Val(b)` on canonical inputs.
   */
  method Gt(a: Bnum, b: Bnum) returns (r: bool)
    requires a.Valid() && b.Valid()
    ensures r == !BlocksLe(a.blocks, b.blocks)
    ensures r <==> BlocksLe(b.blocks, a.blocks) && a.blocks != b.blocks
    ensures Canonical(a.blocks) && Canonical(b.blocks) ==> (r <==> Val(a.blocks) > Val(b.blocks))
  {
    var le := Le(a, b);
    NotGeIsStrict(b.blocks, a.blocks);
    r := !le;
  }

  /**
   * `Bnum_sum`: a lockstep walk with a widened carry, then a walk over the
   * rest of the longer operand.  The final carry is not appended, so the
   * result has max(|a|, |b|) blocks and is the sum modulo BASE^max(|a|, |b|).
   */
  method Sum(a: Bnum, b: Bnum) returns (sum: Bnum)
    ensures fresh(sum) && sum.Valid()
    ensures sum.blocks == SumBlocks(a.blocks, b.blocks)
    ensures |sum.blocks| == Max(|a.blocks|, |b.blocks|)
  {
    ghost var A, B := a.blocks, b.blocks;
    sum := new Bnum(0);
    var i := 0;
    var carry: U64 := 0;
    while i < |a.blocks| && i < |b.blocks|
      invariant a.blocks == A && b.blocks == B
      invariant i <= |A| && i <= |B|
      invariant sum.Valid() && carry <= 1
      invariant sum.blocks + AddFrom(A, B, i, carry) == SumBlocks(A, B)
    {
      SumLoopStep(A, B, i, carry, sum.blocks, SumBlocks(A, B));
      var blockSum: U64 := a.blocks[i] + b.blocks[i] + carry;
      carry := blockSum / BASE;
      sum.AddBlock(blockSum % BASE);
      i := i + 1;
    }
    var rest := if i < |a.blocks| then a else b;
    while i < |rest.blocks|
      invariant a.blocks == A && b.blocks == B
      invariant (rest == a && |B| <= i <= |A|) || (rest == b && |A| <= i <= |B|)
      invariant sum.Valid() && carry <= 1
      invariant sum.blocks + AddFrom(A, B, i, carry) == SumBlocks(A, B)
    {
      SumLoopStep(A, B, i, carry, sum.blocks, SumBlocks(A, B));
      var blockSum: U64 := rest.blocks[i] + carry;
      carry := blockSum / BASE;
      sum.AddBlock(blockSum % BASE);
      i := i + 1;
    }
    AddFromLength(A, B, 0, 0);
  }

  /**
   * `Bnum_mult`: schoolbook multiplication.  For the block of `a` at position
   * `shift` a partial product of `shift` zero blocks, the blocks of
   * a[shift] * b and a nonzero final carry is built and folded into the
   * running total with `Sum`.  The result plus the carries those folds drop
   * is the exact product.
   */
  method Mult(a: Bnum, b: Bnum) returns (product: Bnum)
    ensures fresh(product) && product.Valid()
    ensures product.blocks == MultBlocks(a.blocks, b.blocks)
    ensures a.blocks == [] ==> product.blocks == []
    ensures Val(product.blocks) + LostCarry(a.blocks, b.blocks, |a.blocks|) == Val(a.blocks) * Val(b.blocks)
  {
    ghost var A, B := a.blocks, b.blocks;
    product := new Bnum(0);
    var shift := 0;
    while shift < |a.blocks|
      invariant a.blocks == A && b.blocks == B
      invariant shift <= |A|
      invariant fresh(product) && product.Valid()
      invariant product.blocks == MultPrefix(A, B, shift)
    {
      var curProduct := new Bnum(0);
      for i := 0 to shift
        modifies curProduct
        invariant curProduct.Valid() && curProduct.blocks == Zeros(i)
      {
        curProduct.AddBlock(0);
        assert Zeros(i) + [0] == Zeros(i + 1);
      }
      var x := a.blocks[shift];
      var j := 0;
      var carry: U64 := 0;
      while j < |b.blocks|
        modifies curProduct
        invariant j <= |B| && carry < BASE
        invariant curProduct.Valid()
        invariant curProduct.blocks + MulFrom(x, B, j, carry) == PartialProduct(x, B, shift)
      {
        MulLoopStep(x, B, j, carry, curProduct.blocks, PartialProduct(x, B, shift));
        var blockProduct: U64 := x * b.blocks[j] + carry;
        carry := blockProduct / BASE;
        curProduct.AddBlock(blockProduct % BASE);
        j := j + 1;
      }
      if carry != 0 {
        curProduct.AddBlock(carry);
      }
      assert curProduct.blocks == PartialProduct(A[shift], B, shift);
      ghost var prev := product.blocks;
      product := Sum(product, curProduct);
      assert product.blocks == SumBlocks(prev, PartialProduct(A[shift], B, shift));
      assert MultPrefix(A, B, shift + 1) == SumBlocks(MultPrefix(A, B, shift), PartialProduct(A[shift], B, shift));
      shift := shift + 1;
    }
    assert shift == |A|;
    assert product.blocks == MultBlocks(A, B);
    MultValue(A, B);
  }

  /**
   * `Bnum_pow`: starting from the single block [1], multiply the accumulator
   * by `a`, n times; the accumulator is the left operand.  n <= 0 gives [1].
   */
  method Power(a: Bnum, n: int) returns (result: Bnum)
    ensures fresh(result) && result.Valid()
    ensures result.blocks == PowBlocks(a.blocks, n)
    ensures n <= 0 ==> result.blocks == [1]
    ensures n == 1 ==> result.blocks == a.blocks
    ensures n >= 0 ==> Val(result.blocks) <= NatPow(Val(a.blocks), n)
  {
    result := new Bnum(1);
    assert BlocksOf(1) == [1] + BlocksOf(0);
    var i := 0;
    while i < n
      invariant n > 0 ==> i <= n
      invariant i >= 0 && (n <= 0 ==> i == 0)
      invariant fresh(result) && result.Valid()
      invariant result.blocks == PowBlocks(a.blocks, i)
    {
      result := Mult(result, a);
      i := i + 1;
    }
    PowOne(a.blocks);
    if n >= 0 {
      PowUpperBound(a.blocks, n);
    }
  }

  /** One pass of either sum loop: the next block and carry, in the spec's terms. */
  lemma SumLoopStep(a: seq<Block>, b: seq<Block>, i: nat, carry: nat, done: seq<Block>, whole: seq<Block>)
    requires carry <= 1 && (i < |a| || i < |b|)
    requires done + AddFrom(a, b, i, carry) == whole
    ensures var s := Digit(a, i) + Digit(b, i) + carry;
      s < 2 * BASE &&
      (done + [s % BASE]) + AddFrom(a, b, i + 1, s / BASE) == whole
  {
    var s := Digit(a, i) + Digit(b, i) + carry;
    AppendAssoc(done, s % BASE, AddFrom(a, b, i + 1, s / BASE));
  }

  /** One pass of the partial-product loop: the next block and carry, in the spec's terms. */
  lemma MulLoopStep(x: Block, b: seq<Block>, j: nat, carry: nat, done: seq<Block>, whole: seq<Block>)
    requires carry < BASE && j < |b|
    requires done + MulFrom(x, b, j, carry) == whole
    ensures var p := x * b[j] + carry;
      0 <= p < BASE * BASE && p / BASE < BASE &&
      (done + [p % BASE]) + MulFrom(x, b, j + 1, p / BASE) == whole
  {
    ProductFits(x, b[j], carry);
    var p := x * b[j] + carry;
    AppendAssoc(done, p % BASE, MulFrom(x, b, j + 1, p / BASE));
  }
}
