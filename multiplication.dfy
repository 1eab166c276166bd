/**
 * What `Bnum_mult` and `Bnum_pow` compute.
 *
 * For the block of `a` at position `shift`, the multiplication builds a
 * partial product: `shift` zero blocks, then the blocks of a[shift] * b
 * computed with a 64-bit product and carry, then the final carry as one more
 * block when it is nonzero.  Each partial product is folded into the running
 * total with `Bnum_sum`, so every fold can drop the carry out of the top
 * block.  `LostCarry` accounts for exactly what those folds drop.
 */
module Multiplication {
  import opened Digits
  import opened Addition

  /** x * y + carry for blocks x, y and a carry below BASE fits in 64 bits, and so does its high word. */
  lemma ProductFits(x: Block, y: Block, carry: nat)
    requires carry < BASE
    ensures 0 <= x * y + carry < BASE * BASE
    ensures (x * y + carry) / BASE < BASE
  {
    MulMonotone(0, x, y);
    MulMonotone(x, BASE - 1, y);
    MulMonotone(y, BASE - 1, BASE - 1);
  }

  /** The blocks the inner loop appends for x * b from position j on, the last carry appended when nonzero. */
  function MulFrom(x: Block, b: seq<Block>, j: nat, carry: nat): seq<Block>
    requires carry < BASE
    decreases |b| - j
  {
    if j >= |b| then (if carry == 0 then [] else [carry])
    else
      ProductFits(x, b[j], carry);
      var p := x * b[j] + carry;
      [p % BASE] + MulFrom(x, b, j + 1, p / BASE)
  }

  /** The partial product for the block x of `a` at position `shift`. */
  function PartialProduct(x: Block, b: seq<Block>, shift: nat): seq<Block>
  {
    Zeros(shift) + MulFrom(x, b, 0, 0)
  }

  /** The running total of `Bnum_mult(a, b)` after the first k blocks of `a`. */
  function MultPrefix(a: seq<Block>, b: seq<Block>, k: nat): seq<Block>
    requires k <= |a|
    decreases k
  {
    if k == 0 then []
    else SumBlocks(MultPrefix(a, b, k - 1), PartialProduct(a[k - 1], b, k - 1))
  }

  /** The blocks of `Bnum_mult(a, b)`. */
  function MultBlocks(a: seq<Block>, b: seq<Block>): seq<Block>
  {
    MultPrefix(a, b, |a|)
  }

  /**
   * The total value the first k folds dropped: each fold loses its final
   * carry, worth BASE^(length of the total it produced).
   */
  function LostCarry(a: seq<Block>, b: seq<Block>, k: nat): nat
    requires k <= |a|
    decreases k
  {
    if k == 0 then 0
    else
      var prev, part := MultPrefix(a, b, k - 1), PartialProduct(a[k - 1], b, k - 1);
      var carry, weight := SumCarry(prev, part), Weight(|MultPrefix(a, b, k)|);
      MulMonotone(0, carry, weight);
      LostCarry(a, b, k - 1) + carry * weight
  }

  /** The blocks of `Bnum_pow(a, n)`: n multiplications of an accumulator starting at [1]. */
  function PowBlocks(a: seq<Block>, n: int): seq<Block>
    decreases n
  {
    if n <= 0 then [1] else MultBlocks(PowBlocks(a, n - 1), a)
  }

  /** x^n on natural numbers. */
  function NatPow(x: nat, n: nat): nat
  {
    if n == 0 then 1 else NatPow(x, n - 1) * x
  }

  /** The arithmetic of one step of the inner loop. */
  lemma MulStep(x: int, y: int, carry: int, vt: int, vr: int, vb: int)
    requires vr == x * vt + (x * y + carry) / BASE
    requires vb == y + BASE * vt
    ensures (x * y + carry) % BASE + BASE * vr == x * vb + carry
  {
    var p := x * y + carry;
    assert p == p % BASE + BASE * (p / BASE);
    Distribute(BASE, x * vt, p / BASE);
    MulAssoc(BASE, x, vt);
    MulAssoc(x, BASE, vt);
    Distribute(x, y, BASE * vt);
  }

  /** The inner loop is exact: its blocks are worth x * Val(b[j..]) + carry. */
  lemma {:induction false} MulFromValue(x: Block, b: seq<Block>, j: nat, carry: nat)
    requires carry < BASE && j <= |b|
    ensures Val(MulFrom(x, b, j, carry)) == x * Val(b[j..]) + carry
    decreases |b| - j
  {
    if j == |b| {
      assert b[j..] == [];
      if carry != 0 {
        ValCons(carry, []);
      }
    } else {
      ProductFits(x, b[j], carry);
      var p := x * b[j] + carry;
      var r := MulFrom(x, b, j + 1, p / BASE);
      assert MulFrom(x, b, j, carry) == [p % BASE] + r;
      assert Val(MulFrom(x, b, j, carry)) == p % BASE + BASE * Val(r) by {
        ValCons(p % BASE, r);
      }
      assert Val(b[j..]) == b[j] + BASE * Val(b[j + 1..]) by {
        SliceCons(b, j);
        ValCons(b[j], b[j + 1..]);
      }
      MulFromValue(x, b, j + 1, p / BASE);
      MulStep(x, b[j], carry, Val(b[j + 1..]), Val(r), Val(b[j..]));
    }
  }

  /**
   * The inner loop appends one block per remaining block of `b`, and one more
   * exactly when the last carry is nonzero, so that extra top block is nonzero.
   */
  lemma {:induction false} MulFromShape(x: Block, b: seq<Block>, j: nat, carry: nat)
    requires carry < BASE && j <= |b|
    ensures |b| - j <= |MulFrom(x, b, j, carry)| <= |b| - j + 1
    ensures |MulFrom(x, b, j, carry)| == |b| - j + 1 ==> MulFrom(x, b, j, carry)[|b| - j] != 0
    decreases |b| - j
  {
    if j < |b| {
      ProductFits(x, b[j], carry);
      var p: nat := x * b[j] + carry;
      MulFromShape(x, b, j + 1, p / BASE);
    }
  }

  /** Multiplying by the block 1 copies `b` block for block. */
  lemma {:induction false} MulFromOne(b: seq<Block>, j: nat)
    requires j <= |b|
    ensures MulFrom(1, b, j, 0) == b[j..]
    decreases |b| - j
  {
    if j < |b| {
      MulFromOne(b, j + 1);
      SliceCons(b, j);
    }
  }

  /**
   * A partial product is `shift` zero blocks followed by the blocks of
   * x * Val(b); its value is exactly x * Val(b) * BASE^shift.
   */
  lemma PartialProductValue(x: Block, b: seq<Block>, shift: nat)
    ensures Val(PartialProduct(x, b, shift)) == x * Val(b) * Weight(shift)
    ensures PartialProduct(x, b, shift)[..shift] == Zeros(shift)
    ensures shift + |b| <= |PartialProduct(x, b, shift)| <= shift + |b| + 1
  {
    var m := MulFrom(x, b, 0, 0);
    assert (Zeros(shift) + m)[..shift] == Zeros(shift);
    var v: int, q: int := x * Val(b), Weight(shift);
    assert Val(m) == v && |b| <= |m| <= |b| + 1 by {
      MulFromValue(x, b, 0, 0);
      MulFromShape(x, b, 0, 0);
      assert b[0..] == b;
    }
    assert Val(PartialProduct(x, b, shift)) == q * v by {
      ValConcat(Zeros(shift), m);
      ValZeros(shift);
    }
    assert q * v == v * q;
  }

  /** The arithmetic of one fold. */
  lemma FoldStep(vp: int, lost: int, vprev: int, vq: int, lprev: int, va: int, vb: int, x: int, q: int, vk: int)
    requires vp + lost == vprev + vq
    requires vprev + lprev == va * vb
    requires vq == x * vb * q
    requires vk == va + x * q
    ensures vp + (lprev + lost) == vk * vb
  {
    assert (va + x * q) * vb == va * vb + (x * q) * vb;
    MulAssoc(x, q, vb);
    MulAssoc(x, vb, q);
    assert q * vb == vb * q;
  }

  /**
   * The running total plus everything the folds dropped is the exact product
   * of the first k blocks of `a` with `b`.
   */
  lemma {:induction false} MultPrefixValue(a: seq<Block>, b: seq<Block>, k: nat)
    requires k <= |a|
    ensures Val(MultPrefix(a, b, k)) + LostCarry(a, b, k) == Val(a[..k]) * Val(b)
    decreases k
  {
    if k > 0 {
      assert a[..k] == a[..k - 1] + [a[k - 1]];
      var prev, part := MultPrefix(a, b, k - 1), PartialProduct(a[k - 1], b, k - 1);
      var cur := MultPrefix(a, b, k);
      var sc: int, w: int := SumCarry(prev, part), Weight(|cur|);
      assert LostCarry(a, b, k) == LostCarry(a, b, k - 1) + sc * w;
      assert Val(cur) + sc * w == Val(prev) + Val(part) by {
        SumLengthAndValue(prev, part);
      }
      assert Val(a[..k]) == Val(a[..k - 1]) + a[k - 1] * Weight(k - 1) by {
        ValPush(a[..k - 1], a[k - 1]);
      }
      assert Val(part) == a[k - 1] * Val(b) * Weight(k - 1) by {
        PartialProductValue(a[k - 1], b, k - 1);
      }
      MultPrefixValue(a, b, k - 1);
      FoldStep(Val(cur), sc * w, Val(prev), Val(part), LostCarry(a, b, k - 1),
               Val(a[..k - 1]), Val(b), a[k - 1], Weight(k - 1), Val(a[..k]));
    }
  }

  /**
   * `Bnum_mult` never exceeds the true product and equals it exactly when no
   * fold dropped a carry.
   */
  lemma MultValue(a: seq<Block>, b: seq<Block>)
    ensures Val(MultBlocks(a, b)) + LostCarry(a, b, |a|) == Val(a) * Val(b)
    ensures Val(MultBlocks(a, b)) <= Val(a) * Val(b)
    ensures Val(MultBlocks(a, b)) == Val(a) * Val(b) <==> LostCarry(a, b, |a|) == 0
  {
    MultPrefixValue(a, b, |a|);
    assert a[..|a|] == a;
  }

  /** A single-block `a` gives exactly the inner loop's blocks for a[0] * b, worth a[0] * Val(b). */
  lemma MultSingleBlock(a: seq<Block>, b: seq<Block>)
    requires |a| == 1
    ensures MultBlocks(a, b) == MulFrom(a[0], b, 0, 0)
    ensures Val(MultBlocks(a, b)) == a[0] * Val(b)
  {
    var part := PartialProduct(a[0], b, 0);
    assert part == MulFrom(a[0], b, 0, 0);
    SumWithEmpty(part);
    MulFromValue(a[0], b, 0, 0);
    assert b[0..] == b;
  }

  /**
   * Multiplying by an operand with no blocks gives |a| - 1 zero blocks: the
   * empty zero for a single-block `a`, a zero with a zero top block otherwise.
   */
  lemma {:induction false} MultByEmpty(a: seq<Block>, k: nat)
    requires 1 <= k <= |a|
    ensures MultPrefix(a, [], k) == Zeros(k - 1)
    ensures k >= 2 ==> !Canonical(MultPrefix(a, [], k))
    decreases k
  {
    var part := PartialProduct(a[k - 1], [], k - 1);
    assert part == Zeros(k - 1);
    if k == 1 {
      SumWithEmpty(part);
    } else {
      MultByEmpty(a, k - 1);
      var sum := SumBlocks(Zeros(k - 2), part);
      SumIsTruncated(Zeros(k - 2), part);
      ValZeros(k - 2);
      ValZeros(k - 1);
      assert Val(sum) == 0;
      ValInjective(sum, Zeros(k - 1));
      assert Zeros(k - 1)[k - 2] == 0;
    }
  }

  /** `Bnum_pow(a, 1)` is `a` block for block. */
  lemma PowOne(a: seq<Block>)
    ensures PowBlocks(a, 1) == a
  {
    assert PowBlocks(a, 0) == [1];
    MultSingleBlock([1], a);
    MulFromOne(a, 0);
    assert a[0..] == a;
  }

  /** `Bnum_pow(a, n)` never exceeds Val(a)^n: the folds only ever lose value. */
  lemma {:induction false} PowUpperBound(a: seq<Block>, n: nat)
    ensures Val(PowBlocks(a, n)) <= NatPow(Val(a), n)
    decreases n
  {
    if n == 0 {
      ValCons(1, []);
    } else {
      var prev := PowBlocks(a, n - 1);
      assert PowBlocks(a, n) == MultBlocks(prev, a);
      assert Val(PowBlocks(a, n)) <= Val(prev) * Val(a) by {
        MultValue(prev, a);
      }
      assert Val(prev) <= NatPow(Val(a), n - 1) by {
        PowUpperBound(a, n - 1);
      }
      MulMonotone(Val(prev), NatPow(Val(a), n - 1), Val(a));
    }
  }
}
