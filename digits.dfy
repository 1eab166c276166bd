/**
 * Blocks and their numeric value.
 *
 * A big number is a run of 32-bit blocks, least significant first; its value
 * is the sum of block[i] * 2^(32*i).  This module fixes the block type, the
 * widened 64-bit type the arithmetic works in, the value function `Val` and
 * the facts about positional notation the other modules build on.
 */
module Digits {

  /** 2^32, one more than BLOCK_MASK. */
  const BASE: nat := 0x1_0000_0000

  /** A block value: `uint32_t`. */
  type Block = x: int | 0 <= x < 0x1_0000_0000

  /** The widened arithmetic of the library: `uint64_t`. */
  type U64 = x: int | 0 <= x < 0x1_0000_0000_0000_0000

  /** BASE^n, the weight of block n. */
  function Weight(n: nat): (p: nat)
    ensures p >= 1
  {
    if n == 0 then 1 else BASE * Weight(n - 1)
  }

  /** The value of a block sequence, least significant block first. */
  function Val(s: seq<Block>): nat
  {
    if s == [] then 0 else s[0] + BASE * Val(s[1..])
  }

  /** No zero block at the most significant end (zero is the empty sequence). */
  predicate Canonical(s: seq<Block>)
  {
    s == [] || s[|s| - 1] != 0
  }

  /** `n` zero blocks. */
  function Zeros(n: nat): seq<Block>
  {
    seq(n, i => 0)
  }

  /** The canonical blocks of `n`, least significant first. */
  function BlocksOf(n: nat): seq<Block>
    decreases n
  {
    if n == 0 then [] else [n % BASE] + BlocksOf(n / BASE)
  }

  /** Moving one block across a concatenation. */
  lemma AppendAssoc(s: seq<Block>, d: Block, t: seq<Block>)
    ensures (s + [d]) + t == s + ([d] + t)
  {
  }

  /** A suffix is its first block followed by the rest. */
  lemma SliceCons(s: seq<Block>, k: nat)
    requires k < |s|
    ensures s[k..] == [s[k]] + s[k + 1..]
  {
  }

  lemma {:induction false} PowMonotone(m: nat, n: nat)
    requires m <= n
    ensures Weight(m) <= Weight(n)
    decreases n
  {
    if m < n {
      PowMonotone(m, n - 1);
    }
  }

  /** Multiplication by a natural number preserves order. */
  lemma MulMonotone(x: int, y: int, p: nat)
    requires x <= y
    ensures x * p <= y * p
  {
  }

  lemma MulAssoc(x: int, y: int, z: int)
    ensures x * (y * z) == (x * y) * z
  {
  }

  lemma Distribute(x: int, y: int, z: int)
    ensures x * (y + z) == x * y + x * z
  {
  }

  /** Distributes one extra multiple of p. */
  lemma MulSucc(x: int, p: int)
    ensures (x + 1) * p == x * p + p
  {
  }

  /** Quotient and remainder of a value below twice the divisor. */
  lemma DivModBelowTwice(x: nat, p: nat)
    requires 1 <= p && x < 2 * p
    ensures x < p ==> x % p == x && x / p == 0
    ensures p <= x ==> x % p == x - p && x / p == 1
  {
    if p <= x {
      assert x == 1 * p + (x - p);
    }
  }

  /** A sequence of n blocks is worth less than BASE^n. */
  lemma {:induction false} ValBound(s: seq<Block>)
    ensures Val(s) < Weight(|s|)
    decreases |s|
  {
    if s != [] {
      ValBound(s[1..]);
    }
  }

  /** Prepending a block: the rest moves up one position. */
  lemma ValCons(d: Block, s: seq<Block>)
    ensures Val([d] + s) == d + BASE * Val(s)
  {
    assert ([d] + s)[1..] == s;
  }

  /** Positional notation splits at any point. */
  lemma {:induction false} ValConcat(s: seq<Block>, t: seq<Block>)
    ensures Val(s + t) == Val(s) + Weight(|s|) * Val(t)
    decreases |s|
  {
    if s != [] {
      assert (s + t)[1..] == s[1..] + t;
      ValConcat(s[1..], t);
      var u: int, w: int, q: int := Val(s[1..]), Val(t), Weight(|s| - 1);
      assert Val(s + t) == s[0] + BASE * (u + q * w);
      Distribute(BASE, u, q * w);
      MulAssoc(BASE, q, w);
    } else {
      assert s + t == t;
    }
  }

  /** The value of a prefix grows by the next block times its weight. */
  lemma {:induction false} ValPush(s: seq<Block>, d: Block)
    ensures Val(s + [d]) == Val(s) + d * Weight(|s|)
  {
    ValConcat(s, [d]);
    assert [d][1..] == [];
    var v1, p := Val([d]), Weight(|s|);
    assert v1 == d;
    assert p * v1 == d * p;
  }

  lemma {:induction false} ValZeros(n: nat)
    ensures Val(Zeros(n)) == 0
    decreases n
  {
    if n > 0 {
      assert Zeros(n)[1..] == Zeros(n - 1);
      ValZeros(n - 1);
    }
  }

  /** Two sequences of the same length with the same value are the same blocks. */
  lemma {:induction false} ValInjective(s: seq<Block>, t: seq<Block>)
    requires |s| == |t| && Val(s) == Val(t)
    ensures s == t
    decreases |s|
  {
    if s != [] {
      assert s[0] + BASE * Val(s[1..]) == t[0] + BASE * Val(t[1..]);
      assert s[0] == t[0] && Val(s[1..]) == Val(t[1..]);
      ValInjective(s[1..], t[1..]);
      assert s == [s[0]] + s[1..] && t == [t[0]] + t[1..];
    }
  }

  /** A canonical non-empty sequence uses its top block: its value reaches BASE^(n-1). */
  lemma {:induction false} CanonicalLowerBound(s: seq<Block>)
    requires s != [] && Canonical(s)
    ensures Val(s) >= Weight(|s| - 1)
  {
    var n := |s| - 1;
    assert s == s[..n] + [s[n]];
    assert Val(s) == Val(s[..n]) + s[n] * Weight(n) by {
      ValPush(s[..n], s[n]);
    }
    MulMonotone(1, s[n], Weight(n));
  }

  /** A zero top block keeps the value below BASE^(n-1). */
  lemma {:induction false} ZeroTopUpperBound(s: seq<Block>)
    requires s != [] && !Canonical(s)
    ensures Val(s) < Weight(|s| - 1)
  {
    var n := |s| - 1;
    assert s == s[..n] + [s[n]];
    ValPush(s[..n], s[n]);
    ValBound(s[..n]);
  }

  /** `BlocksOf(n)` is a canonical representation of `n`. */
  lemma {:induction false} BlocksOfCorrect(n: nat)
    ensures Val(BlocksOf(n)) == n
    ensures Canonical(BlocksOf(n))
    ensures n == 0 <==> BlocksOf(n) == []
    decreases n
  {
    if n > 0 {
      var r := BlocksOf(n / BASE);
      BlocksOfCorrect(n / BASE);
      assert BlocksOf(n)[1..] == r;
      if r == [] {
        assert n / BASE == 0;
        assert BlocksOf(n) == [n] && n != 0;
      } else {
        assert BlocksOf(n)[|BlocksOf(n)| - 1] == r[|r| - 1];
      }
    }
  }

  /** Every canonical sequence is `BlocksOf` its value: the representation is unique. */
  lemma {:induction false} CanonicalIsBlocksOf(s: seq<Block>)
    requires Canonical(s)
    ensures BlocksOf(Val(s)) == s
    decreases |s|
  {
    if s != [] {
      var t := s[1..];
      assert Canonical(t) by {
        if t != [] { assert t[|t| - 1] == s[|s| - 1]; }
      }
      CanonicalIsBlocksOf(t);
      if t == [] {
        assert Val(s) == s[0] && s[0] != 0;
      } else {
        CanonicalLowerBound(t);
      }
      assert Val(s) != 0;
      assert Val(s) % BASE == s[0] && Val(s) / BASE == Val(t);
      assert s == [s[0]] + t;
    }
  }

  /** Canonical sequences are equal exactly when their values are. */
  lemma CanonicalValInjective(s: seq<Block>, t: seq<Block>)
    requires Canonical(s) && Canonical(t)
    ensures s == t <==> Val(s) == Val(t)
  {
    CanonicalIsBlocksOf(s);
    CanonicalIsBlocksOf(t);
  }

  /** A 64-bit value has at most two blocks: low word, then high word if nonzero. */
  lemma BlocksOfU64(n: U64)
    ensures |BlocksOf(n)| == (if n == 0 then 0 else if n < BASE then 1 else 2)
    ensures n > 0 ==> BlocksOf(n)[0] == n % BASE
    ensures n >= BASE ==> BlocksOf(n)[1] == n / BASE
  {
    if n > 0 {
      var hi := n / BASE;
      assert hi < BASE;
      if hi > 0 {
        assert hi / BASE == 0;
        assert BlocksOf(hi) == [hi % BASE] + BlocksOf(0);
      }
    }
  }
}
