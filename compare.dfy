/**
 * The order the comparison operations implement.
 *
 * `Bnum_le` and `Bnum_ge` compare structure, not value: a Bnum with fewer
 * blocks is smaller, and for equal block counts the blocks are compared from
 * the most significant end, the first difference deciding.  `BlocksLe`
 * states that order the way the code walks it; the lemmas show it is a total
 * order and that it coincides with the order of the values on canonical
 * inputs (and on inputs of equal length).
 */
module Compare {
  import opened Digits

  /** The order of `Bnum_le(a, b)`. */
  predicate BlocksLe(a: seq<Block>, b: seq<Block>)
  {
    if |a| != |b| then |a| < |b| else TopDownLe(a, b)
  }

  /** Equal-length comparison from the most significant block down; all equal means true. */
  predicate TopDownLe(a: seq<Block>, b: seq<Block>)
    requires |a| == |b|
    decreases |a|
  {
    if a == [] then true
    else
      var n := |a| - 1;
      if a[n] != b[n] then a[n] < b[n] else TopDownLe(a[..n], b[..n])
  }

  /** Equal blocks above position k leave the decision to the blocks up to k. */
  lemma {:induction false} TopDownLePrefix(a: seq<Block>, b: seq<Block>, k: nat)
    requires |a| == |b| && k <= |a| && a[k..] == b[k..]
    ensures TopDownLe(a, b) == TopDownLe(a[..k], b[..k])
    decreases |a| - k
  {
    if k < |a| {
      var n := |a| - 1;
      assert a[n] == a[k..][n - k] && b[n] == b[k..][n - k];
      assert a[..n][k..] == a[k..][..n - k] && b[..n][k..] == b[k..][..n - k];
      TopDownLePrefix(a[..n], b[..n], k);
      assert a[..n][..k] == a[..k] && b[..n][..k] == b[..k];
    } else {
      assert a[..k] == a && b[..k] == b;
    }
  }

  /** The most significant differing block decides `BlocksLe`. */
  lemma {:induction false} FirstDifferenceDecides(a: seq<Block>, b: seq<Block>, k: nat)
    requires |a| == |b| && k < |a| && a[k] != b[k] && a[k + 1..] == b[k + 1..]
    ensures BlocksLe(a, b) <==> a[k] < b[k]
  {
    TopDownLePrefix(a, b, k + 1);
    assert a[..k + 1][..k] == a[..k] && b[..k + 1][..k] == b[..k];
  }

  /** A smaller block with equal blocks above it means a smaller value. */
  lemma {:induction false} ValFirstDifference(a: seq<Block>, b: seq<Block>, k: nat)
    requires |a| == |b| && k < |a| && a[k] < b[k] && a[k + 1..] == b[k + 1..]
    ensures Val(a) < Val(b)
  {
    var la, lb, hi := a[..k + 1], b[..k + 1], a[k + 1..];
    assert a == la + hi && b == lb + hi;
    ValConcat(la, hi);
    ValConcat(lb, hi);
    var q: int, h: int := Weight(k + 1), Val(hi);
    assert Val(a) == Val(la) + q * h;
    assert Val(b) == Val(lb) + q * h;
    assert la == a[..k] + [a[k]] && lb == b[..k] + [b[k]];
    ValPush(a[..k], a[k]);
    ValPush(b[..k], b[k]);
    ValBound(a[..k]);
    var p: int, x: int, y: int := Weight(k), a[k], b[k];
    MulSucc(x, p);
    MulMonotone(x + 1, y, p);
    assert Val(la) < Val(lb);
  }

  /** For sequences of one length `BlocksLe` is exactly the order of the values. */
  lemma {:induction false} SameLengthIsValueOrder(a: seq<Block>, b: seq<Block>)
    requires |a| == |b|
    ensures BlocksLe(a, b) <==> Val(a) <= Val(b)
    decreases |a|
  {
    if a != [] {
      var n := |a| - 1;
      if a[n] != b[n] {
        assert a[n + 1..] == [] == b[n + 1..];
        FirstDifferenceDecides(a, b, n);
        if a[n] < b[n] {
          ValFirstDifference(a, b, n);
        } else {
          ValFirstDifference(b, a, n);
        }
      } else {
        SameLengthIsValueOrder(a[..n], b[..n]);
        assert a == a[..n] + [a[n]] && b == b[..n] + [b[n]];
        ValPush(a[..n], a[n]);
        ValPush(b[..n], b[n]);
      }
    }
  }

  /** On canonical inputs `BlocksLe` is exactly the order of the values. */
  lemma {:induction false} CanonicalIsValueOrder(a: seq<Block>, b: seq<Block>)
    requires Canonical(a) && Canonical(b)
    ensures BlocksLe(a, b) <==> Val(a) <= Val(b)
  {
    if |a| < |b| {
      MoreBlocksIsGreater(a, b);
    } else if |b| < |a| {
      MoreBlocksIsGreater(b, a);
    } else {
      SameLengthIsValueOrder(a, b);
    }
  }

  /** A canonical value with more blocks is strictly greater, whatever the blocks hold. */
  lemma {:induction false} MoreBlocksIsGreater(a: seq<Block>, b: seq<Block>)
    requires Canonical(b) && |a| < |b|
    ensures Val(a) < Val(b)
  {
    ValBound(a);
    PowMonotone(|a|, |b| - 1);
    CanonicalLowerBound(b);
  }

  /** Without canonical form the count shortcut can disagree with the values. */
  lemma {:induction false} NonCanonicalDisagrees()
    ensures BlocksLe([1], [0, 0]) && Val([1]) > Val([0, 0])
  {
    assert Val([0]) == 0 + BASE * Val([]);
    assert [0, 0][1..] == [0];
    assert [1][1..] == [];
  }

  lemma {:induction false} ReflexiveLe(a: seq<Block>)
    ensures BlocksLe(a, a)
  {
    SameLengthIsValueOrder(a, a);
  }

  lemma {:induction false} TotalLe(a: seq<Block>, b: seq<Block>)
    ensures BlocksLe(a, b) || BlocksLe(b, a)
  {
    if |a| == |b| {
      SameLengthIsValueOrder(a, b);
      SameLengthIsValueOrder(b, a);
    }
  }

  lemma {:induction false} AntisymmetricLe(a: seq<Block>, b: seq<Block>)
    requires BlocksLe(a, b) && BlocksLe(b, a)
    ensures a == b
  {
    SameLengthIsValueOrder(a, b);
    SameLengthIsValueOrder(b, a);
    ValInjective(a, b);
  }

  lemma {:induction false} TransitiveLe(a: seq<Block>, b: seq<Block>, c: seq<Block>)
    requires BlocksLe(a, b) && BlocksLe(b, c)
    ensures BlocksLe(a, c)
  {
    if |a| == |b| == |c| {
      SameLengthIsValueOrder(a, b);
      SameLengthIsValueOrder(b, c);
      SameLengthIsValueOrder(a, c);
    }
  }

  /** `!Bnum_ge(a, b)`, which is how `Bnum_lt` is written, is the strict part of the order. */
  lemma {:induction false} NotGeIsStrict(a: seq<Block>, b: seq<Block>)
    ensures !BlocksLe(b, a) <==> BlocksLe(a, b) && a != b
  {
    TotalLe(a, b);
    if BlocksLe(a, b) && BlocksLe(b, a) {
      AntisymmetricLe(a, b);
    }
    if a == b {
      ReflexiveLe(a);
    }
  }

  /** Exactly one of a < b, a == b, a > b, with < and > as the library derives them. */
  lemma {:induction false} Trichotomy(a: seq<Block>, b: seq<Block>)
    ensures !BlocksLe(b, a) || a == b || !BlocksLe(a, b)
    ensures !(!BlocksLe(b, a) && a == b)
    ensures !(a == b && !BlocksLe(a, b))
    ensures !(!BlocksLe(b, a) && !BlocksLe(a, b))
  {
    NotGeIsStrict(a, b);
    NotGeIsStrict(b, a);
  }
}
