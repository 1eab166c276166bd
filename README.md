# big-numbers in Dafny

A model of the arithmetic engine of `big_numbers.c`. The library stores an
unbounded natural number.

- A `Bnum` is a doubly linked list of 32-bit blocks, least significant first, plus a cached `num_blocks` count.
- The library can build one from a `uint64_t`.
- It compares two of them in six ways.
- It adds, multiplies and raises to an `int` power. Each of these returns a fresh `Bnum`.

The model keeps the library's imperative shape. The pure specification lives in separate modules.

- `Digits`:
  - the block type (`uint32_t`);
  - the widened type (`uint64_t`);
  - the value function `Val` (the sum of block[i] * 2^(32*i));
  - canonical form (no zero top block);
  - `BlocksOf(n)`, the canonical blocks of n.
- `Compare`: the structural order `BlocksLe` that `Bnum_le` implements. It is proved to be a total order. It agrees with the value order on canonical inputs and on inputs of equal length.
- `Addition`: `SumBlocks` and `SumCarry`, the blocks `Bnum_sum` writes and the carry it drops. Both are written position by position, like the two loops.
- `Multiplication`:
  - `MulFrom`, the inner partial-product loop;
  - `PartialProduct`;
  - `MultPrefix` and `MultBlocks`, the fold of the partial products with `Bnum_sum`;
  - `LostCarry`, what those folds drop;
  - `PowBlocks`.
- `BigNumbers`:
  - a class `Bnum` with fields `blocks: seq<Block>` and `numBlocks`. Its only mutator is `AddBlock`.
  - the library functions as methods. Their loops follow the C loops, with invariants, and they are proved against the functions above.
- `CarryLoss`: where the library loses value, and corrected definitions proved exact (see "## Findings").

The methods are modelled as the code is written. `Bnum_sum` drops its final carry. So `Sum` is addition modulo BASE^max(|a|, |b|), with BASE = 2^32. `Mult` and `Power` lose whatever their folds drop.

Each method's contract ties its result to a specification function. The value facts are proved once, as lemmas about those functions:
- `SumIsTruncated`;
- `MultValue`;
- `PowUpperBound`.

`Sum`, `Mult` and `Power` have no `modifies` clause, so neither operand can change.

## Model

| member | source | states |
|---|---|---|
| BigNumbers.Bnum.constructor | big_numbers.c:30-43 | `Bnum_create(num)` holds the canonical base-2^32 blocks of `num`, least significant first: its value is `num`, it has no zero top block and at most two blocks, 0 gives no blocks, and the count matches |
| BigNumbers.Bnum.AddBlock | big_numbers.c:310-329 | appends `v` as the new most significant block and adds one to the count, so the count still matches the blocks; earlier blocks are unchanged |
| BigNumbers.Eq | big_numbers.c:85-98 | true exactly when both have the same blocks (same count, same block at every position); on canonical inputs exactly when the values are equal |
| BigNumbers.Ne | big_numbers.c:109-111 | the negation of `Eq`, block-wise and by value on canonical inputs |
| BigNumbers.Le | big_numbers.c:122-137 | the result is `BlocksLe(a, b)`, i.e. fewer blocks is smaller and otherwise the most significant differing block decides, all equal giving true; on canonical inputs exactly `Val(a) <= Val(b)` |
| BigNumbers.Ge | big_numbers.c:161-176 | the result is `BlocksLe(b, a)`, the mirror of `Le`; on canonical inputs exactly `Val(a) >= Val(b)` |
| BigNumbers.Lt | big_numbers.c:148-150 | `!Ge(a, b)`, which is `BlocksLe(a, b)` with `a` and `b` different; on canonical inputs exactly `Val(a) < Val(b)` |
| BigNumbers.Gt | big_numbers.c:187-189 | `!Le(a, b)`, which is `BlocksLe(b, a)` with `a` and `b` different; on canonical inputs exactly `Val(a) > Val(b)` |
| BigNumbers.Sum | big_numbers.c:200-228 | a fresh `Bnum` whose blocks are `SumBlocks(a, b)` and whose count matches; it has exactly max(\|a\|, \|b\|) blocks |
| BigNumbers.SumLoopStep | big_numbers.c:208-225 | one pass of either sum loop: the widened block sum stays below 2^33, and appending its low word and carrying its high word keeps the loop on the way to `SumBlocks(a, b)` |
| BigNumbers.Mult | big_numbers.c:239-277 | a fresh `Bnum` whose blocks are `MultBlocks(a, b)`; an empty `a` gives an empty result; its value plus the carries the folds drop is exactly Val(a) * Val(b) |
| BigNumbers.MulLoopStep | big_numbers.c:254-263 | one pass of the partial-product loop: a_i * b_j + carry fits in 64 bits with a high word below 2^32, and appending its low word keeps the loop on the way to the partial product |
| BigNumbers.Power | big_numbers.c:288-298 | a fresh `Bnum` whose blocks are `PowBlocks(a, n)`: [1] for n <= 0, `a` block for block for n == 1, and never more than Val(a)^n |
| Digits.BlocksOfCorrect | big_numbers.c:36-40 | the blocks the creation loop writes are worth `n`, have no zero top block, and are empty exactly for 0 |
| Digits.CanonicalIsBlocksOf | big_numbers.c:36-40 | every canonical block sequence is what creation writes for its value, so the representation is unique |
| Digits.BlocksOfU64 | big_numbers.c:38-40 | a 64-bit value gives its low word and then its high word if that is nonzero: 0, 1 or 2 blocks |
| Digits.CanonicalValInjective | big_numbers.c:85-98 | canonical block sequences are equal exactly when their values are |
| Compare.TopDownLePrefix | big_numbers.c:128-134 | equal blocks from position k up leave the decision to the blocks below k |
| Compare.FirstDifferenceDecides | big_numbers.c:128-131 | at equal length, the most significant differing block decides `BlocksLe` |
| Compare.ValFirstDifference | big_numbers.c:128-131 | at equal length, a smaller most significant differing block means a smaller value |
| Compare.SameLengthIsValueOrder | big_numbers.c:125-136 | at equal length `BlocksLe` is exactly the order of the values |
| Compare.CanonicalIsValueOrder | big_numbers.c:122-137 | on canonical inputs `BlocksLe` is exactly the order of the values |
| Compare.MoreBlocksIsGreater | big_numbers.c:123 | a canonical value with more blocks is strictly greater than any with fewer |
| Compare.NonCanonicalDisagrees | big_numbers.c:123 | without canonical form the count shortcut contradicts the values: [1] is `BlocksLe` [0, 0] though it is worth more |
| Compare.ReflexiveLe | big_numbers.c:136 | every block sequence is `BlocksLe` itself |
| Compare.TotalLe | big_numbers.c:122-137 | any two block sequences are comparable |
| Compare.AntisymmetricLe | big_numbers.c:122-137 | `le(a, b)` and `le(b, a)` together mean the blocks are equal, i.e. `eq(a, b)` |
| Compare.TransitiveLe | big_numbers.c:122-137 | `BlocksLe` is transitive |
| Compare.NotGeIsStrict | big_numbers.c:148-150 | `!ge(a, b)` is exactly `le(a, b)` with different blocks, the strict part of the order |
| Compare.Trichotomy | big_numbers.c:148-189 | exactly one of `lt`, `eq` and `gt` holds |
| Addition.CarryFrom | big_numbers.c:208-225 | the carry left when both operands are exhausted is at most 1 |
| Addition.AddFromLength | big_numbers.c:208-225 | the loops write one block per position up to the longer operand's length |
| Addition.CarriedFromSplit | big_numbers.c:218-227 | keeping the final carry as one more block is the same as appending it to what the loops write |
| Addition.CarriedFromValue | big_numbers.c:208-225 | with the final carry kept, the blocks from i on are worth the operands' blocks from i on plus the incoming carry |
| Addition.SumLengthAndValue | big_numbers.c:200-228 | `Bnum_sum` has max(\|a\|, \|b\|) blocks, and their value plus the dropped carry times BASE^max is Val(a) + Val(b), the carry being at most 1 |
| Addition.SumIsTruncated | big_numbers.c:200-228 | `Bnum_sum` is addition modulo BASE^max(\|a\|, \|b\|): value (Val a + Val b) mod BASE^n, the dropped carry the quotient |
| Addition.SumExactIffNoCarry | big_numbers.c:200-228 | the sum is exact exactly when the dropped carry is 0, exactly when Val a + Val b < BASE^max(\|a\|, \|b\|) |
| Addition.AddFromSymmetric | big_numbers.c:208-225 | exchanging the operands changes no block and not the dropped carry |
| Addition.AddNothing | big_numbers.c:217-225 | against an exhausted operand the second loop copies the rest of the other with no carry |
| Addition.SumWithEmpty | big_numbers.c:200-228 | `Bnum_sum(a, empty)` and `Bnum_sum(empty, a)` are block-for-block copies of `a`, with no dropped carry |
| Multiplication.ProductFits | big_numbers.c:256-258 | a_i * b_j + carry with a carry below 2^32 fits in 64 bits and its high word is below 2^32 |
| Multiplication.MulFromValue | big_numbers.c:254-264 | the partial-product loop plus its final carry is exactly x * Val(b[j..]) + carry |
| Multiplication.MulFromShape | big_numbers.c:254-264 | the partial-product loop writes one block per remaining block of `b` and at most one more, and that extra top block is nonzero |
| Multiplication.MulFromOne | big_numbers.c:254-264 | a partial product by the block 1 copies `b` |
| Multiplication.PartialProductValue | big_numbers.c:250-264 | a partial product is `shift` zero blocks then the blocks of a_i * Val(b); it is worth exactly a_i * Val(b) * BASE^shift and has \|b\| + shift or one more blocks |
| Multiplication.MultPrefixValue | big_numbers.c:249-274 | after k folds the running total plus everything those folds dropped is exactly Val(a[..k]) * Val(b) |
| Multiplication.MultValue | big_numbers.c:239-277 | `Bnum_mult` plus the dropped carries is Val(a) * Val(b); it never exceeds the product and equals it exactly when nothing was dropped |
| Multiplication.MultSingleBlock | big_numbers.c:239-277 | a single-block `a` gives exactly the partial product a_0 * b, worth a_0 * Val(b) |
| Multiplication.MultByEmpty | big_numbers.c:249-274 | multiplying by an empty `b` gives \|a\| - 1 zero blocks: the empty zero when \|a\| == 1, and a zero with a zero top block, not canonical, when \|a\| >= 2 |
| Multiplication.PowOne | big_numbers.c:288-298 | `Bnum_pow(a, 1)` is `a` block for block |
| Multiplication.PowUpperBound | big_numbers.c:288-298 | `Bnum_pow(a, n)` never exceeds Val(a)^n |
| CarryLoss.SumLosesCarry | big_numbers.c:218-227 | as written, [2^32 - 1] + [1] is [0]: worth 0 instead of 2^32 and not canonical |
| CarryLoss.ExactSumValue | big_numbers.c:191-228 | the corrected sum is worth exactly Val(a) + Val(b), agrees with `Bnum_sum` in every block that one writes, and has one more block exactly when a carry is left |
| CarryLoss.ExactSumCanonical | big_numbers.c:200-228 | the corrected sum of canonical operands is canonical |
| CarryLoss.LostCarryMisleadsComparison | big_numbers.c:82-137 | as written, [2^32 - 1] + [1] is worth 0 like `Bnum_create(0)`, yet the blocks differ and `BlocksLe` puts it above, so `Bnum_eq` gives 0 and `Bnum_gt` gives 1 |
| CarryLoss.ExactSumComparesByValue | big_numbers.c:82-137 | for canonical a, b and c, the corrected sum of a and b has the same blocks as c exactly when the values are equal, and `BlocksLe` either way exactly when the values are in that order |
| CarryLoss.MultByEmptyMisleadsComparison | big_numbers.c:249-274 | 2^32 * 0 gives [0] both as written and with the corrected sum, a zero that the comparisons tell apart from `Bnum_create(0)`: the blocks differ and `BlocksLe` puts it above |
| CarryLoss.MultLosesCarry | big_numbers.c:266-269 | as written, [2, 1] * [2^32 - 1] is [2^32 - 2, 0] although the product is [2^32 - 2, 0, 1] |
| CarryLoss.PowLosesCarry | big_numbers.c:288-298 | as written, `Bnum_pow` of [2642246] to the power 3 is [2720163800, 245] although 2642246^3 is [2720163800, 245, 1]: the last multiplication drops a carry |
| CarryLoss.ExactMultPrefixValue | big_numbers.c:249-274 | folding the partial products with the corrected sum gives exactly Val(a[..k]) * Val(b) after k folds |
| CarryLoss.ExactMultValue | big_numbers.c:230-277 | the corrected product is exactly Val(a) * Val(b), and `Bnum_mult` falls short of it by exactly the dropped carries |
| CarryLoss.ExactPowValue | big_numbers.c:279-298 | the power built from the corrected product is exactly Val(a)^n |

## Left out

- `Bnum_destroy`: it frees the list. Dafny's memory is managed, so nothing needs freeing.
- `Bnum_print`: it writes to standard output.
- Allocation failures of `malloc`: the code never checks for them.
- The linked-list mechanics: the `next` and `prev` links and the links to both ends become one sequence, and `add_block` appends to its end.
- The `int` overflow of `num_blocks` and of the loop counter `shift`: both are unbounded integers here.
- The range of the exponent of `Bnum_pow`: it is an `int` there and an unbounded integer here. Its loop counter cannot overflow, since it stops below `n`.
- Zero with a zero top block from `Bnum_mult`: multiplying a number of two or more blocks by an empty operand gives \|a\| - 1 blocks, all zero (`MultByEmpty`), and the corrected sum does not change that (`CarryLoss.MultByEmptyMisleadsComparison`). The comparisons then do not decide by value.
- Power: its value is stated only as an upper bound, Val(a)^n, because `Bnum_pow` loses whatever its multiplications drop; `CarryLoss.PowLosesCarry` shows 2642246^3 losing a block. The exact power appears only in the corrected definition in `CarryLoss`.
- Sum: it states its blocks and their number. Its value is stated by `SumIsTruncated` about `SumBlocks`, not repeated on the method.

## Findings

| source | as written | input that shows it | evidently intended | confidence | as-written member | corrected member |
|---|---|---|---|---|---|---|
| big_numbers.c:218-227 | `Bnum_sum` returns after the second loop without appending the final carry, though its comment (big_numbers.c:191-198) promises a value equal to the sum | [2^32 - 1] + [1] gives [0] | one more block holding the carry when it is nonzero, giving an exact sum | high (not executed) | CarryLoss.SumLosesCarry | CarryLoss.ExactSumValue |
| big_numbers.c:266-269 | `Bnum_mult` folds its partial products with `Bnum_sum` and so inherits the dropped carry | [2, 1] * [2^32 - 1] gives [2^32 - 2, 0] instead of [2^32 - 2, 0, 1] | the exact product Val(a) * Val(b) | high (not executed) | CarryLoss.MultLosesCarry | CarryLoss.ExactMultValue |
| big_numbers.c:288-298 | `Bnum_pow` multiplies with `Bnum_mult` and so inherits its dropped carries, though its comment (big_numbers.c:279-287) promises `a` to the power `n` | [2642246] to the power 3 gives [2720163800, 245] instead of [2720163800, 245, 1] | the exact power Val(a)^n | high (not executed) | CarryLoss.PowLosesCarry | CarryLoss.ExactPowValue |
| big_numbers.c:82-137 | `Bnum_eq`, `Bnum_le` and `Bnum_ge`, and `Bnum_lt`/`Bnum_gt` built on them, compare blocks, which matches their comments (big_numbers.c:82-83, 119-120) only for canonical operands; the lost carry makes `Bnum_sum` return a non-canonical zero | `Bnum_eq(Bnum_sum(Bnum_create(2^32 - 1), Bnum_create(1)), Bnum_create(0))` gives 0 although both are worth 0 | comparison by value on sums of canonical operands, which holds once the sum keeps its carry; multiplying by an empty operand still gives a non-canonical zero (`CarryLoss.MultByEmptyMisleadsComparison`) | high (not executed) | CarryLoss.LostCarryMisleadsComparison | CarryLoss.ExactSumComparesByValue |

The `BigNumbers` methods are modelled as written. The corrected definitions live only in `CarryLoss`: `ExactSumBlocks`, `ExactMultBlocks` and `ExactPowBlocks`. Each of them is proved exact. `ExactSumCanonical` also shows that the corrected sum keeps canonical operands canonical, and `ExactSumComparesByValue` that the comparisons then decide by value.
