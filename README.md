# Ordered coin-sum counter, verified in Dafny

The repository is a single routine, `solve()` in `new.cpp`. It reads a list of
`n` positive denominations and a target `x`, and allocates a table
`dp[0..x]` with `dp[0] = 1` and zeros elsewhere. It sorts the denominations.
Then, for every partial sum `i` from 1 to `x`, it adds `dp[i - a[j]]` into
`dp[i]` for each denomination `a[j] <= i`, reducing modulo 1,000,000,007
after every addition and stopping at the first denomination larger than `i`.
It prints `dp[x]`.

The partial sum is the outer loop and the denomination the inner one. So the
routine counts ORDERED sequences of list entries (compositions), not the
order-independent coin-change count it is sometimes described as. The model
follows the code: [1, 2, 3] and 4 give 7, and [2, 2, 2] and 4 give 9, because
equal entries at different positions are counted separately.

Layout:

- `machine.dfy` (module `Machine`): the C++ `int` and `long long` as the
  newtypes `int32` and `int64`, and the modulus `MOD`. Every `long long`
  operation in the model is range-checked, so Dafny proves that
  `dp[i] + dp[i - a[j]]` never overflows.
- `recurrence.dfy` (module `Recurrence`): the pure specification. `StepSum`
  is the sum the inner loop accumulates, and `Ways(c, s)` the exact
  (unreduced) count the table approximates modulo `MOD`. The module also
  proves its properties: it reads only smaller sums, it is order-independent,
  larger denominations add nothing, and the concrete examples.
- `compositions.dfy` (module `Compositions`): an independent definition, the
  set of sequences of list positions whose denominations total `s`. It
  proves that `Ways(c, s)` is the size of that set.
- `sorting.dfy` (module `Sorting`): the in-place ascending sort, as a
  verified insertion sort (sorted, same multiset).
- `coin_sum.dfy` (module `CoinSum`): `solve()` itself over arrays:
  allocation and zero-fill of the table, the inner loop with its early
  `break`, the outer sweep, and the whole routine `Solve`.

## Model

| member | source | states |
|---|---|---|
| `Machine.AddMod` | new.cpp:29 | reducing modulo `MOD` after each addition leaves the same residue as reducing the unreduced sum once |
| `Recurrence.StepSum` | new.cpp:27-29 | the sum of `tbl[s - v]` over the denominations `v <= s` is non-negative when the table is |
| `Recurrence.TableAt` | new.cpp:24-29 | the finished part of the table below `s` holds `Ways(c, t)` at every index `t < s` |
| `Recurrence.StepSumAppend` | new.cpp:27-29 | visiting two runs of denominations one after the other adds their two sums |
| `Recurrence.StepSumReadsBelow` | new.cpp:28-29 | the sum for partial sum `s` depends only on table entries below `s`, the ones finished by earlier outer iterations |
| `Recurrence.StepSumMod` | new.cpp:29 | tables that agree modulo `MOD` below `s` give sums that agree modulo `MOD` |
| `Recurrence.StepSumSkipsLarger` | new.cpp:28 | when every entry from position `j` on exceeds `s`, stopping at `j` gives the full sum |
| `Recurrence.StepSumRemove` | new.cpp:27-29 | taking one denomination out of the list takes exactly its contribution out of the sum |
| `Recurrence.StepSumPermutation` | new.cpp:27-29 | lists with the same multiset of denominations give the same sum |
| `Recurrence.WaysPermutation` | new.cpp:23 | the count for every target is the same for any reordering of the denominations, so sorting first does not change the answer |
| `Recurrence.WaysUnfold` | new.cpp:24-30 | for `s > 0` the count is the sum, over denominations `v <= s`, of the counts for `s - v`, read from any table holding the smaller counts |
| `Recurrence.WaysAtZero` | new.cpp:22 | target 0 has exactly one way whatever the denominations |
| `Recurrence.WaysWithoutDenominations` | new.cpp:27 | with no denominations every positive target has 0 ways |
| `Recurrence.StepSumOfThree` | new.cpp:27-29 | over a three-entry list the sum is the three contributions added |
| `Recurrence.ExampleOneTwoThree` | new.cpp:24-30 | [1, 2, 3] reaches 4 in 7 ordered ways |
| `Recurrence.ExampleOnlyOnes` | new.cpp:24-30 | [1] reaches 5 in exactly one way |
| `Recurrence.ExampleDuplicates` | new.cpp:24-30 | [2, 2, 2] reaches 4 in 9 ways: duplicates are not merged |
| `Compositions.TotalNonNegative` | new.cpp:28-29 | with positive denominations a total is non-negative and at least its first denomination |
| `Compositions.LedByFirst` | new.cpp:27-29 | a composition built with first position below `k` starts with a denomination `<= s` followed by a composition of the rest |
| `Compositions.LedByHas` | new.cpp:27-29 | every denomination `<= s` followed by a composition of the rest is among the compositions of `s` |
| `Compositions.CompositionsExactly` | new.cpp:22-30 | a sequence of positions is in the constructed set if and only if its denominations total `s` |
| `Compositions.PrependCard` | new.cpp:29 | prefixing a first position to every composition of a set keeps the set's size |
| `Compositions.LedByCount` | new.cpp:27-29 | the number of compositions whose first position is below `k` is the sum the inner loop forms over the first `k` denominations |
| `Compositions.WaysCountsCompositions` | new.cpp:22-30 | `Ways(c, s)` is the number of ordered sequences of list positions whose denominations total `s` |
| `Sorting.SortAscending` | new.cpp:23 | the denominations end in ascending order and are a permutation of the original |
| `CoinSum.FirstAbove` | new.cpp:27-28 | the inner loop stops at the first position whose denomination exceeds `i`, or at the end of the list |
| `CoinSum.SortedStopsAtLarger` | new.cpp:23-28 | on a sorted list every denomination from the stopping position on exceeds `i` |
| `CoinSum.NewTable` | new.cpp:18-22 | the table has `x + 1` entries, `dp[0] = 1` and every other entry 0 |
| `CoinSum.FillEntry` | new.cpp:27-30 | one outer iteration sets `dp[i]` to the residue of the sum of `dp[i - a[j]]` over the positions before the stop, changes no other entry, and keeps every entry in `[0, MOD)` without overflowing `long long` |
| `CoinSum.AddStep` | new.cpp:29 | one pass of the inner loop turns the residue of the sum over `a[..j]` into the residue of the sum over `a[..j+1]` |
| `CoinSum.EntryIsWays` | new.cpp:23-30 | on a sorted list the value one outer iteration leaves in `dp[i]` is `Ways(a, i)` modulo `MOD` |
| `CoinSum.Sweep` | new.cpp:24-33 | after the sweep every entry `dp[t]` is the number of ordered ways to reach `t`, modulo `MOD` |
| `CoinSum.Solve` | new.cpp:10-35 | the result is the number of ordered ways to reach `x` from the given list, in any order, modulo `MOD`; it lies in `[0, MOD)`, is 1 for `x = 0`, and is 0 for `n = 0` and `x > 0` |

## Left out

- Reading `n`, `x` and the denominations from standard input (new.cpp:11-17) and printing `dp[x]` (new.cpp:34): `Solve` takes them as parameters and returns the value.
- `main`'s stream setup and its single-trial loop (new.cpp:40-48): no logic beyond calling `solve()` once.
- The unused type aliases (new.cpp:4-8).
- The algorithm inside `std::sort`: it is replaced by a verified insertion sort. Any correct sort gives the same array, because a sorted permutation is unique.
- Invalid inputs are excluded by preconditions rather than modelled: negative `n`, negative `x`, a list length other than `n`, and denominations below 1. A negative denomination makes the source read outside the table. A zero one breaks the ordered-count reading.
- Solve: requires `x < 2^63 - 1`. At `x = LLONG_MAX` the source's `x + 1` table size and its loop counters overflow `long long`.
- Running out of memory when allocating the `x + 1` entries of the table is not modelled.
