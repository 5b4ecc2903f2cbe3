/**
 * `solve()`: counts, modulo 1,000,000,007, the ordered ways to reach the
 * target sum `x` from the list of denominations, by filling the table
 * `dp[0..x]` left to right. Reading the input and printing `dp[x]` are
 * replaced by the parameters and the result of `Solve`.
 */
module CoinSum {
  import opened Machine
  import opened Recurrence
  import opened Sorting

  /**
   * Where the inner loop of the sweep stops for partial sum `s`: the first
   * position whose denomination exceeds `s`, or the end of the list.
   */
  function FirstAbove(e: seq<int64>, s: int64): (j: nat)
    ensures j <= |e|
    ensures forall k :: 0 <= k < j ==> e[k] <= s
    ensures j < |e| ==> e[j] > s
  {
    if e == [] || e[0] > s then 0 else 1 + FirstAbove(e[1..], s)
  }

  /** On a sorted list the early stop skips exactly the denominations above `s`. */
  lemma SortedStopsAtLarger(e: seq<int64>, s: int64)
    requires Sorted(e)
    ensures forall k :: FirstAbove(e, s) <= k < |e| ==> e[k] > s
  {
  }

  /** Allocates the table with `dp[0] = 1` and zeros everywhere else. */
  method NewTable(x: int64) returns (dp: array<int64>)
    requires 0 <= x < INT64_MAX
    ensures fresh(dp)
    ensures dp.Length == x as int + 1
    ensures dp[0] == 1
    ensures forall t :: 1 <= t < dp.Length ==> dp[t] == 0
  {
    dp := new int64[x as int + 1];
    var i: int64 := 0;
    while i <= x
      invariant 0 <= i <= x + 1
      invariant forall t :: 0 <= t < i ==> dp[t] == 0
    {
      dp[i] := 0;
      i := i + 1;
    }
    dp[0] := 1;
  }

  /**
   * One outer iteration of the sweep: adds `dp[i - a[j]]` into `dp[i]` for the
   * denominations in list order, stopping at the first one larger than `i`.
   * Only `dp[i]` changes, it is built from entries below `i` alone, and every
   * entry stays in `[0, MOD)`, so no intermediate sum leaves `long long`.
   */
  method FillEntry(a: array<int64>, n: int32, dp: array<int64>, i: int64)
    requires a != dp
    requires a.Length == n as int && Positive(a[..])
    requires 1 <= i as int < dp.Length && dp[i] == 0
    requires forall t :: 0 <= t < dp.Length ==> 0 <= dp[t] < MOD
    modifies dp
    ensures Positive(a[..][..FirstAbove(a[..], i)])
    ensures dp[i] as int == StepSum(a[..][..FirstAbove(a[..], i)], Ints(old(dp[..])), i as int) % MOD as int
    ensures forall t :: 0 <= t < dp.Length && t != i as int ==> dp[t] == old(dp[t])
    ensures forall t :: 0 <= t < dp.Length ==> 0 <= dp[t] < MOD
  {
    ghost var tbl := Ints(dp[..]);
    ghost var c := a[..];
    ghost var stop := FirstAbove(c, i);
    var j: int32 := 0;
    while j < n
      invariant 0 <= j as int <= stop
      invariant Positive(c[..j])
      invariant dp[i] as int == StepSum(c[..j], tbl, i as int) % MOD as int
      invariant forall t :: 0 <= t < dp.Length && t != i as int ==> dp[t] == old(dp[t])
      invariant forall t :: 0 <= t < dp.Length ==> 0 <= dp[t] < MOD
    {
      if a[j] > i {
        break;
      }
      AddStep(c, j as int, tbl, i as int, dp[i] as int);
      dp[i] := (dp[i] + dp[i - a[j]]) % MOD;
      j := j + 1;
    }
  }

  /** The effect of one pass of the inner loop on the residue held in `dp[i]`. */
  lemma AddStep(c: seq<int64>, j: nat, tbl: seq<int>, s: nat, cur: int)
    requires Positive(c) && j < |c| && 1 <= c[j] as int <= s <= |tbl|
    requires cur == StepSum(c[..j], tbl, s) % MOD as int
    ensures Positive(c[..j + 1])
    ensures (cur + tbl[s - c[j] as int]) % MOD as int == StepSum(c[..j + 1], tbl, s) % MOD as int
  {
    assert c[..j + 1][..j] == c[..j];
    AddMod(StepSum(c[..j], tbl, s), tbl[s - c[j] as int]);
  }

  /**
   * The outer loop: for `i` from 1 to `x` fills `dp[i]`. On a sorted list of
   * positive denominations every entry ends equal to `Ways` modulo `MOD`.
   */
  method Sweep(a: array<int64>, n: int32, dp: array<int64>, x: int64)
    requires a != dp
    requires a.Length == n as int && Positive(a[..]) && Sorted(a[..])
    requires 0 <= x < INT64_MAX && dp.Length == x as int + 1
    requires dp[0] == 1 && forall t :: 1 <= t < dp.Length ==> dp[t] == 0
    modifies dp
    ensures forall t :: 0 <= t < dp.Length ==> dp[t] as int == Ways(a[..], t) % MOD as int
  {
    ghost var c := a[..];
    var i: int64 := 1;
    while i <= x
      invariant 1 <= i <= x + 1
      invariant forall t :: 0 <= t < i as int ==> dp[t] as int == Ways(c, t) % MOD as int
      invariant forall t :: i as int <= t < dp.Length ==> dp[t] == 0
    {
      ghost var tbl := Ints(dp[..]);
      FillEntry(a, n, dp, i);
      EntryIsWays(c, tbl, i);
      i := i + 1;
    }
  }

  /**
   * What one outer iteration leaves in `dp[i]` is `Ways(c, i)` modulo `MOD`,
   * once the entries below `i` hold the counts for their own sums.
   */
  lemma EntryIsWays(c: seq<int64>, tbl: seq<int>, i: int64)
    requires Positive(c) && Sorted(c) && 1 <= i as int <= |tbl|
    requires forall t :: 0 <= t < i as int ==> tbl[t] == Ways(c, t) % MOD as int
    ensures Positive(c[..FirstAbove(c, i)])
    ensures StepSum(c[..FirstAbove(c, i)], tbl, i as int) % MOD as int == Ways(c, i as int) % MOD as int
  {
    SortedStopsAtLarger(c, i);
    StepSumSkipsLarger(c, tbl, i as int, FirstAbove(c, i));
    forall t | 0 <= t < i as int
      ensures tbl[t] % MOD as int == Table(c, i as int)[t] % MOD as int
    {
      TableAt(c, i as int, t);
    }
    StepSumMod(c, tbl, Table(c, i as int), i as int);
  }

  /**
   * The whole routine: copy the denominations, build the table, sort, sweep
   * and report `dp[x]`: the number of ordered ways to reach `x`, modulo `MOD`,
   * whatever order the denominations are given in.
   */
  method Solve(n: int32, x: int64, input: seq<int64>) returns (r: int64)
    requires 0 <= n && |input| == n as int && Positive(input)
    requires 0 <= x < INT64_MAX
    ensures r as int == Ways(input, x as int) % MOD as int
    ensures 0 <= r < MOD
    ensures x == 0 ==> r == 1
    ensures n == 0 && x > 0 ==> r == 0
  {
    var a := new int64[n as int](k requires 0 <= k < n as int => input[k]);
    assert a[..] == input;
    var dp := NewTable(x);
    SortAscending(a);
    forall k | 0 <= k < a.Length ensures a[k] >= 1 {
      assert a[..][k] in multiset(input);
    }
    Sweep(a, n, dp, x);
    r := dp[x];
    WaysPermutation(a[..], input, x as int);
  }
}
