/**
 * The recurrence the dynamic-programming table of `solve()` computes, as pure
 * functions over mathematical integers, with its properties.
 *
 * `Ways(c, s)` is defined exactly as the table is filled: one way to reach 0,
 * and for a positive partial sum `s` the sum, over every list entry `v <= s`,
 * of the ways to reach `s - v`. Duplicate entries contribute separately.
 */
module Recurrence {
  import opened Machine

  /** Every denomination is at least 1 (zero and negative ones are invalid input). */
  predicate Positive(c: seq<int64>) {
    forall k :: 0 <= k < |c| ==> c[k] >= 1
  }

  /** What one denomination `v` adds to partial sum `s`, reading the table `tbl`. */
  function Contribution(v: int64, tbl: seq<int>, s: nat): int
    requires v >= 1 && s <= |tbl|
  {
    if v as int <= s then tbl[s - v as int] else 0
  }

  /**
   * The sum of the contributions of the denominations `e` to partial sum `s`:
   * the unreduced value of `dp[s]` once the entries of `e` have been visited.
   */
  function StepSum(e: seq<int64>, tbl: seq<int>, s: nat): (r: int)
    requires Positive(e) && s <= |tbl|
    ensures (forall t :: 0 <= t < |tbl| ==> tbl[t] >= 0) ==> r >= 0
  {
    if e == [] then 0
    else StepSum(e[..|e| - 1], tbl, s) + Contribution(e[|e| - 1], tbl, s)
  }

  /** The number of ordered sequences of entries of `c` that sum to `s`. */
  function Ways(c: seq<int64>, s: nat): nat
    requires Positive(c)
    decreases s, 1
  {
    if s == 0 then 1 else StepSum(c, Table(c, s), s)
  }

  /** The first `s` values of `Ways(c, _)`: the finished part of the table. */
  function Table(c: seq<int64>, s: nat): (t: seq<nat>)
    requires Positive(c)
    ensures |t| == s
    decreases s, 0
  {
    if s == 0 then [] else Table(c, s - 1) + [Ways(c, s - 1)]
  }

  lemma {:induction false} TableAt(c: seq<int64>, s: nat, t: nat)
    requires Positive(c) && t < s
    ensures Table(c, s)[t] == Ways(c, t)
  {
    if t < s - 1 {
      TableAt(c, s - 1, t);
    }
  }

  /** Splitting the denominations splits the sum. */
  lemma {:induction false} StepSumAppend(e1: seq<int64>, e2: seq<int64>, tbl: seq<int>, s: nat)
    requires Positive(e1) && Positive(e2) && s <= |tbl|
    ensures Positive(e1 + e2)
    ensures StepSum(e1 + e2, tbl, s) == StepSum(e1, tbl, s) + StepSum(e2, tbl, s)
  {
    var e := e1 + e2;
    if e2 != [] {
      assert e[..|e| - 1] == e1 + e2[..|e2| - 1];
      StepSumAppend(e1, e2[..|e2| - 1], tbl, s);
    } else {
      assert e == e1;
    }
  }

  /**
   * The sum reads the table only below `s`: the recurrence for `dp[s]` uses
   * only entries that are already final.
   */
  lemma {:induction false} StepSumReadsBelow(e: seq<int64>, tbl1: seq<int>, tbl2: seq<int>, s: nat)
    requires Positive(e) && s <= |tbl1| && s <= |tbl2|
    requires forall t :: 0 <= t < s ==> tbl1[t] == tbl2[t]
    ensures StepSum(e, tbl1, s) == StepSum(e, tbl2, s)
  {
    if e != [] {
      StepSumReadsBelow(e[..|e| - 1], tbl1, tbl2, s);
    }
  }

  /** Tables that agree modulo `MOD` below `s` give sums that agree modulo `MOD`. */
  lemma {:induction false} StepSumMod(e: seq<int64>, tbl1: seq<int>, tbl2: seq<int>, s: nat)
    requires Positive(e) && s <= |tbl1| && s <= |tbl2|
    requires forall t :: 0 <= t < s ==> tbl1[t] % MOD as int == tbl2[t] % MOD as int
    ensures StepSum(e, tbl1, s) % MOD as int == StepSum(e, tbl2, s) % MOD as int
  {
    if e != [] {
      var init := e[..|e| - 1];
      var a1, a2 := StepSum(init, tbl1, s), StepSum(init, tbl2, s);
      var b1, b2 := Contribution(e[|e| - 1], tbl1, s), Contribution(e[|e| - 1], tbl2, s);
      StepSumMod(init, tbl1, tbl2, s);
      assert b1 % MOD as int == b2 % MOD as int;
      calc {
        (a1 + b1) % MOD as int;
        { AddMod(a1, b1); }
        (a1 % MOD as int + b1) % MOD as int;
        (a2 % MOD as int + b1) % MOD as int;
        { AddMod(a2, b1); }
        (b1 + a2) % MOD as int;
        { AddMod(b1, a2); }
        (b1 % MOD as int + a2) % MOD as int;
        (b2 % MOD as int + a2) % MOD as int;
        { AddMod(b2, a2); }
        (a2 + b2) % MOD as int;
      }
    }
  }

  /**
   * Denominations larger than `s` contribute nothing: when every entry from
   * index `j` on exceeds `s`, stopping at `j` gives the full sum.
   */
  lemma {:induction false} StepSumSkipsLarger(e: seq<int64>, tbl: seq<int>, s: nat, j: nat)
    requires Positive(e) && s <= |tbl| && j <= |e|
    requires forall k :: j <= k < |e| ==> e[k] as int > s
    ensures StepSum(e[..j], tbl, s) == StepSum(e, tbl, s)
  {
    if j < |e| {
      var init := e[..|e| - 1];
      assert init[..j] == e[..j];
      StepSumSkipsLarger(init, tbl, s, j);
    } else {
      assert e[..j] == e;
    }
  }

  lemma RemoveAt(f: seq<int64>, k: nat)
    requires k < |f|
    ensures multiset(f[..k] + f[k + 1..]) == multiset(f) - multiset{f[k]}
  {
    assert f == f[..k] + [f[k]] + f[k + 1..];
  }

  /** Taking one denomination out of the list takes its contribution out of the sum. */
  lemma StepSumRemove(f: seq<int64>, k: nat, tbl: seq<int>, s: nat)
    requires Positive(f) && s <= |tbl| && k < |f|
    ensures Positive(f[..k] + f[k + 1..])
    ensures StepSum(f, tbl, s) == StepSum(f[..k] + f[k + 1..], tbl, s) + Contribution(f[k], tbl, s)
  {
    var front, back := f[..k], f[k + 1..];
    StepSumAppend(front, back, tbl, s);
    assert f == (front + [f[k]]) + back;
    StepSumAppend(front + [f[k]], back, tbl, s);
    assert (front + [f[k]])[..|front|] == front;
  }

  /** The sum does not depend on the order of the denominations. */
  lemma {:induction false} StepSumPermutation(e: seq<int64>, f: seq<int64>, tbl: seq<int>, s: nat)
    requires Positive(e) && Positive(f) && s <= |tbl|
    requires multiset(e) == multiset(f)
    ensures StepSum(e, tbl, s) == StepSum(f, tbl, s)
    decreases |e|
  {
    if e == [] {
      assert |f| == |multiset(f)| == 0;
    } else {
      var v := e[|e| - 1];
      assert v in multiset(f);
      var k :| 0 <= k < |f| && f[k] == v;
      RemoveAt(e, |e| - 1);
      RemoveAt(f, k);
      assert e[..|e| - 1] + e[|e|..] == e[..|e| - 1];
      StepSumRemove(f, k, tbl, s);
      StepSumPermutation(e[..|e| - 1], f[..k] + f[k + 1..], tbl, s);
    }
  }

  /** The count does not depend on the order in which the denominations are given. */
  lemma {:induction false} WaysPermutation(c: seq<int64>, d: seq<int64>, s: nat)
    requires Positive(c) && Positive(d)
    requires multiset(c) == multiset(d)
    ensures Ways(c, s) == Ways(d, s)
  {
    if s > 0 {
      forall t | 0 <= t < s
        ensures Table(c, s)[t] == Table(d, s)[t]
      {
        TableAt(c, s, t);
        TableAt(d, s, t);
        WaysPermutation(c, d, t);
      }
      assert Table(c, s) == Table(d, s);
      StepSumPermutation(c, d, Table(c, s), s);
    }
  }

  /** The recurrence written out for one positive partial sum, in terms of `Ways` itself. */
  lemma {:induction false} WaysUnfold(c: seq<int64>, s: nat, tbl: seq<int>)
    requires Positive(c) && 0 < s <= |tbl|
    requires forall t :: 0 <= t < s ==> tbl[t] == Ways(c, t)
    ensures Ways(c, s) == StepSum(c, tbl, s)
  {
    forall t | 0 <= t < s
      ensures Table(c, s)[t] == tbl[t]
    {
      TableAt(c, s, t);
    }
    StepSumReadsBelow(c, Table(c, s), tbl, s);
  }

  /** Nothing but the empty sequence sums to 0, whatever the denominations. */
  lemma WaysAtZero(c: seq<int64>)
    requires Positive(c)
    ensures Ways(c, 0) == 1
  {
  }

  /** Without denominations no positive sum can be reached. */
  lemma WaysWithoutDenominations(s: nat)
    requires s > 0
    ensures Ways([], s) == 0
  {
  }

  lemma StepSumOfThree(u: int64, v: int64, w: int64, tbl: seq<int>, s: nat)
    requires u >= 1 && v >= 1 && w >= 1 && s <= |tbl|
    ensures StepSum([u, v, w], tbl, s)
         == Contribution(u, tbl, s) + Contribution(v, tbl, s) + Contribution(w, tbl, s)
  {
    assert [u][..0] == [];
    assert StepSum([u], tbl, s) == Contribution(u, tbl, s);
    assert [u, v][..1] == [u];
    assert StepSum([u, v], tbl, s) == Contribution(u, tbl, s) + Contribution(v, tbl, s);
    assert [u, v, w][..2] == [u, v];
  }

  /** [1, 2, 3] reaches 4 in 7 ordered ways: 1111, 112, 121, 211, 22, 13, 31. */
  lemma {:induction false} ExampleOneTwoThree()
    ensures Ways([1, 2, 3], 4) == 7
  {
    var c: seq<int64> := [1, 2, 3];
    assert Ways(c, 1) == 1 by { StepSumOfThree(1, 2, 3, Table(c, 1), 1); }
    assert Ways(c, 2) == 2 by { StepSumOfThree(1, 2, 3, Table(c, 2), 2); }
    assert Ways(c, 3) == 4 by { StepSumOfThree(1, 2, 3, Table(c, 3), 3); }
    StepSumOfThree(1, 2, 3, Table(c, 4), 4);
  }

  /** A single denomination 1 reaches 5 in one way. */
  lemma ExampleOnlyOnes()
    ensures Ways([1], 5) == 1
  {
  }

  /** Duplicates are not merged: [2, 2, 2] reaches 4 in 3 * 3 = 9 ways. */
  lemma {:induction false} ExampleDuplicates()
    ensures Ways([2, 2, 2], 4) == 9
  {
    var c: seq<int64> := [2, 2, 2];
    assert Ways(c, 1) == 0 by { StepSumOfThree(2, 2, 2, Table(c, 1), 1); }
    assert Ways(c, 2) == 3 by { StepSumOfThree(2, 2, 2, Table(c, 2), 2); }
    assert Ways(c, 3) == 0 by { StepSumOfThree(2, 2, 2, Table(c, 3), 3); }
    StepSumOfThree(2, 2, 2, Table(c, 4), 4);
  }
}
