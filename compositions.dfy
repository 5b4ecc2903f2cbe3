/**
 * An independent reading of what `Ways` counts: the ordered sequences of list
 * positions whose denominations add up to the target. Positions rather than
 * values are counted, so two equal entries of the list give different
 * sequences.
 */
module Compositions {
  import opened Machine
  import opened Recurrence

  /** Every position in `w` indexes the list `c`. */
  ghost predicate Indexes(c: seq<int64>, w: seq<nat>) {
    forall k :: 0 <= k < |w| ==> w[k] < |c|
  }

  /** The sum of the denominations at the positions `w`. */
  ghost function Total(c: seq<int64>, w: seq<nat>): int
    requires Indexes(c, w)
  {
    if w == [] then 0 else c[w[0]] as int + Total(c, w[1..])
  }

  /** `w` is an ordered choice of list entries, repetitions allowed, summing to `s`. */
  ghost predicate IsComposition(c: seq<int64>, s: int, w: seq<nat>) {
    Indexes(c, w) && Total(c, w) == s
  }

  ghost function Prepend(j: nat, S: set<seq<nat>>): set<seq<nat>> {
    set t | t in S :: [j] + t
  }

  /** The compositions of `s`, built by the choice of the first entry. */
  ghost function Compositions(c: seq<int64>, s: nat): set<seq<nat>>
    requires Positive(c)
    decreases s, 1
  {
    if s == 0 then {[]} else LedBy(c, s, |c|)
  }

  /** The compositions of `s > 0` whose first position is below `k`. */
  ghost function LedBy(c: seq<int64>, s: nat, k: nat): set<seq<nat>>
    requires Positive(c) && k <= |c|
    decreases s, 0, k
  {
    if k == 0 then {}
    else
      LedBy(c, s, k - 1)
      + (if c[k - 1] as int <= s then Prepend(k - 1, Compositions(c, s - c[k - 1] as int)) else {})
  }

  lemma {:induction false} TotalNonNegative(c: seq<int64>, w: seq<nat>)
    requires Positive(c) && Indexes(c, w)
    ensures Total(c, w) >= 0
    ensures w != [] ==> Total(c, w) >= c[w[0]] as int
  {
    if w != [] {
      TotalNonNegative(c, w[1..]);
    }
  }

  lemma {:induction false} LedByFirst(c: seq<int64>, s: nat, k: nat, w: seq<nat>)
    requires Positive(c) && k <= |c| && w in LedBy(c, s, k)
    ensures w != [] && w[0] < k
    ensures c[w[0]] as int <= s && w[1..] in Compositions(c, s - c[w[0]] as int)
  {
    if w !in LedBy(c, s, k - 1) {
      var t :| t in Compositions(c, s - c[k - 1] as int) && w == [k - 1] + t;
      assert w[1..] == t;
    } else {
      LedByFirst(c, s, k - 1, w);
    }
  }

  lemma {:induction false} LedByHas(c: seq<int64>, s: nat, k: nat, j: nat, t: seq<nat>)
    requires Positive(c) && j < k <= |c|
    requires c[j] as int <= s && t in Compositions(c, s - c[j] as int)
    ensures [j] + t in LedBy(c, s, k)
  {
    if j < k - 1 {
      LedByHas(c, s, k - 1, j, t);
    }
  }

  /** Membership in `Compositions` is exactly being a composition. */
  lemma {:induction false} CompositionsExactly(c: seq<int64>, s: nat, w: seq<nat>)
    requires Positive(c)
    ensures w in Compositions(c, s) <==> IsComposition(c, s, w)
    decreases s
  {
    if w in Compositions(c, s) {
      if s > 0 {
        LedByFirst(c, s, |c|, w);
        CompositionsExactly(c, s - c[w[0]] as int, w[1..]);
      }
    }
    if IsComposition(c, s, w) {
      TotalNonNegative(c, w);
      if w != [] {
        TotalNonNegative(c, w[1..]);
        CompositionsExactly(c, s - c[w[0]] as int, w[1..]);
        LedByHas(c, s, |c|, w[0], w[1..]);
        assert [w[0]] + w[1..] == w;
      }
    }
  }

  lemma {:induction false} PrependCard(j: nat, S: set<seq<nat>>)
    ensures |Prepend(j, S)| == |S|
    decreases S
  {
    if S != {} {
      var t :| t in S;
      var R := S - {t};
      assert Prepend(j, S) == Prepend(j, R) + {[j] + t};
      forall u | u in R ensures [j] + u != [j] + t {
        assert ([j] + u)[1..] == u;
      }
      PrependCard(j, R);
    }
  }

  lemma {:induction false} LedByCount(c: seq<int64>, s: nat, k: nat)
    requires Positive(c) && k <= |c| && s > 0
    requires forall t :: 0 <= t < s ==> |Compositions(c, t)| == Ways(c, t)
    ensures Positive(c[..k])
    ensures |LedBy(c, s, k)| == StepSum(c[..k], Table(c, s), s)
  {
    if k > 0 {
      LedByCount(c, s, k - 1);
      assert c[..k][..k - 1] == c[..k - 1];
      var v := c[k - 1];
      var added := if v as int <= s then Prepend(k - 1, Compositions(c, s - v as int)) else {};
      forall w | w in LedBy(c, s, k - 1) ensures w !in added {
        LedByFirst(c, s, k - 1, w);
      }
      assert LedBy(c, s, k - 1) * added == {};
      if v as int <= s {
        PrependCard(k - 1, Compositions(c, s - v as int));
        TableAt(c, s, s - v as int);
      }
    }
  }

  /** `Ways(c, s)` is the number of ordered compositions of `s` from the list `c`. */
  lemma {:induction false} WaysCountsCompositions(c: seq<int64>, s: nat)
    requires Positive(c)
    ensures forall w :: w in Compositions(c, s) <==> IsComposition(c, s, w)
    ensures |Compositions(c, s)| == Ways(c, s)
    decreases s
  {
    forall w ensures w in Compositions(c, s) <==> IsComposition(c, s, w) {
      CompositionsExactly(c, s, w);
    }
    if s > 0 {
      forall t | 0 <= t < s ensures |Compositions(c, t)| == Ways(c, t) {
        WaysCountsCompositions(c, t);
      }
      LedByCount(c, s, |c|);
      assert c[..|c|] == c;
    }
  }
}
