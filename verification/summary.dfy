/** The robust per-metric summary (`get_metrics_stats`): NaN cells are
    dropped, the samples sorted, one minimum and one maximum trimmed when
    there are more than two, and the share of strictly positive samples is
    taken over the untrimmed data. */
module Summary {
  import opened Sequences
  import opened Frames

  /** The describe() record of one metric column. `Empty` is the record of
      a column with no non-NaN sample (count 0, every statistic NaN).
      `kept` holds the sorted samples the statistics are computed over;
      the standard deviation and the percentiles are functions of `kept`
      that this model does not evaluate. */
  datatype Summary =
    | Empty
    | Stats(count: nat, mean: real, kept: seq<real>, nonZeroRatio: real)

  /** `round(x, 3)`, rounding halves up: the one multiple of 0.001 in
      `(x - 0.0005, x + 0.0005]`. */
  function Round3(x: real): (r: real)
    ensures (r * 1000.0).Floor as real == r * 1000.0
    ensures x - 0.0005 < r <= x + 0.0005
    ensures 0.0 <= x <= 1.0 ==> 0.0 <= r <= 1.0
  {
    var k := (x * 1000.0 + 0.5).Floor;
    assert k as real <= x * 1000.0 + 0.5 < k as real + 1.0;
    k as real / 1000.0
  }

  predicate Positive(x: real) {
    x > 0.0
  }

  /** The number of strictly positive samples. */
  function CountPositive(xs: seq<real>): (n: nat)
    ensures n <= |xs|
    ensures n == |xs| <==> forall i :: 0 <= i < |xs| ==> xs[i] > 0.0
    ensures n == 0 <==> forall i :: 0 <= i < |xs| ==> xs[i] <= 0.0
    decreases |xs|
  {
    if |xs| == 0 then 0
    else
      var rest := CountPositive(xs[1..]);
      assert forall i :: 1 <= i < |xs| ==> xs[i] == xs[1..][i - 1];
      (if xs[0] > 0.0 then 1 else 0) + rest
  }

  /** The count is the length of the positive samples kept by a filter,
      i.e. `(col > 0).sum()`. */
  lemma {:induction false} CountPositiveFilters(xs: seq<real>)
    ensures CountPositive(xs) == |Filter(xs, Positive)|
    decreases |xs|
  {
    if |xs| > 0 {
      CountPositiveFilters(xs[1..]);
    }
  }

  /** Drops the first and last element of a sorted sample of more than two. */
  function Trim(sorted: seq<real>): seq<real> {
    if |sorted| <= 2 then sorted else sorted[1..|sorted| - 1]
  }

  function Summarize(xs: seq<real>): (r: Summary)
    ensures r.Empty? <==> |xs| == 0
    ensures r.Stats? ==> r.count == |r.kept| == (if |xs| <= 2 then |xs| else |xs| - 2)
    ensures r.Stats? && |xs| <= 2 ==> multiset(r.kept) == multiset(xs)
    ensures r.Stats? && |xs| > 2 ==>
              multiset(r.kept) + multiset{Min(xs), Max(xs)} == multiset(xs)
    ensures r.Stats? ==> Ascending(r.kept) && r.mean == Mean(r.kept)
    ensures r.Stats? ==> Min(xs) <= r.mean <= Max(xs)
    ensures r.Stats? ==> r.nonZeroRatio == Round3(PositiveShare(xs))
    ensures r.Stats? ==> 0.0 <= r.nonZeroRatio <= 1.0
  {
    if |xs| == 0 then Empty
    else
      var kept := Trim(Sort(xs));
      KeptWithinRange(xs, Sort(xs));
      MeanOfKept(xs, kept);
      Stats(|kept|, Mean(kept), kept, Round3(PositiveShare(xs)))
  }

  /** Share of strictly positive samples, `(col > 0).mean()`. */
  function PositiveShare(xs: seq<real>): (q: real)
    requires |xs| > 0
    ensures q == CountPositive(xs) as real / |xs| as real
    ensures 0.0 <= q <= 1.0
    ensures q == 1.0 <==> forall i :: 0 <= i < |xs| ==> xs[i] > 0.0
    ensures q == 0.0 <==> forall i :: 0 <= i < |xs| ==> xs[i] <= 0.0
  {
    ShareOf(CountPositive(xs), |xs|)
  }

  /** The share is the number of positive samples over the number of
      samples, both taken before trimming. */
  lemma PositiveShareIsFraction(xs: seq<real>)
    requires |xs| > 0
    ensures PositiveShare(xs) == |Filter(xs, Positive)| as real / |xs| as real
  {
    CountPositiveFilters(xs);
  }

  /** `p / n` for a count `p` out of `n`. */
  function ShareOf(p: nat, n: nat): (q: real)
    requires p <= n && n > 0
    ensures q == p as real / n as real
    ensures 0.0 <= q <= 1.0
    ensures q == 1.0 <==> p == n
    ensures q == 0.0 <==> p == 0
  {
    ShareBounds(p as real, n as real);
    p as real / n as real
  }

  lemma ShareBounds(p: real, n: real)
    requires 0.0 <= p <= n && n > 0.0
    ensures (p / n) * n == p
    ensures 0.0 <= p / n <= 1.0
    ensures p / n == 1.0 <==> p == n
    ensures p / n == 0.0 <==> p == 0.0
  {
    assert (p / n) * n == p;
  }

  lemma MeanOfKept(xs: seq<real>, kept: seq<real>)
    requires |xs| > 0 && |kept| > 0
    requires Min(xs) <= Min(kept) && Max(kept) <= Max(xs)
    ensures Min(xs) <= Mean(kept) <= Max(xs)
  {
  }

  /** The trimmed sample of a sorted permutation of `xs` is itself sorted,
      stays between the minimum and the maximum of `xs`, and is `xs` minus
      exactly one copy of each of them. */
  lemma KeptWithinRange(xs: seq<real>, sorted: seq<real>)
    requires |xs| > 0
    requires Ascending(sorted) && multiset(sorted) == multiset(xs)
    ensures |sorted| == |xs|
    ensures Ascending(Trim(sorted)) && |Trim(sorted)| > 0
    ensures Min(xs) <= Min(Trim(sorted)) && Max(Trim(sorted)) <= Max(xs)
    ensures |xs| > 2 ==> multiset(Trim(sorted)) + multiset{Min(xs), Max(xs)} == multiset(xs)
  {
    SortedEnds(xs, sorted);
    TrimSorted(sorted);
    MinMaxWithin(Trim(sorted), sorted[0], sorted[|sorted| - 1]);
    if |xs| > 2 {
      TrimMultiset(sorted);
    }
  }

  lemma TrimSorted(s: seq<real>)
    requires |s| > 0 && Ascending(s)
    ensures Ascending(Trim(s)) && |Trim(s)| > 0
    ensures forall k :: 0 <= k < |Trim(s)| ==> s[0] <= Trim(s)[k] <= s[|s| - 1]
  {
    if |s| > 2 {
      forall k | 0 <= k < |Trim(s)| ensures s[0] <= Trim(s)[k] <= s[|s| - 1] {
        assert Trim(s)[k] == s[k + 1];
      }
    }
  }

  lemma MinMaxWithin(t: seq<real>, lo: real, hi: real)
    requires |t| > 0
    requires forall k :: 0 <= k < |t| ==> lo <= t[k] <= hi
    ensures lo <= Min(t) && Max(t) <= hi
  {
    var m, M := Min(t), Max(t);
    var i :| 0 <= i < |t| && t[i] == m;
    var j :| 0 <= j < |t| && t[j] == M;
  }

  lemma TrimMultiset(s: seq<real>)
    requires |s| > 2
    ensures multiset(s) == multiset(Trim(s)) + multiset{s[0], s[|s| - 1]}
  {
    var n := |s|;
    assert s == s[..n - 1] + s[n - 1..];
    assert s[..n - 1] == s[..1] + s[1..n - 1];
    assert s[..1] == [s[0]] && s[n - 1..] == [s[n - 1]];
    assert multiset(s) == multiset(s[..1]) + multiset(s[1..n - 1]) + multiset(s[n - 1..]);
  }

  /** Replacing the single largest sample by any other value that is still
      the largest leaves every trimmed statistic unchanged: one glitching
      sensor reading cannot move the summary. */
  lemma OutlierInsensitive(xs: seq<real>, hi1: real, hi2: real)
    requires |xs| >= 2
    requires forall i :: 0 <= i < |xs| ==> xs[i] <= hi1 && xs[i] <= hi2
    ensures Summarize(xs + [hi1]).kept == Summarize(xs + [hi2]).kept
    ensures Summarize(xs + [hi1]).mean == Summarize(xs + [hi2]).mean
    ensures Summarize(xs + [hi1]).count == Summarize(xs + [hi2]).count
  {
    var s := Sort(xs);
    AppendLargestSorted(xs, s, hi1);
    AppendLargestSorted(xs, s, hi2);
    TrimSnoc(s, hi1);
    TrimSnoc(s, hi2);
  }

  lemma TrimSnoc(s: seq<real>, hi: real)
    requires |s| >= 2
    ensures Trim(s + [hi]) == s[1..]
  {
    assert (s + [hi])[1..|s|] == s[1..];
  }

  lemma AppendLargestSorted(xs: seq<real>, s: seq<real>, hi: real)
    requires s == Sort(xs)
    requires forall i :: 0 <= i < |xs| ==> xs[i] <= hi
    ensures Sort(xs + [hi]) == s + [hi]
  {
    PermutationBelow(xs, s, hi);
    AscendingSnoc(s, hi);
    assert multiset(s + [hi]) == multiset(xs + [hi]);
    SortedUnique(Sort(xs + [hi]), s + [hi]);
  }

  lemma AscendingSnoc(s: seq<real>, hi: real)
    requires Ascending(s)
    requires forall i :: 0 <= i < |s| ==> s[i] <= hi
    ensures Ascending(s + [hi])
  {
    forall i, j | 0 <= i < j < |s| + 1 ensures (s + [hi])[i] <= (s + [hi])[j] {
      assert (s + [hi])[i] == s[i];
    }
  }

  lemma PermutationBelow(xs: seq<real>, s: seq<real>, hi: real)
    requires multiset(s) == multiset(xs)
    requires forall i :: 0 <= i < |xs| ==> xs[i] <= hi
    ensures forall i :: 0 <= i < |s| ==> s[i] <= hi
  {
    forall i | 0 <= i < |s| ensures s[i] <= hi {
      assert s[i] in multiset(s);
      assert s[i] in xs;
      var j :| 0 <= j < |xs| && xs[j] == s[i];
    }
  }

  /** A column with a single NaN-free zero among positive readings: the
      zero is trimmed from the mean yet still lowers the non-zero ratio. */
  lemma NonZeroRatioCountsTrimmedSamples(xs: seq<real>)
    requires xs == [0.0, 5.0, 5.0]
    ensures Summarize(xs).kept == [5.0]
    ensures Summarize(xs).mean == 5.0
    ensures Summarize(xs).nonZeroRatio == 0.667
  {
    ExampleSorted(xs);
    ExampleTrim(xs);
    MeanOfSingleton(5.0);
    ExampleShare(xs);
  }

  lemma ExampleSorted(xs: seq<real>)
    requires xs == [0.0, 5.0, 5.0]
    ensures Sort(xs) == xs
  {
    assert Ascending(xs);
    SortedIsFixed(xs);
  }

  lemma ExampleTrim(xs: seq<real>)
    requires xs == [0.0, 5.0, 5.0]
    ensures Trim(xs) == [5.0]
  {
  }

  lemma MeanOfSingleton(x: real)
    ensures Mean([x]) == x
  {
    assert Sum([x]) == x + Sum([]);
  }

  lemma SortedIsFixed(xs: seq<real>)
    requires Ascending(xs)
    ensures Sort(xs) == xs
  {
    SortedUnique(Sort(xs), xs);
  }

  lemma ExampleShare(xs: seq<real>)
    requires xs == [0.0, 5.0, 5.0]
    ensures Round3(PositiveShare(xs)) == 0.667
  {
    ExampleCount(xs);
    assert PositiveShare(xs) == 2.0 / 3.0;
    FloorIs(2.0 / 3.0 * 1000.0 + 0.5, 667);
  }

  lemma ExampleCount(xs: seq<real>)
    requires xs == [0.0, 5.0, 5.0]
    ensures CountPositive(xs) == 2
  {
    assert xs[1..] == [5.0, 5.0] && xs[1..][1..] == [5.0] && xs[1..][1..][1..] == [];
  }

  lemma FloorIs(x: real, k: int)
    requires k as real <= x < k as real + 1.0
    ensures x.Floor == k
  {
  }

  /** `get_metrics_stats`: a summary for every requested metric that is a
      column of the frame, computed over that column's non-NaN cells. */
  function MetricsStats(f: Frame, metrics: seq<string>): (r: map<string, Summary>)
    ensures forall m :: m in r <==> m in metrics && m in f.columns
    ensures forall m :: m in r ==> (r[m].Empty? <==> forall row :: row in f.rows ==> m !in row.values)
    ensures forall m :: m in r ==> r[m] == Summarize(Samples(f.rows, m))
  {
    map m | m in metrics && m in f.columns :: Summarize(Samples(f.rows, m))
  }
}
