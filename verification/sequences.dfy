/** Generic sequence operations shared by the metric and log models:
    order-preserving filtering, mapping, duplicate removal, counting,
    sums, minima/maxima and sorting. */
module Sequences {

  // ---------------------------------------------------------------------
  // Filtering (pandas boolean-mask selection keeps row order)
  // ---------------------------------------------------------------------

  function Filter<T(!new)>(xs: seq<T>, p: T -> bool): (r: seq<T>)
    ensures |r| <= |xs|
    ensures forall x :: x in r <==> x in xs && p(x)
    ensures forall i :: 0 <= i < |r| ==> p(r[i])
    decreases |xs|
  {
    if |xs| == 0 then []
    else (if p(xs[0]) then [xs[0]] else []) + Filter(xs[1..], p)
  }

  /** Filtering distributes over concatenation, so the kept rows stay in
      their original relative order. */
  lemma {:induction false} FilterAppend<T(!new)>(a: seq<T>, b: seq<T>, p: T -> bool)
    ensures Filter(a + b, p) == Filter(a, p) + Filter(b, p)
    decreases |a|
  {
    if |a| == 0 {
      assert a + b == b;
    } else {
      assert (a + b)[0] == a[0];
      assert (a + b)[1..] == a[1..] + b;
      FilterAppend(a[1..], b, p);
    }
  }

  /** A filter keeps every copy of a kept value and no copy of a dropped
      one. */
  lemma {:induction false} FilterMultiplicity<T(!new)>(xs: seq<T>, p: T -> bool, x: T)
    ensures multiset(Filter(xs, p))[x] == if p(x) then multiset(xs)[x] else 0
    decreases |xs|
  {
    if |xs| > 0 {
      FilterMultiplicity(xs[1..], p, x);
      assert xs == [xs[0]] + xs[1..];
    }
  }

  /** Two predicates that agree on every element give the same filter. */
  lemma {:induction false} FilterExtensional<T(!new)>(xs: seq<T>, p: T -> bool, q: T -> bool)
    requires forall x :: x in xs ==> (p(x) <==> q(x))
    ensures Filter(xs, p) == Filter(xs, q)
    decreases |xs|
  {
    if |xs| > 0 {
      assert forall x :: x in xs[1..] ==> x in xs;
      FilterExtensional(xs[1..], p, q);
    }
  }

  /** Filtering twice is filtering once with the conjunction. */
  lemma {:induction false} FilterFilter<T(!new)>(xs: seq<T>, p: T -> bool, q: T -> bool, pq: T -> bool)
    requires forall x :: pq(x) <==> p(x) && q(x)
    ensures Filter(Filter(xs, p), q) == Filter(xs, pq)
    decreases |xs|
  {
    if |xs| > 0 {
      var fp := Filter(xs, p);
      FilterFilter(xs[1..], p, q, pq);
      if p(xs[0]) {
        assert fp == [xs[0]] + Filter(xs[1..], p);
        assert fp[0] == xs[0];
        assert fp[1..] == Filter(xs[1..], p);
      } else {
        assert fp == Filter(xs[1..], p);
      }
    }
  }

  // ---------------------------------------------------------------------
  // Mapping and pairing
  // ---------------------------------------------------------------------

  function MapSeq<T, U>(xs: seq<T>, f: T -> U): (r: seq<U>)
    ensures |r| == |xs|
    ensures forall i :: 0 <= i < |xs| ==> r[i] == f(xs[i])
  {
    seq(|xs|, i requires 0 <= i < |xs| => f(xs[i]))
  }

  /** All pairs in row-major order: the shape of two nested `for` loops. */
  function Product<A(!new), B(!new)>(xs: seq<A>, ys: seq<B>): (r: seq<(A, B)>)
    ensures forall a, b :: (a, b) in r <==> a in xs && b in ys
    ensures |r| == |xs| * |ys|
    decreases |xs|
  {
    if |xs| == 0 then []
    else
      var rest := Product(xs[1..], ys);
      var row := MapSeq(ys, (b: B) => (xs[0], b));
      assert forall a, b :: (a, b) in row <==> a == xs[0] && b in ys by {
        forall a, b | (a, b) in row ensures a == xs[0] && b in ys {
          var i :| 0 <= i < |row| && row[i] == (a, b);
          assert row[i] == (xs[0], ys[i]);
        }
        forall a, b | a == xs[0] && b in ys ensures (a, b) in row {
          var i :| 0 <= i < |ys| && ys[i] == b;
          assert row[i] == (a, b);
        }
      }
      assert forall a :: a in xs <==> a == xs[0] || a in xs[1..] by {
        assert xs == [xs[0]] + xs[1..];
      }
      row + rest
  }

  // ---------------------------------------------------------------------
  // Duplicate removal, counting and sums
  // ---------------------------------------------------------------------

  predicate NoDuplicates<T(==)>(xs: seq<T>) {
    forall i, j :: 0 <= i < j < |xs| ==> xs[i] != xs[j]
  }

  /** The distinct elements of `xs` in order of first occurrence. */
  function Distinct<T(==,!new)>(xs: seq<T>): (r: seq<T>)
    ensures NoDuplicates(r)
    ensures forall x :: x in r <==> x in xs
    ensures |r| <= |xs|
    decreases |xs|
  {
    if |xs| == 0 then []
    else
      var last := xs[|xs| - 1];
      var front := Distinct(xs[..|xs| - 1]);
      assert forall x :: x in xs <==> x in xs[..|xs| - 1] || x == last by {
        assert xs == xs[..|xs| - 1] + [last];
      }
      if last in front then front else front + [last]
  }

  /** Number of occurrences of `x` in `xs`. */
  function Count<T(==)>(xs: seq<T>, x: T): (n: nat)
    ensures n <= |xs|
    ensures n > 0 <==> x in xs
    decreases |xs|
  {
    if |xs| == 0 then 0
    else (if xs[0] == x then 1 else 0) + Count(xs[1..], x)
  }

  /** Counting over a concatenation adds the counts of the parts. */
  lemma {:induction false} CountAppend<T>(a: seq<T>, b: seq<T>, x: T)
    ensures Count(a + b, x) == Count(a, x) + Count(b, x)
    decreases |a|
  {
    if |a| == 0 {
      assert a + b == b;
    } else {
      CountAppend(a[1..], b, x);
      assert (a + b)[0] == a[0];
      assert (a + b)[1..] == a[1..] + b;
    }
  }

  /** The elements of a set drawn from a sequence are at most as many as
      the sequence is long. */
  lemma {:induction false} SetOfSeqSize<T>(xs: seq<T>)
    ensures |set x | x in xs| <= |xs|
    decreases |xs|
  {
    if |xs| > 0 {
      SetOfSeqSize(xs[1..]);
      assert (set x | x in xs) == (set x | x in xs[1..]) + {xs[0]};
    }
  }

  lemma {:induction false} SubsetSize<T>(a: set<T>, b: set<T>)
    requires a <= b
    ensures |a| <= |b|
    decreases |a|
  {
    if a != {} {
      var x :| x in a;
      SubsetSize(a - {x}, b - {x});
    }
  }

  /** `[y for x in xs for y in f(x)]`. */
  function FlatMap<A(!new), T(!new)>(xs: seq<A>, f: A -> seq<T>): (r: seq<T>)
    ensures forall y :: y in r <==> exists x :: x in xs && y in f(x)
    decreases |xs|
  {
    if |xs| == 0 then []
    else
      var rest := FlatMap(xs[1..], f);
      assert forall x :: x in xs <==> x == xs[0] || x in xs[1..] by {
        assert xs == [xs[0]] + xs[1..];
      }
      f(xs[0]) + rest
  }

  /** `sum(f(x) for x in xs)`. */
  function SumOver<T>(xs: seq<T>, f: T -> nat): nat
    decreases |xs|
  {
    if |xs| == 0 then 0 else f(xs[0]) + SumOver(xs[1..], f)
  }

  lemma {:induction false} SumOverBound<T>(xs: seq<T>, f: T -> nat, b: nat)
    requires forall i :: 0 <= i < |xs| ==> f(xs[i]) <= b
    ensures SumOver(xs, f) <= |xs| * b
    decreases |xs|
  {
    if |xs| > 0 {
      SumOverBound(xs[1..], f, b);
      assert |xs| * b == b + (|xs| - 1) * b;
    }
  }

  /** Sum over `keys` of the number of occurrences of each key in `xs`. */
  function SumCounts<T(==)>(keys: seq<T>, xs: seq<T>): nat
    decreases |keys|
  {
    if |keys| == 0 then 0 else Count(xs, keys[0]) + SumCounts(keys[1..], xs)
  }

  lemma {:induction false} SumCountsOfSingleton<T>(keys: seq<T>, x: T)
    requires NoDuplicates(keys)
    ensures SumCounts(keys, [x]) == (if x in keys then 1 else 0)
    decreases |keys|
  {
    if |keys| > 0 {
      assert [x][1..] == [];
      SumCountsOfSingleton(keys[1..], x);
      if keys[0] == x {
        assert x !in keys[1..] by {
          forall j | 0 <= j < |keys[1..]| ensures keys[1..][j] != x {
            assert keys[1..][j] == keys[j + 1];
          }
        }
      }
    }
  }

  lemma {:induction false} SumCountsSplit<T>(keys: seq<T>, x: T, xs: seq<T>)
    ensures SumCounts(keys, [x] + xs) == SumCounts(keys, [x]) + SumCounts(keys, xs)
    decreases |keys|
  {
    if |keys| > 0 {
      assert ([x] + xs)[1..] == xs;
      assert [x][1..] == [];
      SumCountsSplit(keys[1..], x, xs);
    }
  }

  /** Counting every distinct key accounts for every element exactly once:
      the occurrence counts of a group-by add up to the number of rows. */
  lemma {:induction false} SumCountsCoversAll<T>(keys: seq<T>, xs: seq<T>)
    requires NoDuplicates(keys)
    requires forall x :: x in xs ==> x in keys
    ensures SumCounts(keys, xs) == |xs|
    decreases |xs|
  {
    if |xs| == 0 {
      SumCountsOfEmpty(keys, xs);
    } else {
      assert xs == [xs[0]] + xs[1..];
      SumCountsSplit(keys, xs[0], xs[1..]);
      SumCountsOfSingleton(keys, xs[0]);
      SumCountsCoversAll(keys, xs[1..]);
    }
  }

  lemma {:induction false} SumCountsOfEmpty<T>(keys: seq<T>, xs: seq<T>)
    requires |xs| == 0
    ensures SumCounts(keys, xs) == 0
    decreases |keys|
  {
    if |keys| > 0 {
      SumCountsOfEmpty(keys[1..], xs);
    }
  }

  function Sum(xs: seq<real>): real
    decreases |xs|
  {
    if |xs| == 0 then 0.0 else xs[0] + Sum(xs[1..])
  }

  /** A sum of values in `[lo, hi]` lies between `n*lo` and `n*hi`. */
  lemma {:induction false} SumBounds(xs: seq<real>, lo: real, hi: real)
    requires forall i :: 0 <= i < |xs| ==> lo <= xs[i] <= hi
    ensures |xs| as real * lo <= Sum(xs) <= |xs| as real * hi
    decreases |xs|
  {
    if |xs| > 0 {
      SumBounds(xs[1..], lo, hi);
    }
  }

  /** The arithmetic mean of a non-empty sample; it lies between the
      sample's minimum and maximum. */
  function Mean(xs: seq<real>): (m: real)
    requires |xs| > 0
    ensures Min(xs) <= m <= Max(xs)
  {
    MeanBounds(xs);
    Sum(xs) / (|xs| as real)
  }

  lemma MeanBounds(xs: seq<real>)
    requires |xs| > 0
    ensures Min(xs) <= Sum(xs) / (|xs| as real) <= Max(xs)
  {
    WithinMinMax(xs);
    MeanWithin(xs, Min(xs), Max(xs));
  }

  lemma MeanWithin(xs: seq<real>, lo: real, hi: real)
    requires |xs| > 0
    requires forall i :: 0 <= i < |xs| ==> lo <= xs[i] <= hi
    ensures lo <= Sum(xs) / (|xs| as real) <= hi
  {
    SumBounds(xs, lo, hi);
    DivideBounds(Sum(xs), |xs| as real, lo, hi);
  }

  lemma WithinMinMax(xs: seq<real>)
    requires |xs| > 0
    ensures forall i :: 0 <= i < |xs| ==> Min(xs) <= xs[i] <= Max(xs)
  {
    forall i | 0 <= i < |xs| ensures Min(xs) <= xs[i] <= Max(xs) {
      assert xs[i] in xs;
    }
  }

  lemma DivideBounds(s: real, n: real, lo: real, hi: real)
    requires n > 0.0
    requires n * lo <= s <= n * hi
    ensures lo <= s / n <= hi
  {
    assert (s / n) * n == s;
  }

  // ---------------------------------------------------------------------
  // Minimum, maximum and ascending sort of real samples
  // ---------------------------------------------------------------------

  function Min(xs: seq<real>): (m: real)
    requires |xs| > 0
    ensures m in xs
    ensures forall x :: x in xs ==> m <= x
    decreases |xs|
  {
    if |xs| == 1 then xs[0]
    else
      var rest := Min(xs[1..]);
      assert forall x :: x in xs ==> x == xs[0] || x in xs[1..] by {
        assert xs == [xs[0]] + xs[1..];
      }
      if xs[0] <= rest then xs[0] else rest
  }

  function Max(xs: seq<real>): (m: real)
    requires |xs| > 0
    ensures m in xs
    ensures forall x :: x in xs ==> x <= m
    decreases |xs|
  {
    if |xs| == 1 then xs[0]
    else
      var rest := Max(xs[1..]);
      assert forall x :: x in xs ==> x == xs[0] || x in xs[1..] by {
        assert xs == [xs[0]] + xs[1..];
      }
      if xs[0] >= rest then xs[0] else rest
  }

  predicate Ascending(s: seq<real>) {
    forall i, j :: 0 <= i < j < |s| ==> s[i] <= s[j]
  }

  function Insert(x: real, s: seq<real>): (r: seq<real>)
    requires Ascending(s)
    ensures Ascending(r)
    ensures multiset(r) == multiset(s) + multiset{x}
    decreases |s|
  {
    if |s| == 0 then [x]
    else if x <= s[0] then [x] + s
    else
      var rest := Insert(x, s[1..]);
      assert s == [s[0]] + s[1..];
      InsertedAbove(x, s, rest);
      [s[0]] + rest
  }

  lemma InsertedAbove(x: real, s: seq<real>, rest: seq<real>)
    requires Ascending(s) && |s| > 0 && s[0] < x && Ascending(rest)
    requires multiset(rest) == multiset(s[1..]) + multiset{x}
    ensures Ascending([s[0]] + rest)
  {
    forall k | 0 <= k < |rest| ensures s[0] <= rest[k] {
      assert rest[k] in multiset(rest);
      if rest[k] != x {
        assert rest[k] in s[1..];
      }
    }
    forall i, j | 0 <= i < j < |rest| + 1 ensures ([s[0]] + rest)[i] <= ([s[0]] + rest)[j] {
      if i > 0 {
        assert ([s[0]] + rest)[i] == rest[i - 1];
      }
      assert ([s[0]] + rest)[j] == rest[j - 1];
    }
  }


  /** Ascending sort (pandas `sort_values()`), by insertion. */
  function Sort(xs: seq<real>): (r: seq<real>)
    ensures Ascending(r)
    ensures multiset(r) == multiset(xs)
    decreases |xs|
  {
    if |xs| == 0 then []
    else
      assert xs == [xs[0]] + xs[1..];
      Insert(xs[0], Sort(xs[1..]))
  }

  /** In a sorted permutation of `xs` the first element is the minimum and
      the last is the maximum. */
  lemma SortedEnds(xs: seq<real>, s: seq<real>)
    requires |xs| > 0
    requires Ascending(s) && multiset(s) == multiset(xs)
    ensures |s| == |xs|
    ensures s[0] == Min(xs) && s[|s| - 1] == Max(xs)
  {
    assert |s| == |multiset(s)| == |multiset(xs)| == |xs|;
    assert forall y :: y in s <==> y in xs by {
      forall y ensures y in s <==> y in xs {
        assert y in s <==> y in multiset(s);
        assert y in xs <==> y in multiset(xs);
      }
    }
    var m := Min(xs);
    assert m in s;
    assert s[0] in xs;
    var k :| 0 <= k < |s| && s[k] == m;
    assert s[0] <= s[k];
    var mx := Max(xs);
    assert mx in s;
    assert s[|s| - 1] in xs;
    var k' :| 0 <= k' < |s| && s[k'] == mx;
    assert s[k'] <= s[|s| - 1];
  }

  /** The head of an ascending sequence is below every element. */
  lemma AscendingHeadIsLeast(a: seq<real>, y: real)
    requires Ascending(a) && y in multiset(a)
    ensures a[0] <= y
  {
    assert y in a;
    var i :| 0 <= i < |a| && a[i] == y;
    assert a[0] <= a[i];
  }

  /** A multiset has exactly one ascending arrangement. */
  lemma {:induction false} SortedUnique(a: seq<real>, b: seq<real>)
    requires Ascending(a) && Ascending(b)
    requires multiset(a) == multiset(b)
    ensures a == b
    decreases |a|
  {
    assert |a| == |multiset(a)| == |multiset(b)| == |b|;
    if |a| > 0 {
      assert a[0] in multiset(a) && b[0] in multiset(b);
      AscendingHeadIsLeast(b, a[0]);
      AscendingHeadIsLeast(a, b[0]);
      assert a[0] == b[0];
      assert a == [a[0]] + a[1..];
      assert b == [b[0]] + b[1..];
      assert multiset(a) == multiset{a[0]} + multiset(a[1..]);
      assert multiset(b) == multiset{b[0]} + multiset(b[1..]);
      assert multiset(a[1..]) == multiset(a) - multiset{a[0]};
      assert multiset(b[1..]) == multiset(b) - multiset{b[0]};
      SortedUnique(a[1..], b[1..]);
    }
  }

  // ---------------------------------------------------------------------
  // Non-increasing sort by an integer key (pandas `sort_values(ascending=False)`)
  // ---------------------------------------------------------------------

  predicate NonIncreasing<T>(xs: seq<T>, key: T -> int) {
    forall i, j :: 0 <= i < j < |xs| ==> key(xs[i]) >= key(xs[j])
  }

  function InsertDesc<T(==)>(x: T, s: seq<T>, key: T -> int): (r: seq<T>)
    requires NonIncreasing(s, key)
    ensures NonIncreasing(r, key)
    ensures multiset(r) == multiset(s) + multiset{x}
    decreases |s|
  {
    if |s| == 0 then [x]
    else if key(x) >= key(s[0]) then [x] + s
    else
      var rest := InsertDesc(x, s[1..], key);
      assert s == [s[0]] + s[1..];
      forall k | 0 <= k < |rest| ensures key(s[0]) >= key(rest[k]) {
        InsertDescBound(x, s, key, rest, k);
      }
      [s[0]] + rest
  }

  lemma InsertDescBound<T>(x: T, s: seq<T>, key: T -> int, rest: seq<T>, k: int)
    requires NonIncreasing(s, key) && |s| > 0 && key(x) < key(s[0])
    requires multiset(rest) == multiset(s[1..]) + multiset{x}
    requires 0 <= k < |rest|
    ensures key(s[0]) >= key(rest[k])
  {
    var y := rest[k];
    assert y in multiset(rest);
    if y != x {
      assert y in multiset(s[1..]);
      var i :| 0 <= i < |s[1..]| && s[1..][i] == y;
      assert s[i + 1] == y;
    }
  }

  function SortDesc<T(==)>(xs: seq<T>, key: T -> int): (r: seq<T>)
    ensures NonIncreasing(r, key)
    ensures multiset(r) == multiset(xs)
    decreases |xs|
  {
    if |xs| == 0 then []
    else
      assert xs == [xs[0]] + xs[1..];
      InsertDesc(xs[0], SortDesc(xs[1..], key), key)
  }
}
