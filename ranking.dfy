/** Ranking the surviving schedules by the share of their time spent in class, and choosing the
    schedules whose images are saved. */
module Ranking {
  import opened Sections
  import opened Lists
  import opened Schedules

  // ---------------------------------------------------------------------------------------------
  // The ranking key `class_time / total_time`

  /** The two figures the ranking key divides. */
  datatype Key = Key(classTime: int, totalTime: int)

  /** a's class-to-total ratio exceeds b's, compared exactly by cross-multiplication. */
  predicate RatioAbove(a: Key, b: Key)
  {
    a.classTime * b.totalTime > b.classTime * a.totalTime
  }

  /** Every key can be divided: no total time is zero. */
  predicate Divisible(keys: seq<Key>)
  {
    forall k :: 0 <= k < |keys| ==> keys[k].totalTime > 0
  }

  /** With positive totals, the cross-multiplied comparison is the comparison of the quotients. */
  lemma RatioAboveMeaning(a: Key, b: Key)
    requires a.totalTime > 0 && b.totalTime > 0
    ensures RatioAbove(a, b) <==>
      (a.classTime as real) / (a.totalTime as real) > (b.classTime as real) / (b.totalTime as real)
  {
    var x, s := a.classTime as real, a.totalTime as real;
    var y, t := b.classTime as real, b.totalTime as real;
    assert x / s == (x * t) / (s * t);
    assert y / t == (y * s) / (s * t);
    assert (a.classTime * b.totalTime) as real == x * t;
    assert (b.classTime * a.totalTime) as real == y * s;
  }

  /** A higher ratio followed by one at least as high as a third is higher than the third. */
  lemma RatioAboveThenNotBelow(a: Key, b: Key, c: Key)
    requires a.totalTime > 0 && b.totalTime > 0 && c.totalTime > 0
    requires RatioAbove(a, b) && !RatioAbove(c, b)
    ensures RatioAbove(a, c)
  {
    var x, s := a.classTime, a.totalTime;
    var y, t := b.classTime, b.totalTime;
    var z, u := c.classTime, c.totalTime;
    assert x * t * u > y * s * u by {
      MultiplyStrict(x * t, y * s, u);
    }
    assert y * u * s >= z * t * s by {
      MultiplyWeak(y * u, z * t, s);
    }
    assert (x * u) * t > (z * s) * t;
    if x * u <= z * s {
      MultiplyWeak(z * s, x * u, t);
    }
  }

  lemma MultiplyStrict(p: int, q: int, r: int)
    requires p > q && r > 0
    ensures p * r > q * r
  {
  }

  lemma MultiplyWeak(p: int, q: int, r: int)
    requires p >= q && r > 0
    ensures p * r >= q * r
  {
  }

  // ---------------------------------------------------------------------------------------------
  // `sort(key=..., reverse=True)`: descending by ratio, ties kept in input order

  /** Index i goes before index j in the ranking: a higher ratio, or an equal one and an earlier
      position. */
  predicate RanksBefore(keys: seq<Key>, i: nat, j: nat)
    requires i < |keys| && j < |keys|
  {
    RatioAbove(keys[i], keys[j]) || (!RatioAbove(keys[j], keys[i]) && i < j)
  }

  predicate Ranked(keys: seq<Key>, order: seq<nat>)
  {
    forall a, b :: 0 <= a < b < |order| ==>
      order[a] < |keys| && order[b] < |keys| && RanksBefore(keys, order[a], order[b])
  }

  /** Inserts index i, which comes after every index of order, after every index whose ratio is
      at least i's. */
  function InsertRanked(keys: seq<Key>, i: nat, order: seq<nat>): (r: seq<nat>)
    requires i < |keys| && forall k :: 0 <= k < |order| ==> order[k] < i
    ensures |r| == |order| + 1 && multiset(r) == multiset(order) + multiset{i}
    ensures forall k :: 0 <= k < |r| ==> r[k] <= i
  {
    if order == [] then [i]
    else if RatioAbove(keys[i], keys[order[0]]) then [i] + order
    else
      assert order == [order[0]] + order[1..];
      [order[0]] + InsertRanked(keys, i, order[1..])
  }

  /** The ranking of the first n indices, built by inserting them in input order. */
  function RankOrder(keys: seq<Key>, n: nat): (r: seq<nat>)
    requires n <= |keys|
    ensures |r| == n && forall k :: 0 <= k < |r| ==> r[k] < n
  {
    if n == 0 then [] else InsertRanked(keys, n - 1, RankOrder(keys, n - 1))
  }

  /** The ranking of the first n indices holds each of them exactly once. */
  lemma {:induction false} RankOrderPermutes(keys: seq<Key>, n: nat)
    requires n <= |keys|
    ensures multiset(RankOrder(keys, n)) == multiset(Indices(n))
  {
    if n > 0 {
      RankOrderPermutes(keys, n - 1);
      assert Indices(n) == Indices(n - 1) + [n - 1];
    }
  }

  /** 0, 1, ..., n - 1. */
  function Indices(n: nat): (r: seq<nat>)
    ensures |r| == n && forall k :: 0 <= k < n ==> r[k] == k
  {
    if n == 0 then [] else Indices(n - 1) + [n - 1]
  }

  /** The elements of xs at the positions order lists, in that order. */
  function Permute<T>(xs: seq<T>, order: seq<nat>): (r: seq<T>)
    requires forall k :: 0 <= k < |order| ==> order[k] < |xs|
    ensures |r| == |order| && forall k :: 0 <= k < |order| ==> r[k] == xs[order[k]]
  {
    seq(|order|, k requires 0 <= k < |order| => xs[order[k]])
  }

  /** Rearranging the positions rearranges the elements: two position lists holding the same
      positions pick the same elements, as often each. */
  lemma {:induction false} PermuteMultiset<T>(xs: seq<T>, a: seq<nat>, b: seq<nat>)
    requires multiset(a) == multiset(b)
    requires forall k :: 0 <= k < |a| ==> a[k] < |xs|
    requires forall k :: 0 <= k < |b| ==> b[k] < |xs|
    ensures multiset(Permute(xs, a)) == multiset(Permute(xs, b))
    decreases |a|
  {
    if a != [] {
      var i := a[0];
      assert i in multiset(b) by {
        assert a[0] in multiset(a);
      }
      var j :| 0 <= j < |b| && b[j] == i;
      assert multiset(Remove(a, 0)) == multiset(Remove(b, j)) by {
        MultisetRemove(a, 0);
        MultisetRemove(b, j);
      }
      PermuteSplit(xs, b, j);
      PermuteSplit(xs, a, 0);
      PermuteMultiset(xs, Remove(a, 0), Remove(b, j));
    }
  }

  /** s without its element at position j. */
  function Remove<T>(s: seq<T>, j: nat): (r: seq<T>)
    requires j < |s|
    ensures |r| == |s| - 1
  {
    s[..j] + s[j + 1..]
  }

  /** Taking out position j takes out one occurrence of its element. */
  lemma MultisetRemove<T>(s: seq<T>, j: nat)
    requires j < |s|
    ensures multiset(Remove(s, j)) == multiset(s) - multiset{s[j]}
  {
    assert s == s[..j] + [s[j]] + s[j + 1..];
  }

  /** Picking the positions of a + b is picking those of a, then those of b. */
  lemma PermuteAppend<T>(xs: seq<T>, a: seq<nat>, b: seq<nat>)
    requires forall k :: 0 <= k < |a| ==> a[k] < |xs|
    requires forall k :: 0 <= k < |b| ==> b[k] < |xs|
    ensures forall k :: 0 <= k < |a + b| ==> (a + b)[k] < |xs|
    ensures Permute(xs, a + b) == Permute(xs, a) + Permute(xs, b)
  {
  }

  /** Picking the positions of b is picking position j and the positions around it. */
  lemma PermuteSplit<T>(xs: seq<T>, b: seq<nat>, j: nat)
    requires j < |b| && forall k :: 0 <= k < |b| ==> b[k] < |xs|
    ensures forall k :: 0 <= k < |Remove(b, j)| ==> Remove(b, j)[k] < |xs|
    ensures multiset(Permute(xs, b)) == multiset{xs[b[j]]} + multiset(Permute(xs, Remove(b, j)))
  {
    var before, after := b[..j], b[j + 1..];
    assert b == before + ([b[j]] + after);
    PermuteAppend(xs, before, [b[j]] + after);
    PermuteAppend(xs, [b[j]], after);
    PermuteAppend(xs, before, after);
    assert Permute(xs, [b[j]]) == [xs[b[j]]];
  }

  /** Ranking rearranges the schedules: the ranked list holds each of them as often as before. */
  lemma RankedPermutes<T>(xs: seq<T>, keys: seq<Key>)
    requires |keys| == |xs|
    ensures multiset(Permute(xs, RankOrder(keys, |keys|))) == multiset(xs)
  {
    var order, all := RankOrder(keys, |keys|), Indices(|xs|);
    assert multiset(order) == multiset(all) by { RankOrderPermutes(keys, |keys|); }
    PermuteMultiset(xs, order, all);
    PermuteIndices(xs);
  }

  /** Picking every position in order gives the sequence back. */
  lemma PermuteIndices<T>(xs: seq<T>)
    ensures Permute(xs, Indices(|xs|)) == xs
  {
  }

  lemma ConsRanked(keys: seq<Key>, y: nat, s: seq<nat>)
    requires Ranked(keys, s) && y < |keys|
    requires forall k :: 0 <= k < |s| ==> s[k] < |keys| && RanksBefore(keys, y, s[k])
    ensures Ranked(keys, [y] + s)
  {
    var r := [y] + s;
    forall a, b | 0 <= a < b < |r| ensures r[a] < |keys| && r[b] < |keys| && RanksBefore(keys, r[a], r[b]) {
      if a > 0 {
        assert r[a] == s[a - 1] && r[b] == s[b - 1];
      } else {
        assert r[b] == s[b - 1];
      }
    }
  }

  /** Inserting an index later than every index of a ranked order keeps it ranked. */
  lemma {:induction false} InsertRankedRanked(keys: seq<Key>, i: nat, order: seq<nat>)
    requires Divisible(keys) && i < |keys|
    requires forall k :: 0 <= k < |order| ==> order[k] < i
    requires Ranked(keys, order)
    ensures Ranked(keys, InsertRanked(keys, i, order))
  {
    if order == [] {
    } else if RatioAbove(keys[i], keys[order[0]]) {
      forall k | 0 <= k < |order| ensures RanksBefore(keys, i, order[k]) {
        if k > 0 {
          RatioAboveThenNotBelow(keys[i], keys[order[0]], keys[order[k]]);
        }
      }
      ConsRanked(keys, i, order);
    } else {
      var rest := order[1..];
      assert Ranked(keys, rest) by {
        forall a, b | 0 <= a < b < |rest| ensures rest[a] < |keys| && rest[b] < |keys| && RanksBefore(keys, rest[a], rest[b]) {
          assert rest[a] == order[a + 1] && rest[b] == order[b + 1];
        }
      }
      InsertRankedRanked(keys, i, rest);
      var inserted := InsertRanked(keys, i, rest);
      forall k | 0 <= k < |inserted| ensures inserted[k] < |keys| && RanksBefore(keys, order[0], inserted[k]) {
        assert inserted[k] in multiset(inserted);
        if inserted[k] != i {
          var j :| 0 <= j < |rest| && rest[j] == inserted[k];
          assert rest[j] == order[j + 1];
        }
      }
      ConsRanked(keys, order[0], inserted);
    }
  }

  lemma {:induction false} RankOrderRanked(keys: seq<Key>, n: nat)
    requires Divisible(keys) && n <= |keys|
    ensures Ranked(keys, RankOrder(keys, n))
  {
    if n > 0 {
      RankOrderRanked(keys, n - 1);
      RankOrderStep(keys, n);
    }
  }

  /** Placing the next index keeps a ranked order ranked. */
  lemma RankOrderStep(keys: seq<Key>, n: nat)
    requires Divisible(keys) && 0 < n <= |keys|
    requires Ranked(keys, RankOrder(keys, n - 1))
    ensures Ranked(keys, RankOrder(keys, n))
  {
    InsertRankedRanked(keys, n - 1, RankOrder(keys, n - 1));
  }

  /** The ranking is a permutation of the schedules' positions in which a ratio is never followed by
      a higher one, and schedules with equal ratios keep the order they came in (`list.sort` is
      stable, also with reverse=True). */
  lemma RankOrderMeaning(keys: seq<Key>)
    requires Divisible(keys)
    ensures var r := RankOrder(keys, |keys|);
      && |r| == |keys|
      && (forall k :: 0 <= k < |r| ==> r[k] < |keys|)
      && (forall i :: 0 <= i < |keys| ==> i in r)
      && (forall a, b :: 0 <= a < b < |r| ==> !RatioAbove(keys[r[b]], keys[r[a]]))
      && (forall a, b :: 0 <= a < b < |r| && !RatioAbove(keys[r[a]], keys[r[b]]) ==> r[a] < r[b])
  {
    var r := RankOrder(keys, |keys|);
    RankOrderRanked(keys, |keys|);
    RankOrderPermutes(keys, |keys|);
    forall a, b | 0 <= a < b < |r|
      ensures !RatioAbove(keys[r[b]], keys[r[a]])
      ensures !RatioAbove(keys[r[a]], keys[r[b]]) ==> r[a] < r[b]
    {
      assert RanksBefore(keys, r[a], r[b]);
    }
    forall i | 0 <= i < |keys| ensures i in r {
      assert Indices(|keys|)[i] == i;
      assert i in multiset(Indices(|keys|));
    }
  }

  /** Ranking values by a key: the ranked values are the values rearranged, and no value is
      followed by one whose key has a higher ratio. */
  lemma RankByKey<T>(xs: seq<T>, key: T -> Key)
    requires Divisible(Map(key, xs))
    ensures var keys := Map(key, xs);
      var ranked := Permute(xs, RankOrder(keys, |keys|));
      && multiset(ranked) == multiset(xs)
      && forall a, b :: 0 <= a < b < |ranked| ==> !RatioAbove(key(ranked[b]), key(ranked[a]))
  {
    var keys := Map(key, xs);
    var order := RankOrder(keys, |keys|);
    var ranked := Permute(xs, order);
    RankedPermutes(xs, keys);
    RankOrderMeaning(keys);
    forall a, b | 0 <= a < b < |ranked| ensures !RatioAbove(key(ranked[b]), key(ranked[a])) {
      assert key(ranked[a]) == keys[order[a]] && key(ranked[b]) == keys[order[b]];
    }
  }

  // ---------------------------------------------------------------------------------------------
  // Choosing the schedules to save: at most 10, skipping any that matches one already chosen

  /** The most images saved at each end of the ranking. */
  const ImageLimit: nat := 10

  /** The layout matches, under `same`, the layout at some chosen position. */
  predicate MatchesChosen<T>(layout: T, layouts: seq<T>, same: (T, T) -> bool, chosen: seq<nat>)
  {
    exists k :: 0 <= k < |chosen| && chosen[k] < |layouts| && same(layout, layouts[chosen[k]])
  }

  /** The positions the selection loop chooses among the first x layouts: a layout is chosen while
      fewer than ImageLimit have been, unless it matches one already chosen. */
  function Chosen<T>(layouts: seq<T>, same: (T, T) -> bool, x: nat): (r: seq<nat>)
    requires x <= |layouts|
  {
    if x == 0 then []
    else
      var before := Chosen(layouts, same, x - 1);
      if |before| < ImageLimit && !MatchesChosen(layouts[x - 1], layouts, same, before) then before + [x - 1]
      else before
  }

  /** At most ImageLimit positions are chosen, in increasing order, each below x. */
  lemma {:induction false} ChosenShape<T>(layouts: seq<T>, same: (T, T) -> bool, x: nat)
    requires x <= |layouts|
    ensures var r := Chosen(layouts, same, x);
      |r| <= ImageLimit && (forall k :: 0 <= k < |r| ==> r[k] < x) &&
      forall a, b :: 0 <= a < b < |r| ==> r[a] < r[b]
  {
    if x > 0 {
      ChosenShape(layouts, same, x - 1);
    }
  }

  /** No chosen schedule matches one chosen before it. */
  lemma {:induction false} ChosenDistinct<T>(layouts: seq<T>, same: (T, T) -> bool, x: nat)
    requires x <= |layouts|
    ensures var r := Chosen(layouts, same, x);
      forall a, b :: 0 <= a < b < |r| ==>
        r[a] < r[b] < |layouts| && !same(layouts[r[b]], layouts[r[a]])
  {
    if x > 0 {
      ChosenDistinct(layouts, same, x - 1);
      ChosenShape(layouts, same, x - 1);
    }
  }

  /** Once ImageLimit schedules are chosen, later ones change nothing. */
  lemma {:induction false} ChosenFull<T>(layouts: seq<T>, same: (T, T) -> bool, x: nat, y: nat)
    requires x <= y <= |layouts| && |Chosen(layouts, same, x)| >= ImageLimit
    ensures Chosen(layouts, same, y) == Chosen(layouts, same, x)
    decreases y - x
  {
    if x < y {
      ChosenFull(layouts, same, x, y - 1);
      var before := Chosen(layouts, same, y - 1);
      assert |before| >= ImageLimit;
      assert Chosen(layouts, same, y) == before;
    }
  }

  /** A chosen set grows only at the end. */
  lemma {:induction false} ChosenPrefix<T>(layouts: seq<T>, same: (T, T) -> bool, x: nat, y: nat)
    requires x <= y <= |layouts|
    ensures |Chosen(layouts, same, x)| <= |Chosen(layouts, same, y)|
    ensures Chosen(layouts, same, x) == Chosen(layouts, same, y)[..|Chosen(layouts, same, x)|]
    decreases y - x
  {
    if x < y {
      ChosenPrefix(layouts, same, x, y - 1);
    }
  }

  /** A position chosen when it is reached stays at its place among the chosen ones. */
  lemma ChosenAt<T>(layouts: seq<T>, same: (T, T) -> bool, i: nat, x: nat)
    requires i < x <= |layouts| && |Chosen(layouts, same, i + 1)| > |Chosen(layouts, same, i)|
    ensures |Chosen(layouts, same, i)| < |Chosen(layouts, same, x)| && Chosen(layouts, same, x)[|Chosen(layouts, same, i)|] == i
  {
    ChosenGrows(layouts, same, i);
    ChosenPrefix(layouts, same, i + 1, x);
  }

  /** Reaching position i chooses i or nothing. */
  lemma ChosenGrows<T>(layouts: seq<T>, same: (T, T) -> bool, i: nat)
    requires i < |layouts| && |Chosen(layouts, same, i + 1)| > |Chosen(layouts, same, i)|
    ensures Chosen(layouts, same, i + 1) == Chosen(layouts, same, i) + [i]
  {
  }

  /** A schedule reached while fewer than ImageLimit are chosen, and matching none of them, is
      chosen for good. */
  lemma ChosenKeeps<T>(layouts: seq<T>, same: (T, T) -> bool, i: nat, x: nat)
    requires i < x <= |layouts| && |Chosen(layouts, same, i)| < ImageLimit
    ensures !MatchesChosen(layouts[i], layouts, same, Chosen(layouts, same, i)) ==> i in Chosen(layouts, same, x)
  {
    if !MatchesChosen(layouts[i], layouts, same, Chosen(layouts, same, i)) {
      assert |Chosen(layouts, same, i + 1)| > |Chosen(layouts, same, i)|;
      ChosenAt(layouts, same, i, x);
    }
  }

  /** When fewer than ImageLimit schedules are chosen, every schedule passed over matches a
      schedule chosen before it. */
  lemma ChosenSkipsOnlyMatches<T>(layouts: seq<T>, same: (T, T) -> bool, x: nat, i: nat)
    requires i < x <= |layouts| && |Chosen(layouts, same, x)| < ImageLimit
    requires i !in Chosen(layouts, same, x)
    ensures exists k :: (0 <= k < |Chosen(layouts, same, x)| && Chosen(layouts, same, x)[k] < i &&
      same(layouts[i], layouts[Chosen(layouts, same, x)[k]]))
  {
    var before := Chosen(layouts, same, i);
    ChosenPrefix(layouts, same, i, x);
    ChosenShape(layouts, same, i);
    ChosenKeeps(layouts, same, i, x);
    var k :| 0 <= k < |before| && before[k] < |layouts| && same(layouts[i], layouts[before[k]]);
    assert Chosen(layouts, same, x)[k] == before[k];
  }

  /** Over the whole walk, a position is passed over only because it matches an earlier chosen
      one, as long as it comes before the last position chosen or the limit is never reached. */
  lemma ChosenSkipsBeforeLast<T>(layouts: seq<T>, same: (T, T) -> bool, i: nat)
    requires i < |layouts|
    requires var r := Chosen(layouts, same, |layouts|);
      i !in r && (|r| < ImageLimit || i < r[|r| - 1])
    ensures var r := Chosen(layouts, same, |layouts|);
      exists k :: 0 <= k < |r| && r[k] < i && same(layouts[i], layouts[r[k]])
  {
    var n := |layouts|;
    var r := Chosen(layouts, same, n);
    ChosenShape(layouts, same, n);
    if |r| < ImageLimit {
      ChosenSkipsOnlyMatches(layouts, same, n, i);
    } else {
      var x := r[|r| - 1];
      var before := Chosen(layouts, same, x);
      ChosenPrefix(layouts, same, x, n);
      ChosenShape(layouts, same, x);
      assert |before| < |r| by {
        assert x in r && x !in before;
        assert r[..|r|] == r;
      }
      assert i !in before by {
        forall j | 0 <= j < |before| ensures before[j] != i {
          assert before[j] == r[j];
        }
      }
      ChosenSkipsOnlyMatches(layouts, same, x, i);
      var k :| 0 <= k < |before| && before[k] < i && same(layouts[i], layouts[before[k]]);
      assert r[k] == before[k];
    }
  }

  /** What the selection loop promises for the whole ranking: the first schedule is always
      chosen; at most ImageLimit are chosen, in ranking order; none matches one chosen before it;
      and a schedule is passed over only because it matches an earlier chosen one, unless the
      limit was reached before the walk came to it. */
  lemma ChosenMeaning<T>(layouts: seq<T>, same: (T, T) -> bool)
    ensures var r := Chosen(layouts, same, |layouts|);
      && |r| <= ImageLimit
      && (|layouts| > 0 ==> |r| > 0 && r[0] == 0)
      && (forall a, b :: 0 <= a < b < |r| ==> r[a] < r[b] < |layouts| && !same(layouts[r[b]], layouts[r[a]]))
      && (forall i :: 0 <= i < |layouts| && i !in r && (|r| < ImageLimit || i < r[|r| - 1]) ==>
            exists k :: 0 <= k < |r| && r[k] < i && same(layouts[i], layouts[r[k]]))
  {
    var n := |layouts|;
    ChosenShape(layouts, same, n);
    ChosenDistinct(layouts, same, n);
    if n > 0 {
      assert Chosen(layouts, same, 1) == [0];
      ChosenPrefix(layouts, same, 1, n);
    }
    var r := Chosen(layouts, same, n);
    forall i | 0 <= i < n && i !in r && (|r| < ImageLimit || i < r[|r| - 1])
      ensures exists k :: 0 <= k < |r| && r[k] < i && same(layouts[i], layouts[r[k]])
    {
      ChosenSkipsBeforeLast(layouts, same, i);
    }
  }

  /** The walk from the bottom of a ranking (`schedules[-x - 1]`, the x-th from the end), stated
      on the ranking itself: the worst is always chosen, at most ImageLimit are chosen, and none
      matches one chosen before it. */
  lemma ChosenFromBottom<T>(ranked: seq<T>, rev: seq<T>, same: (T, T) -> bool)
    requires |rev| == |ranked| && forall k :: 0 <= k < |rev| ==> rev[k] == ranked[|ranked| - 1 - k]
    ensures var n, r := |ranked|, Chosen(rev, same, |ranked|);
      && |r| <= ImageLimit
      && (n > 0 ==> |r| > 0 && r[0] == 0)
      && (forall a, b :: 0 <= a < b < |r| ==>
            r[a] < r[b] < n && !same(ranked[n - 1 - r[b]], ranked[n - 1 - r[a]]))
  {
    var n := |ranked|;
    var r := Chosen(rev, same, n);
    assert |r| <= ImageLimit by {
      ChosenShape(rev, same, n);
    }
    assert n > 0 ==> |r| > 0 && r[0] == 0 by {
      if n > 0 {
        assert Chosen(rev, same, 1) == [0];
        ChosenPrefix(rev, same, 1, n);
      }
    }
    forall a, b | 0 <= a < b < |r|
      ensures r[a] < r[b] < n && !same(ranked[n - 1 - r[b]], ranked[n - 1 - r[a]])
    {
      ChosenDistinct(rev, same, n);
      assert rev[r[a]] == ranked[n - 1 - r[a]] && rev[r[b]] == ranked[n - 1 - r[b]];
    }
  }

  /** Walking from the bottom, a schedule is passed over only because it matches one chosen
      before it from the bottom, unless the limit was reached before the walk came to it. */
  lemma ChosenFromBottomSkips<T>(ranked: seq<T>, rev: seq<T>, same: (T, T) -> bool)
    requires |rev| == |ranked| && forall k :: 0 <= k < |rev| ==> rev[k] == ranked[|ranked| - 1 - k]
    ensures var n, r := |ranked|, Chosen(rev, same, |ranked|);
      forall i :: 0 <= i < n && i !in r && (|r| < ImageLimit || i < r[|r| - 1]) ==>
        exists k :: 0 <= k < |r| && r[k] < i && same(ranked[n - 1 - i], ranked[n - 1 - r[k]])
  {
    var n := |ranked|;
    var r := Chosen(rev, same, n);
    forall i | 0 <= i < n && i !in r && (|r| < ImageLimit || i < r[|r| - 1])
      ensures exists k :: 0 <= k < |r| && r[k] < i && same(ranked[n - 1 - i], ranked[n - 1 - r[k]])
    {
      ChosenSkipsBeforeLast(rev, same, i);
      var k :| 0 <= k < |r| && r[k] < i && same(rev[i], rev[r[k]]);
      assert rev[i] == ranked[n - 1 - i] && rev[r[k]] == ranked[n - 1 - r[k]];
    }
  }
}
