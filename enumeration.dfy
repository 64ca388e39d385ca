/** What `generate_schedules` enumerates before any filtering: every subset of the flexible courses
    (by size, then in `itertools.combinations` order) together with all required courses, and for
    each subset whose credits lie in the window, every choice of one section per corequisite group
    (in `itertools.product` order). */
module Enumeration {
  import opened Lists
  import opened Sections
  import opened Courses
  import opened Catalog

  /** [x] + ys for every ys, in order. */
  function Prefix<T>(x: T, yss: seq<seq<T>>): (r: seq<seq<T>>)
    ensures |r| == |yss|
    ensures forall i :: 0 <= i < |r| ==> r[i] == [x] + yss[i]
  {
    if yss == [] then [] else [[x] + yss[0]] + Prefix(x, yss[1..])
  }

  // ---------------------------------------------------------------------------------------------
  // itertools.combinations, on the indices lo .. m-1

  /** Strictly increasing: the index lists `itertools.combinations` yields. */
  predicate Increasing(c: seq<nat>)
  {
    forall i, j :: 0 <= i < j < |c| ==> c[i] < c[j]
  }

  predicate InRange(c: seq<nat>, lo: nat, m: nat)
  {
    forall i :: 0 <= i < |c| ==> lo <= c[i] < m
  }

  /** The k-element combinations of lo .. m-1 in lexicographic order (those starting with lo
      first), which is the order `itertools.combinations` yields them in. */
  function Combinations(lo: nat, m: nat, k: nat): seq<seq<nat>>
    decreases m - lo
  {
    if k == 0 then [[]]
    else if lo >= m then []
    else Prefix(lo, Combinations(lo + 1, m, k - 1)) + Combinations(lo + 1, m, k)
  }

  /** c is a k-element combination of lo .. m-1. */
  predicate IsCombination(c: seq<nat>, lo: nat, m: nat, k: nat)
  {
    |c| == k && Increasing(c) && InRange(c, lo, m)
  }

  /** Putting lo in front of a combination of lo+1 .. m-1 gives a combination of lo .. m-1. */
  lemma ConsCombination(lo: nat, t: seq<nat>, m: nat, k: nat)
    requires k > 0 && lo < m && IsCombination(t, lo + 1, m, k - 1)
    ensures IsCombination([lo] + t, lo, m, k)
  {
    var c := [lo] + t;
    forall i | 0 <= i < |c| ensures lo <= c[i] < m {
      if i > 0 {
        assert c[i] == t[i - 1];
      }
    }
    forall i, j | 0 <= i < j < |c| ensures c[i] < c[j] {
      if i == 0 {
        assert c[j] == t[j - 1];
      } else {
        assert c[i] == t[i - 1] && c[j] == t[j - 1];
      }
    }
  }

  /** Every combination has k strictly increasing indices from lo .. m-1. */
  lemma {:induction false} CombinationsSound(lo: nat, m: nat, k: nat)
    ensures forall c :: c in Combinations(lo, m, k) ==> IsCombination(c, lo, m, k)
    decreases m - lo
  {
    if k > 0 && lo < m {
      var tails, rest := Combinations(lo + 1, m, k - 1), Combinations(lo + 1, m, k);
      var with := Prefix(lo, tails);
      CombinationsSound(lo + 1, m, k - 1);
      CombinationsSound(lo + 1, m, k);
      assert Combinations(lo, m, k) == with + rest;
      forall c | c in with + rest ensures IsCombination(c, lo, m, k) {
        if c in with {
          var i :| 0 <= i < |with| && with[i] == c;
          ConsCombination(lo, tails[i], m, k);
        } else {
          assert IsCombination(c, lo + 1, m, k);
        }
      }
    }
  }

  /** Every list of k strictly increasing indices from lo .. m-1 is one of the combinations. */
  lemma {:induction false} CombinationsComplete(lo: nat, m: nat, k: nat, c: seq<nat>)
    requires |c| == k && Increasing(c) && InRange(c, lo, m)
    ensures c in Combinations(lo, m, k)
    decreases m - lo
  {
    if k > 0 {
      assert lo <= c[0] < m;
      if c[0] == lo {
        var rest := c[1..];
        assert InRange(rest, lo + 1, m) by {
          forall i | 0 <= i < |rest| ensures lo + 1 <= rest[i] < m {
            assert c[0] < c[i + 1];
          }
        }
        CombinationsComplete(lo + 1, m, k - 1, rest);
        var tails := Combinations(lo + 1, m, k - 1);
        var i :| 0 <= i < |tails| && tails[i] == rest;
        assert Prefix(lo, tails)[i] == c;
      } else {
        assert InRange(c, lo + 1, m) by {
          forall i | 0 <= i < |c| ensures lo + 1 <= c[i] < m {
            if i > 0 {
              assert c[0] < c[i];
            }
          }
        }
        CombinationsComplete(lo + 1, m, k, c);
      }
    }
  }

  /** Putting the same element in front keeps distinct lists distinct. */
  lemma PrefixDistinct<T>(x: T, yss: seq<seq<T>>)
    requires NoDuplicates(yss)
    ensures NoDuplicates(Prefix(x, yss))
  {
    var r := Prefix(x, yss);
    forall i, j | 0 <= i < j < |r| ensures r[i] != r[j] {
      assert r[i][1..] == yss[i] && r[j][1..] == yss[j];
    }
  }

  /** Two duplicate-free lists with nothing in common concatenate to a duplicate-free list. */
  lemma ConcatDistinct<T>(a: seq<T>, b: seq<T>)
    requires NoDuplicates(a) && NoDuplicates(b)
    requires forall i, j :: 0 <= i < |a| && 0 <= j < |b| ==> a[i] != b[j]
    ensures NoDuplicates(a + b)
  {
    var all := a + b;
    forall i, j | 0 <= i < j < |all| ensures all[i] != all[j] {
      if j < |a| {
        assert all[i] == a[i] && all[j] == a[j];
      } else if i >= |a| {
        assert all[i] == b[i - |a|] && all[j] == b[j - |a|];
      } else {
        assert all[i] == a[i] && all[j] == b[j - |a|];
      }
    }
  }

  /** No combination is produced twice. */
  lemma {:induction false} CombinationsDistinct(lo: nat, m: nat, k: nat)
    ensures NoDuplicates(Combinations(lo, m, k))
    decreases m - lo
  {
    if k > 0 && lo < m {
      var tails, rest := Combinations(lo + 1, m, k - 1), Combinations(lo + 1, m, k);
      var with := Prefix(lo, tails);
      CombinationsDistinct(lo + 1, m, k - 1);
      CombinationsDistinct(lo + 1, m, k);
      CombinationsSound(lo + 1, m, k);
      PrefixDistinct(lo, tails);
      forall i, j | 0 <= i < |with| && 0 <= j < |rest| ensures with[i] != rest[j] {
        assert rest[j] in rest;
        assert IsCombination(rest[j], lo + 1, m, k);
        assert with[i][0] == lo;
      }
      ConcatDistinct(with, rest);
      assert Combinations(lo, m, k) == with + rest;
    }
  }

  /** Pascal's rule. */
  function Binomial(n: nat, k: nat): nat
  {
    if k == 0 then 1 else if n == 0 then 0 else Binomial(n - 1, k - 1) + Binomial(n - 1, k)
  }

  /** There are (m - lo choose k) combinations. */
  lemma {:induction false} CombinationsCount(lo: nat, m: nat, k: nat)
    ensures |Combinations(lo, m, k)| == Binomial(if lo <= m then m - lo else 0, k)
    decreases m - lo
  {
    if k > 0 && lo < m {
      CombinationsCount(lo + 1, m, k - 1);
      CombinationsCount(lo + 1, m, k);
    }
  }

  /** The subsets of sizes 0 .. sizes-1 of the indices 0 .. m-1, smaller sizes first
      (`for n in range(0, len(self.flexible) + 1)`). */
  function Subsets(m: nat, sizes: nat): seq<seq<nat>>
  {
    if sizes == 0 then [] else Subsets(m, sizes - 1) + Combinations(0, m, sizes - 1)
  }

  /** Every subset of the indices 0 .. m-1 with fewer than `sizes` elements, as an increasing
      list, is visited. */
  lemma {:induction false} SubsetsCover(m: nat, sizes: nat, c: seq<nat>)
    requires |c| < sizes && Increasing(c) && InRange(c, 0, m)
    ensures c in Subsets(m, sizes)
  {
    var before, now := Subsets(m, sizes - 1), Combinations(0, m, sizes - 1);
    assert Subsets(m, sizes) == before + now;
    if |c| == sizes - 1 {
      CombinationsComplete(0, m, sizes - 1, c);
      assert c in now;
    } else {
      SubsetsCover(m, sizes - 1, c);
      assert c in before;
    }
  }

  /** Only such subsets are visited. */
  lemma {:induction false} SubsetsSound(m: nat, sizes: nat, c: seq<nat>)
    requires c in Subsets(m, sizes)
    ensures |c| < sizes && Increasing(c) && InRange(c, 0, m)
  {
    var before, now := Subsets(m, sizes - 1), Combinations(0, m, sizes - 1);
    assert Subsets(m, sizes) == before + now;
    if c in before {
      SubsetsSound(m, sizes - 1, c);
    } else {
      CombinationsSound(0, m, sizes - 1);
      assert IsCombination(c, 0, m, sizes - 1);
    }
  }

  lemma {:induction false} CombinationsLength(lo: nat, m: nat, k: nat)
    ensures forall i :: 0 <= i < |Combinations(lo, m, k)| ==> |Combinations(lo, m, k)[i]| == k
    decreases m - lo
  {
    if k > 0 && lo < m {
      var tails, rest := Combinations(lo + 1, m, k - 1), Combinations(lo + 1, m, k);
      CombinationsLength(lo + 1, m, k - 1);
      CombinationsLength(lo + 1, m, k);
      var all := Prefix(lo, tails) + rest;
      assert Combinations(lo, m, k) == all;
      forall i | 0 <= i < |all| ensures |all[i]| == k {
        if i >= |tails| {
          assert all[i] == rest[i - |tails|];
        }
      }
    }
  }

  lemma {:induction false} SubsetsShort(m: nat, sizes: nat)
    ensures forall i :: 0 <= i < |Subsets(m, sizes)| ==> |Subsets(m, sizes)[i]| < sizes
  {
    if sizes > 0 {
      var before, now := Subsets(m, sizes - 1), Combinations(0, m, sizes - 1);
      SubsetsShort(m, sizes - 1);
      CombinationsLength(0, m, sizes - 1);
      var all := before + now;
      assert Subsets(m, sizes) == all;
      forall i | 0 <= i < |all| ensures |all[i]| < sizes {
        if i >= |before| {
          assert all[i] == now[i - |before|];
        }
      }
    }
  }

  /** No subset is visited twice. */
  lemma {:induction false} SubsetsDistinct(m: nat, sizes: nat)
    ensures NoDuplicates(Subsets(m, sizes))
  {
    if sizes > 0 {
      var before, now := Subsets(m, sizes - 1), Combinations(0, m, sizes - 1);
      SubsetsDistinct(m, sizes - 1);
      SubsetsShort(m, sizes - 1);
      CombinationsLength(0, m, sizes - 1);
      CombinationsDistinct(0, m, sizes - 1);
      forall i, j | 0 <= i < |before| && 0 <= j < |now| ensures before[i] != now[j] {
        assert |before[i]| < sizes - 1 && |now[j]| == sizes - 1;
      }
      ConcatDistinct(before, now);
      assert Subsets(m, sizes) == before + now;
    }
  }

  // ---------------------------------------------------------------------------------------------
  // itertools.product

  /** [h] + t for every h of heads and, within that, every t of tails. */
  function Extend<T>(heads: seq<T>, tails: seq<seq<T>>): seq<seq<T>>
  {
    if heads == [] then [] else Prefix(heads[0], tails) + Extend(heads[1..], tails)
  }

  /** One element from each list, the last list varying fastest (`itertools.product`). */
  function Product<T>(lists: seq<seq<T>>): seq<seq<T>>
  {
    if lists == [] then [[]] else Extend(lists[0], Product(lists[1..]))
  }

  function ProductOfLengths<T>(lists: seq<seq<T>>): nat
  {
    if lists == [] then 1 else |lists[0]| * ProductOfLengths(lists[1..])
  }

  lemma PrefixMembers<T>(x: T, tails: seq<seq<T>>)
    ensures forall t :: t in Prefix(x, tails) <==> t != [] && t[0] == x && t[1..] in tails
  {
    var front := Prefix(x, tails);
    forall t ensures t in front <==> t != [] && t[0] == x && t[1..] in tails {
      if t in front {
        var i :| 0 <= i < |front| && front[i] == t;
        assert t[1..] == tails[i];
      }
      if t != [] && t[0] == x && t[1..] in tails {
        var i :| 0 <= i < |tails| && tails[i] == t[1..];
        assert front[i] == t;
      }
    }
  }

  lemma {:induction false} ExtendLength<T>(heads: seq<T>, tails: seq<seq<T>>)
    ensures |Extend(heads, tails)| == |heads| * |tails|
  {
    if heads != [] {
      ExtendLength(heads[1..], tails);
      assert |heads| * |tails| == |tails| + |heads[1..]| * |tails| by {
        assert |heads| == 1 + |heads[1..]|;
      }
    }
  }

  lemma {:induction false} ExtendMeaning<T>(heads: seq<T>, tails: seq<seq<T>>)
    ensures forall t :: t in Extend(heads, tails) <==> t != [] && t[0] in heads && t[1..] in tails
  {
    if heads != [] {
      var rest := Extend(heads[1..], tails);
      ExtendMeaning(heads[1..], tails);
      PrefixMembers(heads[0], tails);
      assert Extend(heads, tails) == Prefix(heads[0], tails) + rest;
      forall t ensures t in Extend(heads, tails) <==> t != [] && t[0] in heads && t[1..] in tails {
        assert t != [] ==> (t[0] in heads <==> t[0] == heads[0] || t[0] in heads[1..]);
      }
    }
  }

  /** t takes its i-th element from the i-th list, for every list. */
  predicate Picks<T(==)>(t: seq<T>, lists: seq<seq<T>>)
  {
    |t| == |lists| && forall i :: 0 <= i < |t| ==> t[i] in lists[i]
  }

  lemma PicksCons<T>(t: seq<T>, lists: seq<seq<T>>)
    requires lists != []
    ensures Picks(t, lists) <==> t != [] && t[0] in lists[0] && Picks(t[1..], lists[1..])
  {
    if t != [] && |t| == |lists| {
      if Picks(t[1..], lists[1..]) && t[0] in lists[0] {
        forall i | 0 < i < |t| ensures t[i] in lists[i] {
          assert t[1..][i - 1] == t[i];
        }
      }
      if Picks(t, lists) {
        forall i | 0 <= i < |t| - 1 ensures t[1..][i] in lists[1..][i] {
          assert t[1..][i] == t[i + 1];
        }
      }
    }
  }

  /** The product has one tuple per way of choosing an element from each list: as many as the
      lengths multiplied, and exactly the tuples whose i-th element comes from the i-th list. */
  lemma {:induction false} ProductMeaning<T>(lists: seq<seq<T>>)
    ensures |Product(lists)| == ProductOfLengths(lists)
    ensures forall t :: t in Product(lists) <==> Picks(t, lists)
  {
    if lists != [] {
      var tails := Product(lists[1..]);
      ProductMeaning(lists[1..]);
      ExtendMeaning(lists[0], tails);
      ExtendLength(lists[0], tails);
      assert Product(lists) == Extend(lists[0], tails);
      forall t ensures t in Product(lists) <==> Picks(t, lists) {
        PicksCons(t, lists);
      }
    }
  }

  // ---------------------------------------------------------------------------------------------
  // The candidates of one subset and of the whole catalog.

  /** One schedule as the enumeration creates it: a section per corequisite group, and the credit
      sum it is tagged with. */
  datatype Candidate = Candidate(sections: seq<Section>, credits: int)

  /** The courses at the given indices, in index order (indices past the end are skipped; the
      enumeration produces none). */
  function Pick(courses: seq<Course>, indices: seq<nat>): (r: seq<Course>)
  {
    if indices == [] then []
    else
      var i := indices[|indices| - 1];
      Pick(courses, indices[..|indices| - 1]) + (if i < |courses| then [courses[i]] else [])
  }

  /** All corequisite groups of the courses, course by course (`itertools.chain.from_iterable`). */
  function AllCoreqs(courses: seq<Course>): seq<Coreq>
  {
    if courses == [] then [] else AllCoreqs(courses[..|courses| - 1]) + courses[|courses| - 1].coreqs
  }

  /** The section lists of the groups, in order. */
  function SectionLists(coreqs: seq<Coreq>): (r: seq<seq<Section>>)
    ensures |r| == |coreqs|
    ensures forall i :: 0 <= i < |r| ==> r[i] == coreqs[i].sections
  {
    if coreqs == [] then [] else SectionLists(coreqs[..|coreqs| - 1]) + [coreqs[|coreqs| - 1].sections]
  }

  /** The groups a subset of the flexible courses takes: those of the chosen flexible courses,
      then those of every required course. */
  function SubsetCoreqs(catalog: Catalog, subset: seq<nat>): seq<Coreq>
  {
    AllCoreqs(Pick(catalog.flexible, subset) + catalog.required)
  }

  /** The schedules one subset contributes: none when its credit sum lies outside the closed
      window [minCredits, maxCredits]; otherwise one per choice of a section from each group. */
  function SubsetCandidates(catalog: Catalog, subset: seq<nat>, minCredits: int, maxCredits: int): seq<Candidate>
  {
    var coreqs := SubsetCoreqs(catalog, subset);
    var credits := CreditSum(coreqs);
    if minCredits <= credits <= maxCredits then Tag(Product(SectionLists(coreqs)), credits) else []
  }

  /** One candidate per section tuple, each tagged with the credits. */
  function Tag(tuples: seq<seq<Section>>, credits: int): (r: seq<Candidate>)
    ensures |r| == |tuples|
    ensures forall i :: 0 <= i < |r| ==> r[i] == Candidate(tuples[i], credits)
  {
    if tuples == [] then [] else Tag(tuples[..|tuples| - 1], credits) + [Candidate(tuples[|tuples| - 1], credits)]
  }

  /** The candidates of the given subsets, in order. */
  function CandidatesOf(catalog: Catalog, subsets: seq<seq<nat>>, minCredits: int, maxCredits: int): seq<Candidate>
  {
    FlatMap(s => SubsetCandidates(catalog, s, minCredits, maxCredits), subsets)
  }

  /** One more subset appends its candidates. */
  lemma CandidatesOfSnoc(catalog: Catalog, subsets: seq<seq<nat>>, subset: seq<nat>, minCredits: int, maxCredits: int)
    ensures CandidatesOf(catalog, subsets + [subset], minCredits, maxCredits) ==
      CandidatesOf(catalog, subsets, minCredits, maxCredits) + SubsetCandidates(catalog, subset, minCredits, maxCredits)
  {
    assert (subsets + [subset])[..|subsets|] == subsets;
  }

  /** Everything the enumeration creates, in creation order. */
  function Candidates(catalog: Catalog, minCredits: int, maxCredits: int): seq<Candidate>
  {
    var m := |catalog.flexible|;
    CandidatesOf(catalog, Subsets(m, m + 1), minCredits, maxCredits)
  }

  /** A subset is kept exactly when its credits lie in the closed window, and then it contributes
      one schedule per way of choosing a section from each of its groups: as many as the groups'
      section counts multiplied, each holding, in group order, a section of that group, and each
      tagged with the subset's credit sum. */
  lemma SubsetCandidatesMeaning(catalog: Catalog, subset: seq<nat>, minCredits: int, maxCredits: int)
    ensures var coreqs := SubsetCoreqs(catalog, subset);
      var credits := CreditSum(coreqs);
      var cands := SubsetCandidates(catalog, subset, minCredits, maxCredits);
      (cands != [] ==> minCredits <= credits <= maxCredits) &&
      (minCredits <= credits <= maxCredits ==> |cands| == ProductOfLengths(SectionLists(coreqs))) &&
      forall c :: c in cands <==>
        minCredits <= credits <= maxCredits && c.credits == credits &&
        Picks(c.sections, SectionLists(coreqs))
  {
    var coreqs := SubsetCoreqs(catalog, subset);
    var credits := CreditSum(coreqs);
    if minCredits <= credits <= maxCredits {
      var tuples := Product(SectionLists(coreqs));
      ProductMeaning(SectionLists(coreqs));
      var cands := Tag(tuples, credits);
      forall c ensures c in cands <==> c.credits == credits && c.sections in tuples {
        if c in cands {
          var i :| 0 <= i < |cands| && cands[i] == c;
        }
        if c.credits == credits && c.sections in tuples {
          var i :| 0 <= i < |tuples| && tuples[i] == c.sections;
          assert cands[i] == c;
        }
      }
    }
  }

  /** The enumeration considers every subset of the flexible courses exactly once: a schedule is
      created exactly when it is a candidate of some subset of the flexible indices. */
  lemma CandidatesMeaning(catalog: Catalog, minCredits: int, maxCredits: int, c: Candidate)
    ensures c in Candidates(catalog, minCredits, maxCredits) <==>
      exists subset :: Increasing(subset) && InRange(subset, 0, |catalog.flexible|) &&
        c in SubsetCandidates(catalog, subset, minCredits, maxCredits)
  {
    var m := |catalog.flexible|;
    InFlatMap(s => SubsetCandidates(catalog, s, minCredits, maxCredits), Subsets(m, m + 1), c);
    if c in Candidates(catalog, minCredits, maxCredits) {
      var subset :| subset in Subsets(m, m + 1) &&
         c in SubsetCandidates(catalog, subset, minCredits, maxCredits);
      SubsetsSound(m, m + 1, subset);
    }
    if exists subset :: Increasing(subset) && InRange(subset, 0, m) &&
         c in SubsetCandidates(catalog, subset, minCredits, maxCredits) {
      var subset :| Increasing(subset) && InRange(subset, 0, m) &&
         c in SubsetCandidates(catalog, subset, minCredits, maxCredits);
      IncreasingLength(subset, m);
      SubsetsCover(m, m + 1, subset);
    }
  }

  /** A strictly increasing list of indices below m has fewer than m + 1 elements. */
  lemma {:induction false} IncreasingLength(c: seq<nat>, m: nat)
    requires Increasing(c) && InRange(c, 0, m)
    ensures |c| <= m
  {
    if c != [] {
      var init := c[..|c| - 1];
      if init != [] {
        assert init[|init| - 1] < c[|c| - 1];
      }
      IncreasingLength(init, if m == 0 then 0 else m - 1);
    }
  }
}
