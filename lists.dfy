/** Sequence helpers shared by the model: `itertools.chain.from_iterable`, list comprehensions,
    sums and counts. */
module Lists {

  /** The elements of the inner sequences, in order (`itertools.chain.from_iterable`). */
  function Flatten<T>(xss: seq<seq<T>>): (r: seq<T>)
  {
    if xss == [] then [] else Flatten(xss[..|xss| - 1]) + xss[|xss| - 1]
  }

  /** Flattening distributes over appending one more inner sequence. */
  lemma FlattenAppend<T>(xss: seq<seq<T>>, xs: seq<T>)
    ensures Flatten(xss + [xs]) == Flatten(xss) + xs
  {
    assert (xss + [xs])[..|xss|] == xss;
  }

  /** Flattening distributes over concatenation. */
  lemma {:induction false} FlattenConcat<T>(a: seq<seq<T>>, b: seq<seq<T>>)
    ensures Flatten(a + b) == Flatten(a) + Flatten(b)
  {
    if b == [] {
      assert a + b == a;
    } else {
      var init, last := b[..|b| - 1], b[|b| - 1];
      calc {
        Flatten(a + b);
        { assert a + b == (a + init) + [last]; }
        Flatten((a + init) + [last]);
        { FlattenAppend(a + init, last); }
        Flatten(a + init) + last;
        { FlattenConcat(a, init); }
        Flatten(a) + Flatten(init) + last;
        { FlattenAppend(init, last); assert init + [last] == b; }
        Flatten(a) + Flatten(b);
      }
    }
  }

  /** x occurs in the flattening exactly when it occurs in one of the inner sequences. */
  lemma {:induction false} InFlatten<T>(xss: seq<seq<T>>, x: T)
    ensures x in Flatten(xss) <==> exists i :: 0 <= i < |xss| && x in xss[i]
  {
    if xss != [] {
      var init := xss[..|xss| - 1];
      InFlatten(init, x);
      if x in Flatten(xss) && x !in xss[|xss| - 1] {
        var i :| 0 <= i < |init| && x in init[i];
        assert x in xss[i];
      }
      if exists i :: 0 <= i < |xss| && x in xss[i] {
        var i :| 0 <= i < |xss| && x in xss[i];
        if i < |init| {
          assert x in init[i];
        }
      }
    }
  }

  function Sum(xs: seq<int>): int
  {
    if xs == [] then 0 else Sum(xs[..|xs| - 1]) + xs[|xs| - 1]
  }

  /** Counts the positions of xs that hold true (`list.count(True)`). */
  function CountTrue(xs: seq<bool>): (r: nat)
    ensures r <= |xs|
  {
    if xs == [] then 0 else CountTrue(xs[..|xs| - 1]) + (if xs[|xs| - 1] then 1 else 0)
  }

  /** f's results for the elements of xs, one after the other. */
  function FlatMap<A, B>(f: A -> seq<B>, xs: seq<A>): seq<B>
  {
    if xs == [] then [] else FlatMap(f, xs[..|xs| - 1]) + f(xs[|xs| - 1])
  }

  /** y is among the results exactly when some element of xs has it among its results. */
  lemma {:induction false} InFlatMap<A, B>(f: A -> seq<B>, xs: seq<A>, y: B)
    ensures y in FlatMap(f, xs) <==> exists x :: x in xs && y in f(x)
  {
    if xs != [] {
      var init, last := xs[..|xs| - 1], xs[|xs| - 1];
      InFlatMap(f, init, y);
      assert xs == init + [last];
      if exists x :: x in xs && y in f(x) {
        var x :| x in xs && y in f(x);
        if x != last {
          assert x in init;
        }
      }
    }
  }

  /** Mapping over a concatenation concatenates the results. */
  lemma {:induction false} FlatMapConcat<A, B>(f: A -> seq<B>, xs: seq<A>, ys: seq<A>)
    ensures FlatMap(f, xs + ys) == FlatMap(f, xs) + FlatMap(f, ys)
  {
    if ys == [] {
      assert xs + ys == xs;
    } else {
      var init, last := ys[..|ys| - 1], ys[|ys| - 1];
      FlatMapConcat(f, xs, init);
      assert FlatMap(f, xs + ys) == FlatMap(f, xs + init) + f(last) by {
        var zs := xs + ys;
        assert zs[..|zs| - 1] == xs + init && zs[|zs| - 1] == last;
      }
      assert FlatMap(f, ys) == FlatMap(f, init) + f(last);
    }
  }

  /** No element occurs twice. */
  predicate NoDuplicates<T(==)>(xs: seq<T>)
  {
    forall i, j :: 0 <= i < j < |xs| ==> xs[i] != xs[j]
  }

  /** f applied to every element, in order (`[f(x) for x in xs]`). */
  function Map<A, B>(f: A -> B, xs: seq<A>): (r: seq<B>)
    ensures |r| == |xs| && forall i :: 0 <= i < |xs| ==> r[i] == f(xs[i])
  {
    seq(|xs|, i requires 0 <= i < |xs| => f(xs[i]))
  }

  /** The elements of xs that satisfy p, in order (`[x for x in xs if p(x)]`). */
  function Filter<T>(p: T -> bool, xs: seq<T>): (r: seq<T>)
    ensures |r| <= |xs|
  {
    if xs == [] then []
    else Filter(p, xs[..|xs| - 1]) + (if p(xs[|xs| - 1]) then [xs[|xs| - 1]] else [])
  }

  /** Filtering one more element appends it exactly when it satisfies p. */
  lemma FilterSnoc<T>(p: T -> bool, xs: seq<T>, x: T)
    ensures Filter(p, xs + [x]) == Filter(p, xs) + (if p(x) then [x] else [])
  {
    assert (xs + [x])[..|xs|] == xs;
  }

  /** Filtering one more element of xs: the step of a loop that keeps the elements satisfying p. */
  lemma FilterStep<T>(p: T -> bool, xs: seq<T>, i: nat)
    requires i < |xs|
    ensures Filter(p, xs[..i + 1]) == Filter(p, xs[..i]) + (if p(xs[i]) then [xs[i]] else [])
  {
    assert xs[..i + 1] == xs[..i] + [xs[i]];
    FilterSnoc(p, xs[..i], xs[i]);
  }

  /** One more element of xs taken after a fixed prefix. */
  lemma SliceSnoc<T>(a: seq<T>, xs: seq<T>, c: nat)
    requires c < |xs|
    ensures a + xs[..c + 1] == (a + xs[..c]) + [xs[c]]
  {
    assert xs[..c + 1] == xs[..c] + [xs[c]];
  }

  /** Filtering all of xs. */
  lemma FilterAll<T>(p: T -> bool, xs: seq<T>)
    ensures Filter(p, xs[..|xs|]) == Filter(p, xs)
  {
    assert xs[..|xs|] == xs;
  }

  /** An element survives the filter exactly when it is one of xs and satisfies p. */
  lemma {:induction false} InFilter<T>(p: T -> bool, xs: seq<T>, x: T)
    ensures x in Filter(p, xs) <==> x in xs && p(x)
  {
    if xs != [] {
      var init, last := xs[..|xs| - 1], xs[|xs| - 1];
      InFilter(p, init, x);
      assert xs == init + [last];
    }
  }

  /** Filtering by a property of f's result and then applying f is applying f and then filtering. */
  lemma {:induction false} FilterMap<A, B>(f: A -> B, p: B -> bool, q: A -> bool, xs: seq<A>)
    requires forall x :: q(x) == p(f(x))
    ensures Map(f, Filter(q, xs)) == Filter(p, Map(f, xs))
  {
    if xs != [] {
      var init, last := xs[..|xs| - 1], xs[|xs| - 1];
      FilterMap(f, p, q, init);
      assert Map(f, xs)[..|xs| - 1] == Map(f, init);
      var kept := Filter(q, init);
      if q(last) {
        assert Map(f, kept + [last]) == Map(f, kept) + [f(last)];
      }
    }
  }

  /** A filter of a sequence without duplicates has none either. */
  lemma {:induction false} FilterDistinct<T>(p: T -> bool, xs: seq<T>)
    requires NoDuplicates(xs)
    ensures NoDuplicates(Filter(p, xs))
  {
    if xs != [] {
      var init, last := xs[..|xs| - 1], xs[|xs| - 1];
      FilterDistinct(p, init);
      InFilter(p, init, last);
      assert last !in init;
    }
  }

  /** The elements of xs, last first (`xs[-x - 1]` for x = 0, 1, ...). */
  function Reverse<T>(xs: seq<T>): (r: seq<T>)
    ensures |r| == |xs| && forall k :: 0 <= k < |xs| ==> r[k] == xs[|xs| - 1 - k]
  {
    seq(|xs|, k requires 0 <= k < |xs| => xs[|xs| - 1 - k])
  }
}
