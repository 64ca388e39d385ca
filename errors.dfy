/** The ways a run of the generator stops with an exception, and the result type that carries them. */
module Errors {

  datatype Error =
    | FieldCount        // a meeting string does not split on ' ' into exactly four fields
    | UnknownDay        // a two-letter weekday token is not one of Mo..Su
    | BadTime           // a start or end field does not read as `%I:%M%p`
    | EndNotAfterStart  // a meeting's end time is not after its start time
    | BadCredits        // `float()` rejects a group's credit cell
    | NoOpenGroup       // a row has to be added to the last group, but there is none yet
    | NoRows            // the first row of an empty list of rows is read
    | ZeroTotalTime     // the ranking divides class time by a total time of zero

  datatype Result<T> = Ok(value: T) | Err(error: Error)

  /** Applies f to every element, left to right, and stops at the first error: the shape of a
      loop that appends one built object per input and lets the first exception escape. */
  function Collect<A, B>(f: A -> Result<B>, xs: seq<A>): Result<seq<B>>
  {
    if xs == [] then Ok([])
    else
      match Collect(f, xs[..|xs| - 1])
      case Err(e) => Err(e)
      case Ok(ys) =>
        match f(xs[|xs| - 1])
        case Err(e) => Err(e)
        case Ok(y) => Ok(ys + [y])
  }

  /** Collect succeeds exactly when f succeeds on every element, and then holds f's results in
      input order; when it fails, it fails with the error of the first element f rejects. */
  lemma {:induction false} CollectMeaning<A, B>(f: A -> Result<B>, xs: seq<A>)
    ensures Collect(f, xs).Ok? <==> forall i :: 0 <= i < |xs| ==> f(xs[i]).Ok?
    ensures Collect(f, xs).Ok? ==>
      |Collect(f, xs).value| == |xs| &&
      forall i :: 0 <= i < |xs| ==> Collect(f, xs).value[i] == f(xs[i]).value
    ensures Collect(f, xs).Err? ==>
      exists i :: 0 <= i < |xs| && f(xs[i]) == Err(Collect(f, xs).error) &&
        forall j :: 0 <= j < i ==> f(xs[j]).Ok?
  {
    if xs != [] {
      var init := xs[..|xs| - 1];
      CollectMeaning(f, init);
      assert forall i :: 0 <= i < |init| ==> init[i] == xs[i];
      if Collect(f, init).Err? {
        var i :| 0 <= i < |init| && f(init[i]) == Err(Collect(f, init).error) &&
          forall j :: 0 <= j < i ==> f(init[j]).Ok?;
        assert f(xs[i]) == Err(Collect(f, xs).error);
      }
    }
  }

  /** Once a prefix fails, the whole input fails with the same error. */
  lemma {:induction false} CollectPrefixError<A, B>(f: A -> Result<B>, xs: seq<A>, n: nat)
    requires n <= |xs|
    requires Collect(f, xs[..n]).Err?
    ensures Collect(f, xs) == Collect(f, xs[..n])
  {
    if n < |xs| {
      var init := xs[..|xs| - 1];
      assert init[..n] == xs[..n];
      CollectPrefixError(f, init, n);
    } else {
      assert xs[..n] == xs;
    }
  }

  /** One more element extends a successful prefix by f's result. */
  lemma CollectSnoc<A, B>(f: A -> Result<B>, xs: seq<A>, i: nat, ys: seq<B>, y: B)
    requires i < |xs| && Collect(f, xs[..i]) == Ok(ys) && f(xs[i]) == Ok(y)
    ensures Collect(f, xs[..i + 1]) == Ok(ys + [y])
  {
    assert xs[..i + 1][..i] == xs[..i];
  }

  /** The first element f rejects decides the outcome for the whole input. */
  lemma CollectStops<A, B>(f: A -> Result<B>, xs: seq<A>, i: nat, e: Error)
    requires i < |xs| && Collect(f, xs[..i]).Ok? && f(xs[i]) == Err(e)
    ensures Collect(f, xs) == Err(e)
  {
    assert xs[..i + 1][..i] == xs[..i];
    CollectPrefixError(f, xs, i + 1);
  }
}
