/** One weekly meeting of a section: a weekday, a start and an end time, and the owning course code. */
module Blocks {
  import opened Clock

  /** The source builds `start` and `end` as datetimes whose day of the month is the weekday, so
      comparing two of them compares the weekday first and the time of day second. */
  datatype Block = Block(date: Weekday, start: Minute, end: Minute, code: string)

  /** What the section parser guarantees of every block it produces. */
  predicate ValidBlock(b: Block) { b.start < b.end }

  /** The block's length in minutes, as `timedelta.seconds / 60` computes it (so modulo one day). */
  function Duration(b: Block): (r: nat)
    ensures r < 1440
    ensures ValidBlock(b) ==> r == b.end - b.start > 0
  {
    (b.end - b.start) % 1440
  }

  /** The point in the week at which a block starts: the order its start datetime sorts in. */
  function Moment(b: Block): int { b.date * 1440 + b.start }

  /** "a collides with b" (the source's `Block.__eq__`): same weekday, and a's end or a's start lies
      in the closed interval [b.start, b.end]. Not symmetric. */
  predicate Collides(a: Block, b: Block)
  {
    if a.date != b.date then false
    else if a.end >= b.start && a.end <= b.end then true
    else if a.start >= b.start && a.start <= b.end then true
    else false
  }

  /** For a block that does not end before it starts, collision is overlap of the two closed
      intervals on the same weekday, except when a strictly encloses b: then neither of a's
      endpoints lies in b, and a does not collide with b. */
  lemma CollidesMeaning(a: Block, b: Block)
    requires a.start <= a.end
    ensures Collides(a, b) <==>
      a.date == b.date && a.start <= b.end && b.start <= a.end && !(a.start < b.start && b.end < a.end)
  {
  }

  /** A block ending exactly when another starts collides with it: the bounds are inclusive. */
  lemma TouchingBlocksCollide(a: Block, b: Block)
    requires a.date == b.date && a.end == b.start && ValidBlock(b)
    ensures Collides(a, b)
  {
  }

  /** The collision test is not symmetric: a block strictly inside another collides with it, but
      not the other way round. */
  lemma CollidesNotSymmetric()
    ensures var outer, inner := Block(1, 600, 700, "A"), Block(1, 620, 640, "B");
      ValidBlock(outer) && ValidBlock(inner) && Collides(inner, outer) && !Collides(outer, inner)
  {
  }

  /** Trying both orders, as the conflict check does, turns the collision test into the ordinary
      intersection of two closed intervals on the same weekday. */
  lemma CollidesEitherWay(a: Block, b: Block)
    requires a.start <= a.end && b.start <= b.end
    ensures (Collides(a, b) || Collides(b, a)) <==>
            (a.date == b.date && a.start <= b.end && b.start <= a.end)
  {
  }

  // ---------------------------------------------------------------------------------------------
  // Sorting blocks by start, as `list.sort()` does with the blocks' `__gt__` (stable).

  predicate SortedByStart(s: seq<Block>)
  {
    forall i :: 0 < i < |s| ==> Moment(s[i - 1]) <= Moment(s[i])
  }

  /** Inserts x after every element that does not start later than x (keeps equal starts in order). */
  function InsertByStart(x: Block, s: seq<Block>): (r: seq<Block>)
    ensures |r| == |s| + 1
    ensures r[0] == x || (s != [] && r[0] == s[0])
  {
    if s == [] then [x]
    else if Moment(x) < Moment(s[0]) then [x] + s
    else
      assert s == [s[0]] + s[1..];
      [s[0]] + InsertByStart(x, s[1..])
  }

  /** Inserting adds x to the elements and removes none. */
  lemma {:induction false} InsertByStartPermutes(x: Block, s: seq<Block>)
    ensures multiset(InsertByStart(x, s)) == multiset(s) + multiset{x}
  {
    if s != [] && Moment(x) >= Moment(s[0]) {
      InsertByStartPermutes(x, s[1..]);
      assert s == [s[0]] + s[1..];
    }
  }

  /** Inserting into a sorted sequence keeps it sorted. */
  lemma {:induction false} InsertByStartSorted(x: Block, s: seq<Block>)
    requires SortedByStart(s)
    ensures SortedByStart(InsertByStart(x, s))
  {
    if s != [] && Moment(x) >= Moment(s[0]) {
      var rest := InsertByStart(x, s[1..]);
      InsertByStartSorted(x, s[1..]);
      assert Moment(s[0]) <= Moment(rest[0]);
      assert InsertByStart(x, s) == [s[0]] + rest;
    }
  }

  /** A stable sort of the blocks by start datetime (insertion sort, elements taken in input order). */
  function SortByStart(s: seq<Block>): (r: seq<Block>)
    ensures SortedByStart(r)
    ensures multiset(r) == multiset(s)
    ensures |r| == |s|
  {
    if s == [] then []
    else
      assert s == s[..|s| - 1] + [s[|s| - 1]];
      InsertByStartSorted(s[|s| - 1], SortByStart(s[..|s| - 1]));
      InsertByStartPermutes(s[|s| - 1], SortByStart(s[..|s| - 1]));
      InsertByStart(s[|s| - 1], SortByStart(s[..|s| - 1]))
  }

  /** [b] if b starts at moment m, otherwise nothing. */
  function Starting(b: Block, m: int): seq<Block>
  {
    if Moment(b) == m then [b] else []
  }

  /** The blocks of s that start at moment m, in their order in s. */
  function AtMoment(s: seq<Block>, m: int): seq<Block>
  {
    if s == [] then [] else Starting(s[0], m) + AtMoment(s[1..], m)
  }

  lemma AtMomentCons(b: Block, s: seq<Block>, m: int)
    ensures AtMoment([b] + s, m) == Starting(b, m) + AtMoment(s, m)
  {
    assert ([b] + s)[0] == b && ([b] + s)[1..] == s;
  }

  lemma {:induction false} AtMomentAppend(a: seq<Block>, b: seq<Block>, m: int)
    ensures AtMoment(a + b, m) == AtMoment(a, m) + AtMoment(b, m)
  {
    if a == [] {
      assert a + b == b;
    } else {
      var h := Starting(a[0], m);
      calc {
        AtMoment(a + b, m);
      == { assert a + b == [a[0]] + (a[1..] + b); AtMomentCons(a[0], a[1..] + b, m); }
        h + AtMoment(a[1..] + b, m);
      == { AtMomentAppend(a[1..], b, m); }
        h + (AtMoment(a[1..], m) + AtMoment(b, m));
      == { Associative(h, AtMoment(a[1..], m), AtMoment(b, m)); }
        (h + AtMoment(a[1..], m)) + AtMoment(b, m);
      == { assert a == [a[0]] + a[1..]; AtMomentCons(a[0], a[1..], m); }
        AtMoment(a, m) + AtMoment(b, m);
      }
    }
  }

  lemma Associative(p: seq<Block>, q: seq<Block>, r: seq<Block>)
    ensures p + (q + r) == (p + q) + r
  {
  }

  /** Nothing in a sorted sequence starts before its first element, so nothing in it starts at
      a moment earlier than that. */
  lemma {:induction false} AtMomentBeforeFirst(s: seq<Block>, m: int)
    requires SortedByStart(s) && s != [] && m < Moment(s[0])
    ensures AtMoment(s, m) == []
  {
    if |s| > 1 {
      AtMomentBeforeFirst(s[1..], m);
    }
  }

  /** Inserting x into a sorted sequence puts it after every element that starts at the same
      moment. */
  lemma {:induction false} InsertByStartStable(x: Block, s: seq<Block>, m: int)
    requires SortedByStart(s)
    ensures AtMoment(InsertByStart(x, s), m) == AtMoment(s, m) + Starting(x, m)
  {
    if s == [] {
      AtMomentCons(x, [], m);
      assert [x] + [] == [x];
    } else if Moment(x) < Moment(s[0]) {
      AtMomentCons(x, s, m);
      if Moment(x) == m {
        AtMomentBeforeFirst(s, m);
      }
    } else {
      var tail := s[1..];
      assert SortedByStart(tail) by {
        forall i | 0 < i < |tail| ensures Moment(tail[i - 1]) <= Moment(tail[i]) {
          assert tail[i - 1] == s[i] && tail[i] == s[i + 1];
        }
      }
      var h := Starting(s[0], m);
      calc {
        AtMoment(InsertByStart(x, s), m);
      == { AtMomentCons(s[0], InsertByStart(x, tail), m); }
        h + AtMoment(InsertByStart(x, tail), m);
      == { InsertByStartStable(x, tail, m); }
        h + (AtMoment(tail, m) + Starting(x, m));
      == { Associative(h, AtMoment(tail, m), Starting(x, m)); }
        (h + AtMoment(tail, m)) + Starting(x, m);
      == { assert s == [s[0]] + tail; AtMomentCons(s[0], tail, m); }
        AtMoment(s, m) + Starting(x, m);
      }
    }
  }

  /** The sort is stable: the blocks that start at any one moment keep their input order. */
  lemma {:induction false} SortByStartStable(s: seq<Block>, m: int)
    ensures AtMoment(SortByStart(s), m) == AtMoment(s, m)
  {
    if s != [] {
      var init, last := s[..|s| - 1], s[|s| - 1];
      var sorted := SortByStart(init);
      calc {
        AtMoment(SortByStart(s), m);
      == { assert SortByStart(s) == InsertByStart(last, sorted); }
        AtMoment(InsertByStart(last, sorted), m);
      == { InsertByStartStable(last, sorted, m); }
        AtMoment(sorted, m) + Starting(last, m);
      == { SortByStartStable(init, m); }
        AtMoment(init, m) + Starting(last, m);
      == { AtMomentCons(last, [], m); assert [last] + [] == [last]; }
        AtMoment(init, m) + AtMoment([last], m);
      == { AtMomentAppend(init, [last], m); assert s == init + [last]; }
        AtMoment(s, m);
      }
    }
  }
}
