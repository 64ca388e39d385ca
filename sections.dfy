/** Catalog rows and sections: parsing a section's "Days and times" string into weekly blocks. */
module Sections {
  import opened Clock
  import opened Blocks
  import opened Errors

  /** One catalog row. `credits` is what `float()` makes of the "Credits" cell, in tenths of a
      credit, or None where `float()` raises. */
  datatype Row = Row(
    code: string,          // "Course code"
    name: string,          // "Course name"
    credits: Option<int>,  // "Credits"
    required: string,      // "Required?"
    coreq: string,         // "Corequisites?"
    section: string,       // "Section"
    daysAndTimes: string)  // "Days and times", e.g. "MoWeTh 12:10PM - 1:00PM"

  /** One offered meeting pattern of a corequisite group, with the blocks it meets in. */
  datatype Section = Section(
    id: string,             // the row's "Section" cell
    daysAndTimes: string,
    credits: int,
    code: string,
    name: string,
    blocks: seq<Block>)

  // ---------------------------------------------------------------------------------------------
  // str.split with an explicit separator: every separator ends a field, empty fields are kept.

  function Split(s: string, sep: char): (r: seq<string>)
    ensures |r| >= 1
  {
    if s == [] then [""]
    else
      var rest := Split(s[1..], sep);
      if s[0] == sep then [""] + rest
      else [[s[0]] + rest[0]] + rest[1..]
  }

  function Join(fields: seq<string>, sep: char): string
    requires |fields| >= 1
  {
    if |fields| == 1 then fields[0] else fields[0] + [sep] + Join(fields[1..], sep)
  }

  /** Joining the fields back with the separator gives the string that was split. */
  lemma {:induction false} JoinSplit(s: string, sep: char)
    ensures Join(Split(s, sep), sep) == s
  {
    if s != [] {
      var rest := Split(s[1..], sep);
      JoinSplit(s[1..], sep);
      if s[0] != sep {
        if |rest| == 1 {
          assert Join(rest, sep) == rest[0];
        } else {
          assert Join(rest, sep) == rest[0] + [sep] + Join(rest[1..], sep);
          assert [[s[0]] + rest[0]] + rest[1..] == [[s[0]] + rest[0]] + rest[1..];
          var r := [[s[0]] + rest[0]] + rest[1..];
          assert r[1..] == rest[1..];
        }
      } else {
        assert ([""] + rest)[1..] == rest;
      }
    }
  }

  /** Splitting a join of separator-free fields gives back exactly those fields. */
  lemma {:induction false} SplitJoin(fields: seq<string>, sep: char)
    requires |fields| >= 1
    requires forall i :: 0 <= i < |fields| ==> sep !in fields[i]
    ensures Split(Join(fields, sep), sep) == fields
  {
    if |fields| == 1 {
      assert fields[0] + [] == fields[0];
      SplitField(fields[0], [], sep);
    } else {
      SplitJoin(fields[1..], sep);
      SplitField(fields[0], [sep] + Join(fields[1..], sep), sep);
      assert fields[0] + [sep] + Join(fields[1..], sep) == fields[0] + ([sep] + Join(fields[1..], sep));
      var t := [sep] + Join(fields[1..], sep);
      assert t[1..] == Join(fields[1..], sep);
      assert [fields[0]] + fields[1..] == fields;
    }
  }

  /** Splitting a separator-free prefix f followed by t adds f to the front of t's first field. */
  lemma {:induction false} SplitField(f: string, t: string, sep: char)
    requires sep !in f
    requires t == [] || t[0] == sep
    ensures Split(f + t, sep) == (if t == [] then [f] else [f] + Split(t[1..], sep))
  {
    if f == [] {
      assert f + t == t;
      if t != [] {
        assert Split(t, sep) == [""] + Split(t[1..], sep);
      }
    } else {
      SplitField(f[1..], t, sep);
      assert (f + t)[1..] == f[1..] + t;
      assert [f[0]] + f[1..] == f;
    }
  }

  // ---------------------------------------------------------------------------------------------
  // The meeting string.

  /** The block of one weekday token, given what the shared start and end fields read as; the
      checks come in the source's order: the token, the start time, the end time, end after start. */
  function TokenBlock(token: string, start: Option<Minute>, end: Option<Minute>, code: string): (r: Result<Block>)
  {
    var date := DayNumber(token);
    if date.None? then Err(UnknownDay)
    else if start.None? then Err(BadTime)
    else if end.None? then Err(BadTime)
    else if end.value <= start.value then Err(EndNotAfterStart)
    else Ok(Block(date.value, start.value, end.value, code))
  }

  /** The n-th two-letter token of the days field. */
  function Token(days: string, n: nat): string
    requires 2 * n + 2 <= |days|
  {
    days[2 * n..2 * n + 2]
  }

  /** The blocks of the first n tokens, or the first error among them. */
  function TokenBlocks(days: string, start: Option<Minute>, end: Option<Minute>, code: string, n: nat): (r: Result<seq<Block>>)
    requires n <= |days| / 2
  {
    if n == 0 then Ok([])
    else
      match TokenBlocks(days, start, end, code, n - 1)
      case Err(e) => Err(e)
      case Ok(bs) =>
        match TokenBlock(Token(days, n - 1), start, end, code)
        case Err(e) => Err(e)
        case Ok(b) => Ok(bs + [b])
  }

  /** The blocks a meeting string gives: four ' '-separated fields (days, start, anything, end),
      then one block per two-letter token of the days field (an odd last character is ignored). */
  function MeetingBlocks(daysAndTimes: string, code: string): Result<seq<Block>>
  {
    var fields := Split(daysAndTimes, ' ');
    if |fields| != 4 then Err(FieldCount)
    else TokenBlocks(fields[0], ReadTime(fields[1]), ReadTime(fields[3]), code, |fields[0]| / 2)
  }

  /** The section a row describes, given its group's credits, code and name. */
  function SectionOf(row: Row, credits: int, code: string, name: string): Result<Section>
  {
    match MeetingBlocks(row.daysAndTimes, code)
    case Err(e) => Err(e)
    case Ok(bs) => Ok(Section(row.section, row.daysAndTimes, credits, code, name, bs))
  }

  /** `Section.__init__`: split the meeting string, then build the blocks token by token. */
  method ParseSection(row: Row, credits: int, code: string, name: string) returns (r: Result<Section>)
    ensures r == SectionOf(row, credits, code, name)
  {
    var fields := Split(row.daysAndTimes, ' ');
    if |fields| != 4 {
      return Err(FieldCount);
    }
    var blocks := BuildBlocks(fields[0], fields[1], fields[3], code);
    if blocks.Err? {
      return Err(blocks.error);
    }
    return Ok(Section(row.section, row.daysAndTimes, credits, code, name, blocks.value));
  }

  /** The loop of `Section.__init__`: one block per two-letter token of the days field. */
  method BuildBlocks(days: string, startField: string, endField: string, code: string) returns (r: Result<seq<Block>>)
    ensures r == TokenBlocks(days, ReadTime(startField), ReadTime(endField), code, |days| / 2)
  {
    ghost var startRead, endRead := ReadTime(startField), ReadTime(endField);
    var blocks: seq<Block> := [];
    var n := 0;
    while n < |days| / 2
      invariant 0 <= n <= |days| / 2
      invariant TokenBlocks(days, startRead, endRead, code, n) == Ok(blocks)
    {
      ghost var next := TokenBlock(Token(days, n), startRead, endRead, code);
      var date := DayNumber(days[2 * n..2 * n + 2]);
      if date.None? {
        assert next == Err(UnknownDay);
        TokenBlocksErrorStays(days, startRead, endRead, code, n + 1, |days| / 2);
        return Err(UnknownDay);
      }
      var start := ReadTime(startField);
      if start.None? {
        assert next == Err(BadTime);
        TokenBlocksErrorStays(days, startRead, endRead, code, n + 1, |days| / 2);
        return Err(BadTime);
      }
      var end := ReadTime(endField);
      if end.None? {
        assert next == Err(BadTime);
        TokenBlocksErrorStays(days, startRead, endRead, code, n + 1, |days| / 2);
        return Err(BadTime);
      }
      if end.value <= start.value {
        assert next == Err(EndNotAfterStart);
        TokenBlocksErrorStays(days, startRead, endRead, code, n + 1, |days| / 2);
        return Err(EndNotAfterStart);
      }
      assert next == Ok(Block(date.value, start.value, end.value, code));
      blocks := blocks + [Block(date.value, start.value, end.value, code)];
      n := n + 1;
    }
    return Ok(blocks);
  }

  /** Once a token fails, the error is the outcome of every longer prefix too. */
  lemma {:induction false} TokenBlocksErrorStays(days: string, start: Option<Minute>, end: Option<Minute>, code: string, k: nat, m: nat)
    requires k <= m <= |days| / 2
    requires TokenBlocks(days, start, end, code, k).Err?
    ensures TokenBlocks(days, start, end, code, m) == TokenBlocks(days, start, end, code, k)
  {
    if m > k {
      TokenBlocksErrorStays(days, start, end, code, k, m - 1);
    }
  }

  // ---------------------------------------------------------------------------------------------
  // What parsing a meeting string promises.

  /** The first n tokens build without error exactly when every one of them is a weekday token and,
      when there is at least one, both times read and the end comes after the start. */
  lemma {:induction false} TokenBlocksSucceed(days: string, start: Option<Minute>, end: Option<Minute>, code: string, n: nat)
    requires n <= |days| / 2
    ensures TokenBlocks(days, start, end, code, n).Ok? <==>
      (forall k :: 0 <= k < n ==> DayNumber(Token(days, k)).Some?) &&
      (n > 0 ==> start.Some? && end.Some? && start.value < end.value)
  {
    if n > 0 {
      TokenBlocksSucceed(days, start, end, code, n - 1);
      var ok := TokenBlocks(days, start, end, code, n).Ok?;
      var prevOk := TokenBlocks(days, start, end, code, n - 1).Ok?;
      var lastOk := TokenBlock(Token(days, n - 1), start, end, code).Ok?;
      var timesOk := start.Some? && end.Some? && start.value < end.value;
      var tokensOk := forall k :: 0 <= k < n ==> DayNumber(Token(days, k)).Some?;
      assert ok == (prevOk && lastOk);
      assert lastOk == (DayNumber(Token(days, n - 1)).Some? && timesOk);
      if tokensOk && timesOk {
        assert prevOk;
      }
    }
  }

  /** On success, the first n tokens give one block per token, in token order, each on the token's
      weekday with the shared start and end and the given code, each of positive length. */
  lemma {:induction false} TokenBlocksShape(days: string, start: Option<Minute>, end: Option<Minute>, code: string, n: nat)
    requires n <= |days| / 2
    requires TokenBlocks(days, start, end, code, n).Ok?
    ensures var bs := TokenBlocks(days, start, end, code, n).value;
      |bs| == n &&
      forall k :: 0 <= k < n ==>
        DayNumber(Token(days, k)) == Some(bs[k].date) &&
        bs[k].start == start.value && bs[k].end == end.value &&
        bs[k].code == code && ValidBlock(bs[k])
  {
    if n > 0 {
      TokenBlocksShape(days, start, end, code, n - 1);
      var prev := TokenBlocks(days, start, end, code, n - 1).value;
      var last := TokenBlock(Token(days, n - 1), start, end, code).value;
      var bs := TokenBlocks(days, start, end, code, n).value;
      assert bs == prev + [last];
      forall k | 0 <= k < n
        ensures DayNumber(Token(days, k)) == Some(bs[k].date) &&
          bs[k].start == start.value && bs[k].end == end.value &&
          bs[k].code == code && ValidBlock(bs[k])
      {
        if k < n - 1 {
          assert bs[k] == prev[k];
        } else {
          assert bs[k] == last;
        }
      }
    }
  }

  /** The three outcomes of parsing a meeting string: a field-count failure unless it splits into
      exactly four fields; otherwise success exactly when every token is a weekday and (when there
      is a token) both times read and the end is after the start; and on success one block per
      token, on that token's weekday, sharing the start and end, each of positive duration. */
  lemma MeetingBlocksOutcomes(daysAndTimes: string, code: string)
    ensures var fields := Split(daysAndTimes, ' ');
      var r := MeetingBlocks(daysAndTimes, code);
      (|fields| != 4 <==> r == Err(FieldCount)) &&
      (|fields| == 4 ==>
        var n := |fields[0]| / 2;
        (r.Ok? <==>
          (forall k :: 0 <= k < n ==> DayNumber(Token(fields[0], k)).Some?) &&
          (n > 0 ==> ReadTime(fields[1]).Some? && ReadTime(fields[3]).Some? &&
                     ReadTime(fields[1]).value < ReadTime(fields[3]).value)) &&
        (r.Ok? ==>
          |r.value| == n &&
          forall k :: 0 <= k < n ==>
            DayNumber(Token(fields[0], k)) == Some(r.value[k].date) &&
            r.value[k].start == ReadTime(fields[1]).value &&
            r.value[k].end == ReadTime(fields[3]).value &&
            r.value[k].code == code && Duration(r.value[k]) > 0))
  {
    var fields := Split(daysAndTimes, ' ');
    if |fields| == 4 {
      TokenBlocksSucceed(fields[0], ReadTime(fields[1]), ReadTime(fields[3]), code, |fields[0]| / 2);
      if MeetingBlocks(daysAndTimes, code).Ok? {
        TokenBlocksShape(fields[0], ReadTime(fields[1]), ReadTime(fields[3]), code, |fields[0]| / 2);
      }
      TokenBlocksNeverFieldCount(fields[0], ReadTime(fields[1]), ReadTime(fields[3]), code, |fields[0]| / 2);
    }
  }

  /** Errors raised while building blocks are never field-count errors. */
  lemma {:induction false} TokenBlocksNeverFieldCount(days: string, start: Option<Minute>, end: Option<Minute>, code: string, n: nat)
    requires n <= |days| / 2
    ensures TokenBlocks(days, start, end, code, n) != Err(FieldCount)
  {
    if n > 0 {
      TokenBlocksNeverFieldCount(days, start, end, code, n - 1);
    }
  }

  /** Every block of a parsed section is well formed and carries the section's course code. */
  lemma SectionBlocksValid(row: Row, credits: int, code: string, name: string)
    requires SectionOf(row, credits, code, name).Ok?
    ensures var s := SectionOf(row, credits, code, name).value;
      s.code == code && s.credits == credits && s.id == row.section &&
      forall b :: b in s.blocks ==> ValidBlock(b) && b.code == code
  {
    MeetingBlocksOutcomes(row.daysAndTimes, code);
  }
}
