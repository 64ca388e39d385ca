/** Corequisite groups and courses: the catalog rows of one course, split into runs of equal course
    code, each run becoming a corequisite group with its parsed sections. */
module Courses {
  import opened Clock
  import opened Errors
  import opened Lists
  import opened Sections

  /** A corequisite group (`Coreq`): every section of one course code, all sharing the credits,
      code and name of the group's first row. */
  datatype Coreq = Coreq(code: string, name: string, credits: int, sections: seq<Section>)

  /** A course: its corequisite groups, whether it is required, and the sum of the groups' credits. */
  datatype Course = Course(required: bool, coreqs: seq<Coreq>, totalCredits: int)

  // ---------------------------------------------------------------------------------------------
  // Coreq.__init__

  /** The group a list of rows makes: code, name and credits come from the first row (an empty
      list fails on `sections_list[0]`, unreadable credits fail in `float`), then every row, the
      first included, is parsed into a section in order. */
  function CoreqOf(rows: seq<Row>): Result<Coreq>
  {
    if rows == [] then Err(NoRows)
    else
      var first := rows[0];
      if first.credits.None? then Err(BadCredits)
      else
        var credits := first.credits.value;
        match Collect(row => SectionOf(row, credits, first.code, first.name), rows)
        case Err(e) => Err(e)
        case Ok(sections) => Ok(Coreq(first.code, first.name, credits, sections))
  }

  /** `Coreq.__init__`: read the first row, then parse and append one section per row. */
  method NewCoreq(rows: seq<Row>) returns (r: Result<Coreq>)
    ensures r == CoreqOf(rows)
  {
    if rows == [] {
      return Err(NoRows);
    }
    var code, name := rows[0].code, rows[0].name;
    if rows[0].credits.None? {
      return Err(BadCredits);
    }
    var credits := rows[0].credits.value;
    ghost var parse := row => SectionOf(row, credits, code, name);
    var sections: seq<Section> := [];
    for i := 0 to |rows|
      invariant Collect(parse, rows[..i]) == Ok(sections)
    {
      var s := ParseSection(rows[i], credits, code, name);
      if s.Err? {
        CollectStops(parse, rows, i, s.error);
        return Err(s.error);
      }
      CollectSnoc(parse, rows, i, sections, s.value);
      sections := sections + [s.value];
    }
    assert rows[..|rows|] == rows;
    return Ok(Coreq(code, name, credits, sections));
  }

  /** A group is built exactly when it has a first row with readable credits and every row parses;
      it then has one section per row, in row order, each carrying the group's code, name and
      credits. */
  lemma CoreqOfMeaning(rows: seq<Row>)
    ensures CoreqOf(rows).Ok? <==>
      rows != [] && rows[0].credits.Some? &&
      forall i :: 0 <= i < |rows| ==>
        SectionOf(rows[i], rows[0].credits.value, rows[0].code, rows[0].name).Ok?
    ensures CoreqOf(rows).Ok? ==>
      var c := CoreqOf(rows).value;
      c.code == rows[0].code && c.name == rows[0].name && c.credits == rows[0].credits.value &&
      |c.sections| == |rows| &&
      forall i :: 0 <= i < |rows| ==>
        c.sections[i] == SectionOf(rows[i], c.credits, c.code, c.name).value &&
        c.sections[i].id == rows[i].section && c.sections[i].code == c.code &&
        c.sections[i].credits == c.credits
  {
    if rows != [] && rows[0].credits.Some? {
      var first := rows[0];
      var parse := row => SectionOf(row, first.credits.value, first.code, first.name);
      CollectMeaning(parse, rows);
      if CoreqOf(rows).Ok? {
        forall i | 0 <= i < |rows|
          ensures parse(rows[i]).value.id == rows[i].section
        {
          SectionBlocksValid(rows[i], first.credits.value, first.code, first.name);
        }
      }
    }
  }

  // ---------------------------------------------------------------------------------------------
  // Course.__init__: grouping the rows into runs of equal course code.

  /** The runs the grouping loop builds from the rows, or its failure: a row whose code differs from
      the code of the row before it (the first row is compared with '') starts a new run, any other
      row joins the last run, which fails on `temp[-1]` when there is no run yet. */
  function CodeRuns(rows: seq<Row>): Result<seq<seq<Row>>>
  {
    if rows == [] then Ok([])
    else
      var n := |rows| - 1;
      match CodeRuns(rows[..n])
      case Err(e) => Err(e)
      case Ok(runs) =>
        var current := if n == 0 then "" else rows[n - 1].code;
        if rows[n].code != current then Ok(runs + [[rows[n]]])
        else if runs == [] then Err(NoOpenGroup)
        else Ok(runs[..|runs| - 1] + [runs[|runs| - 1] + [rows[n]]])
  }

  /** runs are the maximal stretches of equal course code of rows: non-empty, put back together
      they give the rows, every row of a run has the run's code, neighbouring runs have different
      codes, and the last run has the last row's code. */
  predicate IsCodeRuns(runs: seq<seq<Row>>, rows: seq<Row>)
  {
    Flatten(runs) == rows &&
    (forall i :: 0 <= i < |runs| ==>
      runs[i] != [] && forall j :: 0 <= j < |runs[i]| ==> runs[i][j].code == runs[i][0].code) &&
    (forall i :: 0 < i < |runs| ==> runs[i][0].code != runs[i - 1][0].code) &&
    (rows != [] ==> runs != [] && runs[|runs| - 1][0].code == rows[|rows| - 1].code)
  }

  /** Grouping fails exactly when the first row's code is empty, and otherwise yields the maximal
      runs of equal course code. */
  lemma {:induction false} CodeRunsMeaning(rows: seq<Row>)
    ensures CodeRuns(rows).Err? <==> rows != [] && rows[0].code == ""
    ensures CodeRuns(rows).Err? ==> CodeRuns(rows).error == NoOpenGroup
    ensures CodeRuns(rows).Ok? ==> IsCodeRuns(CodeRuns(rows).value, rows)
  {
    if rows != [] {
      var n := |rows| - 1;
      var init := rows[..n];
      CodeRunsMeaning(init);
      if n > 0 {
        assert init[0] == rows[0];
      }
      if CodeRuns(init).Ok? && CodeRuns(rows).Ok? {
        var runs: seq<seq<Row>> := CodeRuns(init).value;
        assert IsCodeRuns(CodeRuns(rows).value, rows) by {
          assert init + [rows[n]] == rows;
          if n > 0 {
            assert init[|init| - 1] == rows[n - 1];
          }
          var current := if n == 0 then "" else rows[n - 1].code;
          if rows[n].code != current {
            StartRun(runs, init, rows[n]);
          } else {
            ExtendRun(runs, init, rows[n]);
          }
        }
      }
    }
  }

  lemma StartRun(runs: seq<seq<Row>>, rows: seq<Row>, row: Row)
    requires IsCodeRuns(runs, rows)
    requires rows != [] ==> row.code != rows[|rows| - 1].code
    ensures IsCodeRuns(runs + [[row]], rows + [row])
  {
    FlattenAppend(runs, [row]);
    assert (runs + [[row]])[..|runs|] == runs;
  }

  lemma ExtendRun(runs: seq<seq<Row>>, rows: seq<Row>, row: Row)
    requires IsCodeRuns(runs, rows)
    requires rows != [] && row.code == rows[|rows| - 1].code
    ensures IsCodeRuns(runs[..|runs| - 1] + [runs[|runs| - 1] + [row]], rows + [row])
  {
    var init, last := runs[..|runs| - 1], runs[|runs| - 1];
    var runs': seq<seq<Row>> := init + [last + [row]];
    FlattenAppend(init, last);
    FlattenAppend(init, last + [row]);
    assert init + [last] == runs;
    forall i | 0 <= i < |runs'|
      ensures runs'[i] != [] && forall j :: 0 <= j < |runs'[i]| ==> runs'[i][j].code == runs'[i][0].code
    {
      if i < |init| {
        assert runs'[i] == runs[i];
      }
    }
  }

  /** The sum of the groups' credits. */
  function CreditSum(coreqs: seq<Coreq>): int
  {
    if coreqs == [] then 0 else CreditSum(coreqs[..|coreqs| - 1]) + coreqs[|coreqs| - 1].credits
  }

  /** The course a list of rows makes: `required` from the first row, then one group per run. */
  function CourseOf(rows: seq<Row>): Result<Course>
  {
    if rows == [] then Err(NoRows)
    else
      match CodeRuns(rows)
      case Err(e) => Err(e)
      case Ok(runs) =>
        match Collect(CoreqOf, runs)
        case Err(e) => Err(e)
        case Ok(coreqs) => Ok(Course(rows[0].required == "r", coreqs, CreditSum(coreqs)))
  }

  /** The grouping loop of `Course.__init__`: `course_code` remembers the code of the row before. */
  method GroupByCode(rows: seq<Row>) returns (r: Result<seq<seq<Row>>>)
    ensures r == CodeRuns(rows)
  {
    var courseCode := "";
    var runs: seq<seq<Row>> := [];
    for n := 0 to |rows|
      invariant CodeRuns(rows[..n]) == Ok(runs)
      invariant courseCode == if n == 0 then "" else rows[n - 1].code
      invariant n > 0 ==> runs != []
    {
      assert rows[..n + 1][..n] == rows[..n];
      if rows[n].code != courseCode {
        courseCode := rows[n].code;
        runs := runs + [[rows[n]]];
      } else {
        if runs == [] {
          CodeRunsMeaning(rows);
          return Err(NoOpenGroup);
        }
        runs := runs[..|runs| - 1] + [runs[|runs| - 1] + [rows[n]]];
      }
    }
    assert rows[..|rows|] == rows;
    return Ok(runs);
  }

  /** `Course.__init__`: `required` from the first row, the grouping loop, then the loop over the
      runs. */
  method NewCourse(rows: seq<Row>) returns (r: Result<Course>)
    ensures r == CourseOf(rows)
    ensures r.Ok? ==> rows != [] && r.value.required == (rows[0].required == "r")
  {
    if rows == [] {
      return Err(NoRows);
    }
    var required := rows[0].required == "r";
    var grouped := GroupByCode(rows);
    if grouped.Err? {
      return Err(grouped.error);
    }
    var built, totalCredits := BuildCoreqs(grouped.value);
    if built.Err? {
      return Err(built.error);
    }
    return Ok(Course(required, built.value, totalCredits));
  }

  /** The second loop of `Course.__init__`: one group per run, and the sum of the credits of each
      run's first row. */
  method BuildCoreqs(runs: seq<seq<Row>>) returns (r: Result<seq<Coreq>>, totalCredits: int)
    ensures r == Collect(CoreqOf, runs)
    ensures r.Ok? ==> totalCredits == CreditSum(r.value)
  {
    var coreqs: seq<Coreq> := [];
    totalCredits := 0;
    for i := 0 to |runs|
      invariant Collect(CoreqOf, runs[..i]) == Ok(coreqs)
      invariant totalCredits == CreditSum(coreqs)
    {
      var c := NewCoreq(runs[i]);
      if c.Err? {
        CollectStops(CoreqOf, runs, i, c.error);
        return Err(c.error), totalCredits;
      }
      CollectSnoc(CoreqOf, runs, i, coreqs, c.value);
      assert (coreqs + [c.value])[..|coreqs|] == coreqs;
      coreqs := coreqs + [c.value];
      // `float(list[0]['Credits'])` again: the value the group was built with
      totalCredits := totalCredits + c.value.credits;
    }
    assert runs[..|runs|] == runs;
    return Ok(coreqs), totalCredits;
  }

  /** A course is built exactly when it has rows, the grouping succeeds and every run makes a
      group. */
  lemma CourseOfSucceeds(rows: seq<Row>)
    ensures CourseOf(rows).Ok? <==>
      rows != [] && CodeRuns(rows).Ok? &&
      forall i :: 0 <= i < |CodeRuns(rows).value| ==> CoreqOf(CodeRuns(rows).value[i]).Ok?
  {
    if rows != [] && CodeRuns(rows).Ok? {
      CollectMeaning(CoreqOf, CodeRuns(rows).value);
    }
  }

  /** A built course holds one group per run, in order, is required exactly when its first row
      says 'r', and its total is the sum of the credits of each run's first row. */
  lemma CourseOfMeaning(rows: seq<Row>)
    requires CourseOf(rows).Ok?
    ensures rows != [] && CodeRuns(rows).Ok?
    ensures var runs, c := CodeRuns(rows).value, CourseOf(rows).value;
      c.required == (rows[0].required == "r") &&
      |c.coreqs| == |runs| &&
      (forall i :: 0 <= i < |runs| ==>
        CoreqOf(runs[i]).Ok? && c.coreqs[i] == CoreqOf(runs[i]).value &&
        c.coreqs[i].credits == runs[i][0].credits.value) &&
      c.totalCredits == Sum(FirstCredits(runs))
  {
    var runs: seq<seq<Row>> := CodeRuns(rows).value;
    var coreqs := CourseOf(rows).value.coreqs;
    CollectedCoreqs(runs, coreqs);
    CreditSumOfRuns(coreqs, runs);
  }

  /** The groups made from the runs: one per run, each with the credits of its run's first row. */
  lemma CollectedCoreqs(runs: seq<seq<Row>>, coreqs: seq<Coreq>)
    requires Collect(CoreqOf, runs) == Ok(coreqs)
    ensures |coreqs| == |runs|
    ensures forall i :: 0 <= i < |runs| ==>
      CoreqOf(runs[i]).Ok? && coreqs[i] == CoreqOf(runs[i]).value &&
      runs[i] != [] && runs[i][0].credits.Some? && coreqs[i].credits == runs[i][0].credits.value
  {
    CollectMeaning(CoreqOf, runs);
    forall i | 0 <= i < |runs|
      ensures runs[i] != [] && runs[i][0].credits.Some? && coreqs[i].credits == runs[i][0].credits.value
    {
      CoreqOfMeaning(runs[i]);
    }
  }

  /** The credits of each run's first row (`float(list[0]['Credits'])`), 0 where unreadable. */
  function FirstCredits(runs: seq<seq<Row>>): (r: seq<int>)
    ensures |r| == |runs|
  {
    if runs == [] then []
    else
      var last := runs[|runs| - 1];
      FirstCredits(runs[..|runs| - 1]) +
        [if last != [] && last[0].credits.Some? then last[0].credits.value else 0]
  }

  lemma {:induction false} CreditSumOfRuns(coreqs: seq<Coreq>, runs: seq<seq<Row>>)
    requires |coreqs| == |runs|
    requires forall i :: 0 <= i < |runs| ==>
      runs[i] != [] && runs[i][0].credits.Some? && coreqs[i].credits == runs[i][0].credits.value
    ensures CreditSum(coreqs) == Sum(FirstCredits(runs))
  {
    if coreqs != [] {
      var n := |coreqs| - 1;
      CreditSumOfRuns(coreqs[..n], runs[..n]);
      assert FirstCredits(runs)[..n] == FirstCredits(runs[..n]);
    }
  }
}
