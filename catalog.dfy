/** The whole catalog (`ScheduleGenerator.__init__`): the rows split into courses at every row
    marked 'c' in "Corequisites?", and the courses sorted into required and flexible ones. */
module Catalog {
  import opened Errors
  import opened Lists
  import opened Sections
  import opened Courses

  /** The courses of the catalog, in row order, split by their "Required?" mark. */
  datatype Catalog = Catalog(required: seq<Course>, flexible: seq<Course>)

  /** The runs the first loop builds: a row marked 'c' starts a new course, any other row joins the
      last one, which fails on `temp[-1]` when there is none yet. */
  function MarkerRuns(rows: seq<Row>): Result<seq<seq<Row>>>
  {
    if rows == [] then Ok([])
    else
      var n := |rows| - 1;
      match MarkerRuns(rows[..n])
      case Err(e) => Err(e)
      case Ok(runs) =>
        if rows[n].coreq == "c" then Ok(runs + [[rows[n]]])
        else if runs == [] then Err(NoOpenGroup)
        else Ok(runs[..|runs| - 1] + [runs[|runs| - 1] + [rows[n]]])
  }

  /** runs cut rows exactly at the 'c' marks: put back together they give the rows, and each run
      starts with a marked row and holds no other. */
  predicate IsMarkerRuns(runs: seq<seq<Row>>, rows: seq<Row>)
  {
    Flatten(runs) == rows &&
    forall i :: 0 <= i < |runs| ==>
      runs[i] != [] && runs[i][0].coreq == "c" &&
      forall j :: 0 < j < |runs[i]| ==> runs[i][j].coreq != "c"
  }

  /** Grouping fails exactly when the first row is not marked 'c', and otherwise cuts the rows at
      the marks. */
  lemma {:induction false} MarkerRunsMeaning(rows: seq<Row>)
    ensures MarkerRuns(rows).Err? <==> rows != [] && rows[0].coreq != "c"
    ensures MarkerRuns(rows).Err? ==> MarkerRuns(rows).error == NoOpenGroup
    ensures MarkerRuns(rows).Ok? ==> IsMarkerRuns(MarkerRuns(rows).value, rows)
  {
    if rows != [] {
      var n := |rows| - 1;
      var init := rows[..n];
      MarkerRunsMeaning(init);
      if n > 0 {
        assert init[0] == rows[0];
      }
      if MarkerRuns(init).Ok? {
        var runs: seq<seq<Row>> := MarkerRuns(init).value;
        assert init + [rows[n]] == rows;
        if rows[n].coreq == "c" {
          StartMarkedRun(runs, init, rows[n]);
        } else if runs != [] {
          AppendToLastRun(runs, init, rows[n]);
        }
      }
    }
  }

  lemma StartMarkedRun(runs: seq<seq<Row>>, rows: seq<Row>, row: Row)
    requires IsMarkerRuns(runs, rows) && row.coreq == "c"
    ensures IsMarkerRuns(runs + [[row]], rows + [row])
  {
    FlattenAppend(runs, [row]);
    assert (runs + [[row]])[..|runs|] == runs;
  }

  lemma AppendToLastRun(runs: seq<seq<Row>>, rows: seq<Row>, row: Row)
    requires IsMarkerRuns(runs, rows) && runs != [] && row.coreq != "c"
    ensures IsMarkerRuns(runs[..|runs| - 1] + [runs[|runs| - 1] + [row]], rows + [row])
  {
    var init, last := runs[..|runs| - 1], runs[|runs| - 1];
    var runs': seq<seq<Row>> := init + [last + [row]];
    FlattenAppend(init, last);
    FlattenAppend(init, last + [row]);
    assert init + [last] == runs;
    forall i | 0 <= i < |runs'|
      ensures runs'[i] != [] && runs'[i][0].coreq == "c" &&
        forall j :: 0 < j < |runs'[i]| ==> runs'[i][j].coreq != "c"
    {
      if i < |init| {
        assert runs'[i] == runs[i];
      }
    }
  }

  /** The first loop of `ScheduleGenerator.__init__`. */
  method GroupByMarker(rows: seq<Row>) returns (r: Result<seq<seq<Row>>>)
    ensures r == MarkerRuns(rows)
  {
    var runs: seq<seq<Row>> := [];
    for n := 0 to |rows|
      invariant MarkerRuns(rows[..n]) == Ok(runs)
      invariant n > 0 ==> runs != []
    {
      assert rows[..n + 1][..n] == rows[..n];
      if rows[n].coreq == "c" {
        runs := runs + [[rows[n]]];
      } else {
        if runs == [] {
          MarkerRunsMeaning(rows);
          return Err(NoOpenGroup);
        }
        runs := runs[..|runs| - 1] + [runs[|runs| - 1] + [rows[n]]];
      }
    }
    assert rows[..|rows|] == rows;
    return Ok(runs);
  }

  /** The courses marked required, in order. */
  function Required(courses: seq<Course>): seq<Course>
  {
    if courses == [] then []
    else
      var last := courses[|courses| - 1];
      Required(courses[..|courses| - 1]) + (if last.required then [last] else [])
  }

  /** The courses not marked required, in order. */
  function Flexible(courses: seq<Course>): seq<Course>
  {
    if courses == [] then []
    else
      var last := courses[|courses| - 1];
      Flexible(courses[..|courses| - 1]) + (if last.required then [] else [last])
  }

  lemma RequiredSnoc(courses: seq<Course>, c: Course)
    ensures Required(courses + [c]) == Required(courses) + (if c.required then [c] else [])
    ensures Flexible(courses + [c]) == Flexible(courses) + (if c.required then [] else [c])
  {
    assert (courses + [c])[..|courses|] == courses;
  }

  /** What `ScheduleGenerator.__init__` builds from the rows: one course per marked run, required
      ones and flexible ones kept apart in row order; the first failure stops it. */
  function CatalogOf(rows: seq<Row>): Result<Catalog>
  {
    match MarkerRuns(rows)
    case Err(e) => Err(e)
    case Ok(runs) =>
      match Collect(CourseOf, runs)
      case Err(e) => Err(e)
      case Ok(courses) => Ok(Catalog(Required(courses), Flexible(courses)))
  }

  /** `ScheduleGenerator.__init__`: group the rows, then build each course and append it to the
      required or the flexible list according to its first row's "Required?" mark. */
  method ReadCatalog(rows: seq<Row>) returns (r: Result<Catalog>)
    ensures r == CatalogOf(rows)
  {
    var grouped := GroupByMarker(rows);
    if grouped.Err? {
      return Err(grouped.error);
    }
    r := SortCourses(grouped.value);
  }

  /** The second loop of `ScheduleGenerator.__init__`. */
  method SortCourses(runs: seq<seq<Row>>) returns (r: Result<Catalog>)
    ensures r == match Collect(CourseOf, runs)
                 case Err(e) => Err(e)
                 case Ok(courses) => Ok(Catalog(Required(courses), Flexible(courses)))
  {
    var required, flexible: seq<Course> := [], [];
    ghost var courses: seq<Course> := [];
    for i := 0 to |runs|
      invariant Collect(CourseOf, runs[..i]) == Ok(courses)
      invariant required == Required(courses) && flexible == Flexible(courses)
    {
      var c := NewCourse(runs[i]);
      if c.Err? {
        CollectStops(CourseOf, runs, i, c.error);
        return Err(c.error);
      }
      CollectSnoc(CourseOf, runs, i, courses, c.value);
      RequiredSnoc(courses, c.value);
      courses := courses + [c.value];
      if runs[i][0].required == "r" {
        required := required + [c.value];
      } else {
        flexible := flexible + [c.value];
      }
    }
    assert runs[..|runs|] == runs;
    return Ok(Catalog(required, flexible));
  }

  /** Every course of the catalog comes from one marked run: the catalog is built exactly when the
      rows start with a mark and every run makes a course; then there is one course per run, each
      required exactly when its run's first row says 'r', and the catalog's two lists are the
      required and the other courses, in row order. */
  lemma CatalogOfMeaning(rows: seq<Row>)
    ensures CatalogOf(rows).Ok? <==>
      MarkerRuns(rows).Ok? && Collect(CourseOf, MarkerRuns(rows).value).Ok?
    ensures MarkerRuns(rows).Ok? ==>
      var runs := MarkerRuns(rows).value;
      var built := Collect(CourseOf, runs);
      built.Ok? ==>
        var courses := built.value;
        |courses| == |runs| &&
        (forall i :: 0 <= i < |runs| ==>
          CourseOf(runs[i]) == Ok(courses[i]) && courses[i].required == (runs[i][0].required == "r")) &&
        CatalogOf(rows) == Ok(Catalog(Required(courses), Flexible(courses)))
  {
    if MarkerRuns(rows).Ok? {
      var runs: seq<seq<Row>> := MarkerRuns(rows).value;
      CollectMeaning(CourseOf, runs);
      if Collect(CourseOf, runs).Ok? {
        MarkerRunsMeaning(rows);
        var courses := Collect(CourseOf, runs).value;
        forall i | 0 <= i < |runs|
          ensures courses[i].required == (runs[i][0].required == "r")
        {
          CourseRequired(runs[i]);
        }
      }
    }
  }

  /** A built course is required exactly when its first row says 'r'. */
  lemma CourseRequired(rows: seq<Row>)
    ensures CourseOf(rows).Ok? ==> rows != [] && CourseOf(rows).value.required == (rows[0].required == "r")
  {
  }

  /** The two lists split the courses: the first holds just the required ones, the second just the
      others. */
  lemma {:induction false} RequiredFlexibleMarks(courses: seq<Course>)
    ensures forall c :: c in Required(courses) ==> c.required
    ensures forall c :: c in Flexible(courses) ==> !c.required
  {
    if courses != [] {
      var n := |courses| - 1;
      RequiredFlexibleMarks(courses[..n]);
      assert courses[..n] + [courses[n]] == courses;
      RequiredSnoc(courses[..n], courses[n]);
    }
  }

  /** Between them, the two lists hold every course exactly once. */
  lemma {:induction false} RequiredFlexibleSplit(courses: seq<Course>)
    ensures multiset(Required(courses)) + multiset(Flexible(courses)) == multiset(courses)
  {
    if courses != [] {
      var n := |courses| - 1;
      var init, c := courses[..n], courses[n];
      RequiredFlexibleSplit(init);
      assert init + [c] == courses;
      RequiredSnoc(init, c);
    }
  }
}
