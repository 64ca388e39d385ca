/** `ScheduleGenerator`: builds every schedule the catalog allows within a credit window, drops the
    ones with a conflict, a Saturday class or a sleepless night, ranks the rest by how much of their
    time is spent in class, and chooses up to ten distinct schedules from each end of the ranking. */
module Generator {
  import opened Errors
  import opened Lists
  import opened Sections
  import opened Courses
  import opened Catalog
  import opened Enumeration
  import opened Schedules
  import opened Ranking

  // ---------------------------------------------------------------------------------------------
  // What a run produces, as values

  /** The positions of the schedules whose images are saved: `preferred` counts from the best
      ranked (image "preferred x"), `undesirable` from the worst (x is saved as "undesirable x+1"). */
  datatype Selection = Selection(preferred: seq<nat>, undesirable: seq<nat>)

  /** The schedules left in `self.schedules`, by their sections, and how the run ends. */
  datatype Run = Run(schedules: seq<seq<Section>>, outcome: Result<Selection>)

  function CandidateSections(c: Candidate): seq<Section> { c.sections }

  function SectionsOf(s: Schedule): seq<Section> { s.sections }

  /** The sections of each schedule, in order. */
  function Layouts(ss: seq<Schedule>): seq<seq<Section>> { Map(SectionsOf, ss) }

  predicate NoConflict(layout: seq<Section>) { !ContainsConflict(layout) }

  predicate Weekdays(layout: seq<Section>) { !SaturdayClass(layout) }

  predicate Restful(layout: seq<Section>) { SleeplessCount(layout) == 0 }

  /** The schedules the enumeration creates. */
  function Built(catalog: Catalog, minCredits: int, maxCredits: int): seq<seq<Section>>
  {
    Map(CandidateSections, Candidates(catalog, minCredits, maxCredits))
  }

  /** The three filters of `generate_schedules`, in the order it applies them. */
  function Survivors(layouts: seq<seq<Section>>): seq<seq<Section>>
  {
    Filter(Restful, Filter(Weekdays, Filter(NoConflict, layouts)))
  }

  /** The figures the ranking key `class_time / total_time` divides. */
  function KeyOf(layout: seq<Section>): Key
  {
    var days := Days(layout);
    Key(ClassTime(days, 7), TotalTime(days, 7))
  }

  /** A whole run of `generate_schedules`. When some surviving schedule has a total time of zero,
      computing its ranking key divides by zero: the run stops with the survivors unranked. */
  function Generated(catalog: Catalog, minCredits: int, maxCredits: int): Run
  {
    var survivors := Survivors(Built(catalog, minCredits, maxCredits));
    var keys := Map(KeyOf, survivors);
    if !Divisible(keys) then Run(survivors, Err(ZeroTotalTime))
    else
      var ranked := Permute(survivors, RankOrder(keys, |keys|));
      Run(ranked, Ok(Selection(Chosen(ranked, SameLayout, |ranked|), Chosen(Reverse(ranked), SameLayout, |ranked|))))
  }

  // ---------------------------------------------------------------------------------------------
  // The stages of `generate_schedules`, on schedule objects

  /** The schedule objects are the candidates, in order, each as `Schedule.__init__` and the
      credit assignment leave it. */
  predicate Created(ss: seq<Schedule>, cands: seq<Candidate>)
    reads ss
  {
    |ss| == |cands| &&
    forall k :: 0 <= k < |ss| ==>
      ss[k].sections == cands[k].sections && ss[k].credits == cands[k].credits && ss[k].Unmeasured()
  }

  /** `self.schedules.append(Schedule(possible_schedule))` and the credit assignment after it. */
  method AddSchedule(sections: seq<Section>, credits: int, built: seq<Schedule>, ghost cands: seq<Candidate>)
    returns (ss: seq<Schedule>)
    requires Created(built, cands) && NoDuplicates(built)
    ensures Created(ss, cands + [Candidate(sections, credits)])
    ensures NoDuplicates(ss) && |ss| == |built| + 1 && ss[..|built|] == built && fresh(ss[|built|])
  {
    var s := new Schedule(sections);
    s.credits := credits;
    ss := built + [s];
  }

  lemma TagSnoc(tuples: seq<seq<Section>>, t: nat, credits: int)
    requires t < |tuples|
    ensures Tag(tuples[..t + 1], credits) == Tag(tuples[..t], credits) + [Candidate(tuples[t], credits)]
  {
    assert tuples[..t + 1][..t] == tuples[..t];
  }

  /** The schedules of one subset of the flexible courses appended to those built so far: none
      when its credits fall outside the window, otherwise one new schedule per element of the
      product of its groups' sections. */
  method AddSchedules(catalog: Catalog, subset: seq<nat>, minCredits: int, maxCredits: int,
                      built: seq<Schedule>, ghost cands: seq<Candidate>)
    returns (ss: seq<Schedule>)
    requires Created(built, cands) && NoDuplicates(built)
    ensures Created(ss, cands + SubsetCandidates(catalog, subset, minCredits, maxCredits))
    ensures NoDuplicates(ss) && forall s :: s in ss ==> s in built || fresh(s)
  {
    var coreqs := SubsetCoreqs(catalog, subset);
    var credits := CreditSum(coreqs);
    ss := built;
    if minCredits <= credits && credits <= maxCredits {
      var tuples := Product(SectionLists(coreqs));
      assert cands + Tag(tuples[..0], credits) == cands;
      for t := 0 to |tuples|
        invariant Created(ss, cands + Tag(tuples[..t], credits))
        invariant NoDuplicates(ss) && forall s :: s in ss ==> s in built || fresh(s)
      {
        ss := AddSchedule(tuples[t], credits, ss, cands + Tag(tuples[..t], credits));
        TagSnoc(tuples, t, credits);
        assert cands + Tag(tuples[..t + 1], credits) == cands + Tag(tuples[..t], credits) + [Candidate(tuples[t], credits)];
      }
      assert tuples[..|tuples|] == tuples;
    } else {
      assert cands + [] == cands;
    }
  }

  /** The loop over `itertools.combinations(self.flexible, n)`: the schedules of each subset in
      turn, appended to those built for the subsets visited before. */
  method AddSubsets(catalog: Catalog, subsets: seq<seq<nat>>, minCredits: int, maxCredits: int,
                    built: seq<Schedule>, ghost visited: seq<seq<nat>>)
    returns (ss: seq<Schedule>)
    requires Created(built, CandidatesOf(catalog, visited, minCredits, maxCredits)) && NoDuplicates(built)
    ensures Created(ss, CandidatesOf(catalog, visited + subsets, minCredits, maxCredits))
    ensures NoDuplicates(ss) && forall s :: s in ss ==> s in built || fresh(s)
  {
    ss := built;
    assert visited + subsets[..0] == visited;
    for c := 0 to |subsets|
      invariant Created(ss, CandidatesOf(catalog, visited + subsets[..c], minCredits, maxCredits))
      invariant NoDuplicates(ss) && forall s :: s in ss ==> s in built || fresh(s)
    {
      ghost var cands := CandidatesOf(catalog, visited + subsets[..c], minCredits, maxCredits);
      ss := AddSchedules(catalog, subsets[c], minCredits, maxCredits, ss, cands);
      CandidatesOfSnoc(catalog, visited + subsets[..c], subsets[c], minCredits, maxCredits);
      SliceSnoc(visited, subsets, c);
    }
    assert subsets[..|subsets|] == subsets;
  }

  /** The enumeration loops: subsets by size, then in `itertools.combinations` order. */
  method BuildSchedules(catalog: Catalog, minCredits: int, maxCredits: int) returns (ss: seq<Schedule>)
    ensures Created(ss, Candidates(catalog, minCredits, maxCredits))
    ensures NoDuplicates(ss) && forall s :: s in ss ==> fresh(s)
  {
    var m := |catalog.flexible|;
    ss := [];
    for n := 0 to m + 1
      invariant Created(ss, CandidatesOf(catalog, Subsets(m, n), minCredits, maxCredits))
      invariant NoDuplicates(ss) && forall s :: s in ss ==> fresh(s)
    {
      ss := AddSubsets(catalog, Combinations(0, m, n), minCredits, maxCredits, ss, Subsets(m, n));
    }
  }

  predicate Conflictless(s: Schedule) { NoConflict(s.sections) }

  predicate WeekdaySchedule(s: Schedule) { Weekdays(s.sections) }

  predicate RestfulSchedule(s: Schedule) { Restful(s.sections) }

  /** `[f for f in self.schedules if f.contains_conflict() == False]`. */
  method DropConflicts(ss: seq<Schedule>) returns (kept: seq<Schedule>)
    ensures kept == Filter(Conflictless, ss)
  {
    kept := [];
    for i := 0 to |ss|
      invariant kept == Filter(Conflictless, ss[..i])
    {
      FilterStep(Conflictless, ss, i);
      var conflict := ss[i].HasConflict();
      if !conflict {
        kept := kept + [ss[i]];
      }
    }
    FilterAll(Conflictless, ss);
  }

  /** `schedule.calculate()` on every schedule, each calculated once from its initial state. */
  method CalculateAll(ss: seq<Schedule>)
    requires NoDuplicates(ss)
    requires forall s :: s in ss ==> s.Unmeasured()
    modifies set s | s in ss
    ensures forall s :: s in ss ==> s.Measured() && s.credits == old(s.credits)
  {
    for i := 0 to |ss|
      invariant forall k :: 0 <= k < i ==> ss[k].Measured()
      invariant forall k :: i <= k < |ss| ==> ss[k].Unmeasured()
      invariant forall s :: s in ss ==> s.credits == old(s.credits)
    {
      assert forall k :: 0 <= k < |ss| && k != i ==> ss[k] != ss[i];
      ss[i].Calculate();
    }
  }

  /** `[f for f in self.schedules if f.saturday_class == False]`. */
  method DropSaturdays(ss: seq<Schedule>) returns (kept: seq<Schedule>)
    requires forall s :: s in ss ==> s.SaturdayKnown()
    ensures kept == Filter(WeekdaySchedule, ss)
  {
    kept := [];
    for i := 0 to |ss|
      invariant kept == Filter(WeekdaySchedule, ss[..i])
    {
      FilterStep(WeekdaySchedule, ss, i);
      assert WeekdaySchedule(ss[i]) == (!ss[i].saturdayClass) by {
        assert ss[i] in ss;
      }
      if !ss[i].saturdayClass {
        kept := kept + [ss[i]];
      }
    }
    FilterAll(WeekdaySchedule, ss);
  }

  /** `[f for f in self.schedules if f.sleepless == 0]`. */
  method DropSleepless(ss: seq<Schedule>) returns (kept: seq<Schedule>)
    requires forall s :: s in ss ==> s.SleeplessKnown()
    ensures kept == Filter(RestfulSchedule, ss)
  {
    kept := [];
    for i := 0 to |ss|
      invariant kept == Filter(RestfulSchedule, ss[..i])
    {
      FilterStep(RestfulSchedule, ss, i);
      assert RestfulSchedule(ss[i]) == (ss[i].sleepless == 0) by {
        assert ss[i] in ss;
      }
      if ss[i].sleepless == 0 {
        kept := kept + [ss[i]];
      }
    }
    FilterAll(RestfulSchedule, ss);
  }

  /** The keys read from the schedules' fields are the keys of their layouts. */
  lemma KeysOfSchedules(ss: seq<Schedule>, keys: seq<Key>)
    requires forall s :: s in ss ==> s.TimesKnown()
    requires |keys| == |ss| && forall k :: 0 <= k < |ss| ==> keys[k] == Key(ss[k].classTime, ss[k].totalTime)
    ensures keys == Map(KeyOf, Layouts(ss))
  {
    forall k | 0 <= k < |ss| ensures keys[k] == KeyOf(ss[k].sections) {
      assert ss[k] in ss;
    }
  }

  /** A schedule whose total time is zero makes the keys indivisible. */
  lemma ZeroTotal(ss: seq<Schedule>, i: nat)
    requires i < |ss| && ss[i].TimesKnown() && ss[i].totalTime == 0
    ensures !Divisible(Map(KeyOf, Layouts(ss)))
  {
    assert Map(KeyOf, Layouts(ss))[i].totalTime == 0;
  }

  /** `sort(key=lambda x: x.class_time / x.total_time, reverse=True)`: every key is computed
      first, left to right, and a zero total time raises before anything is reordered; otherwise
      the stable descending order of the keys. */
  method Rank(ss: seq<Schedule>) returns (r: Result<seq<Schedule>>)
    requires forall s :: s in ss ==> s.TimesKnown()
    ensures var keys := Map(KeyOf, Layouts(ss));
      r == if Divisible(keys) then Ok(Permute(ss, RankOrder(keys, |keys|))) else Err(ZeroTotalTime)
  {
    var keys: seq<Key> := [];
    for i := 0 to |ss|
      invariant |keys| == i
      invariant forall k :: 0 <= k < i ==> keys[k] == Key(ss[k].classTime, ss[k].totalTime) && keys[k].totalTime != 0
    {
      if ss[i].totalTime == 0 {
        assert ss[i] in ss;
        ZeroTotal(ss, i);
        return Err(ZeroTotalTime);
      }
      keys := keys + [Key(ss[i].classTime, ss[i].totalTime)];
    }
    KeysOfSchedules(ss, keys);
    r := Ok(Permute(ss, RankOrder(keys, |keys|)));
  }

  /** The inner `for` loop of both selection loops: does the schedule match any schedule
      already saved? (The loop does not stop at the first match.) */
  method MatchesAny(candidate: Schedule, printed: seq<Schedule>) returns (matched: bool)
    ensures matched == exists j :: 0 <= j < |printed| && SameLayout(candidate.sections, printed[j].sections)
  {
    matched := false;
    for k := 0 to |printed|
      invariant matched == exists j :: 0 <= j < k && SameLayout(candidate.sections, printed[j].sections)
    {
      var same := candidate.Matches(printed[k]);
      if same {
        matched := true;
      }
    }
  }

  /** `already_printed` holds the schedules at the saved positions, in order. */
  predicate Saved(layouts: seq<seq<Section>>, saved: seq<nat>, printed: seq<Schedule>)
  {
    |printed| == |saved| &&
    forall j :: 0 <= j < |saved| ==> saved[j] < |layouts| && printed[j].sections == layouts[saved[j]]
  }

  /** Matching a saved schedule is matching a chosen layout. */
  lemma MatchesSaved(layouts: seq<seq<Section>>, x: nat, saved: seq<nat>, printed: seq<Schedule>)
    requires x < |layouts| && Saved(layouts, saved, printed)
    ensures MatchesChosen(layouts[x], layouts, SameLayout, saved) <==>
      exists j :: 0 <= j < |printed| && SameLayout(layouts[x], printed[j].sections)
  {
    if MatchesChosen(layouts[x], layouts, SameLayout, saved) {
      var k :| 0 <= k < |saved| && saved[k] < |layouts| && SameLayout(layouts[x], layouts[saved[k]]);
      assert SameLayout(layouts[x], printed[k].sections);
    }
  }

  /** The body of both selection loops for the schedule at walk position x: save it unless it
      matches a schedule already saved. */
  method SelectStep(layouts: seq<seq<Section>>, x: nat, candidate: Schedule, saved: seq<nat>, printed: seq<Schedule>)
    returns (saved': seq<nat>, printed': seq<Schedule>)
    requires x < |layouts| && candidate.sections == layouts[x]
    requires saved == Chosen(layouts, SameLayout, x) && |saved| < ImageLimit && Saved(layouts, saved, printed)
    ensures saved' == Chosen(layouts, SameLayout, x + 1) && Saved(layouts, saved', printed')
  {
    var matched := MatchesAny(candidate, printed);
    MatchesSaved(layouts, x, saved, printed);
    saved', printed' := saved, printed;
    if !matched {
      printed' := printed + [candidate];
      saved' := saved + [x];
    }
  }

  /** The first `while` loop: walk down the ranking, saving a schedule unless it matches one
      already saved, until ten are saved. */
  method ChoosePreferred(ranked: seq<Schedule>) returns (saved: seq<nat>)
    ensures saved == Chosen(Layouts(ranked), SameLayout, |ranked|)
  {
    var layouts := Layouts(ranked);
    var printed: seq<Schedule> := [];
    saved := [];
    var x := 0;
    while |printed| < ImageLimit && x < |ranked|
      invariant x <= |ranked| && saved == Chosen(layouts, SameLayout, x) && Saved(layouts, saved, printed)
      decreases |ranked| - x
    {
      saved, printed := SelectStep(layouts, x, ranked[x], saved, printed);
      x := x + 1;
    }
    if x < |ranked| {
      ChosenFull(layouts, SameLayout, x, |ranked|);
    }
  }

  /** The second `while` loop: the same walk from the bottom of the ranking (`self.schedules[-x - 1]`). */
  method ChooseUndesirable(ranked: seq<Schedule>) returns (saved: seq<nat>)
    ensures saved == Chosen(Reverse(Layouts(ranked)), SameLayout, |ranked|)
  {
    var layouts := Reverse(Layouts(ranked));
    var printed: seq<Schedule> := [];
    saved := [];
    var x := 0;
    while |printed| < ImageLimit && x < |ranked|
      invariant x <= |ranked| && saved == Chosen(layouts, SameLayout, x) && Saved(layouts, saved, printed)
      decreases |ranked| - x
    {
      saved, printed := SelectStep(layouts, x, ranked[|ranked| - x - 1], saved, printed);
      x := x + 1;
    }
    if x < |ranked| {
      ChosenFull(layouts, SameLayout, x, |ranked|);
    }
  }

  /** Every schedule has had its figures calculated and carries the credits of a candidate with
      its sections. */
  predicate MeasuredCandidates(ss: seq<Schedule>, cands: seq<Candidate>)
    reads ss
  {
    forall s :: s in ss ==> s.Measured() && Candidate(s.sections, s.credits) in cands
  }

  /** Reordering the schedules keeps them measured candidates. */
  lemma MeasuredPermute(ss: seq<Schedule>, order: seq<nat>, cands: seq<Candidate>)
    requires forall k :: 0 <= k < |order| ==> order[k] < |ss|
    requires MeasuredCandidates(ss, cands)
    ensures MeasuredCandidates(Permute(ss, order), cands)
  {
    forall s | s in Permute(ss, order) ensures s in ss {
      var k :| 0 <= k < |order| && Permute(ss, order)[k] == s;
    }
  }

  /** The layouts of the created objects are the candidates' sections. */
  lemma CreatedLayouts(ss: seq<Schedule>, cands: seq<Candidate>)
    requires Created(ss, cands)
    ensures Layouts(ss) == Map(CandidateSections, cands)
  {
  }

  /** The stages between building and ranking: drop conflicts, calculate every schedule left,
      drop Saturday classes, drop sleepless nights. */
  method Survive(built: seq<Schedule>, ghost cands: seq<Candidate>) returns (rested: seq<Schedule>)
    requires NoDuplicates(built) && Created(built, cands)
    modifies set s | s in built
    ensures Layouts(rested) == Survivors(Layouts(built))
    ensures MeasuredCandidates(rested, cands)
  {
    var free := DropConflicts(built);
    assert Layouts(free) == Filter(NoConflict, Layouts(built)) by {
      FilterMap(SectionsOf, NoConflict, Conflictless, built);
    }
    FilterDistinct(Conflictless, built);
    forall s | s in free ensures s in built && s.Unmeasured() {
      InFilter(Conflictless, built, s);
    }
    CalculateAll(free);

    var weekdays := DropSaturdays(free);
    assert Layouts(weekdays) == Filter(Weekdays, Layouts(free)) by {
      FilterMap(SectionsOf, Weekdays, WeekdaySchedule, free);
    }
    forall s | s in weekdays ensures s in free {
      InFilter(WeekdaySchedule, free, s);
    }
    rested := DropSleepless(weekdays);
    assert Layouts(rested) == Filter(Restful, Layouts(weekdays)) by {
      FilterMap(SectionsOf, Restful, RestfulSchedule, weekdays);
    }
    forall s | s in rested ensures s in free {
      InFilter(RestfulSchedule, weekdays, s);
    }
  }

  // ---------------------------------------------------------------------------------------------
  // The generator object

  class ScheduleGenerator {
    const required: seq<Course>
    const flexible: seq<Course>
    var schedules: seq<Schedule>

    constructor(catalog: Catalog)
      ensures required == catalog.required && flexible == catalog.flexible && schedules == []
    {
      required, flexible := catalog.required, catalog.flexible;
      schedules := [];
    }

    /** `generate_schedules`, with the credit window `MIN_CREDITS`..`MAX_CREDITS` (in tenths of a
        credit) as parameters and the saved images as the positions chosen for them. */
    method GenerateSchedules(minCredits: int, maxCredits: int) returns (r: Result<Selection>)
      modifies this
      ensures Run(Layouts(schedules), r) == Generated(Catalog(required, flexible), minCredits, maxCredits)
      ensures MeasuredCandidates(schedules, Candidates(Catalog(required, flexible), minCredits, maxCredits))
    {
      var catalog := Catalog(required, flexible);
      var cands := Candidates(catalog, minCredits, maxCredits);
      var built := BuildSchedules(catalog, minCredits, maxCredits);
      CreatedLayouts(built, cands);
      var rested := Survive(built, cands);
      var ranking := Rank(rested);
      if ranking.Err? {
        assert MeasuredCandidates(rested, cands);
        schedules := rested;
        return Err(ranking.error);
      }
      var ranked := ranking.value;
      var keys := Map(KeyOf, Layouts(rested));
      MeasuredPermute(rested, RankOrder(keys, |keys|), cands);
      assert Layouts(ranked) == Permute(Layouts(rested), RankOrder(keys, |keys|));
      var preferred := ChoosePreferred(ranked);
      var undesirable := ChooseUndesirable(ranked);
      assert MeasuredCandidates(ranked, cands);
      schedules := ranked;
      r := Ok(Selection(preferred, undesirable));
    }
  }

  /** `ScheduleGenerator(input_dicts)`: reads the catalog from the rows, or fails as reading it does. */
  method NewGenerator(rows: seq<Row>) returns (r: Result<ScheduleGenerator>)
    ensures r.Ok? <==> CatalogOf(rows).Ok?
    ensures r.Ok? ==>
      fresh(r.value) && r.value.schedules == [] &&
      Catalog(r.value.required, r.value.flexible) == CatalogOf(rows).value
    ensures r.Err? ==> r.error == CatalogOf(rows).error
  {
    var catalog := ReadCatalog(rows);
    if catalog.Err? {
      return Err(catalog.error);
    }
    var generator := new ScheduleGenerator(catalog.value);
    r := Ok(generator);
  }

  // ---------------------------------------------------------------------------------------------
  // What a run promises

  /** A schedule survives exactly when it has no conflict, no Saturday class and no sleepless
      night. */
  lemma SurvivorsMeaning(layouts: seq<seq<Section>>, layout: seq<Section>)
    ensures layout in Survivors(layouts) <==>
      layout in layouts && !ContainsConflict(layout) && !SaturdayClass(layout) && SleeplessCount(layout) == 0
  {
    var free := Filter(NoConflict, layouts);
    var weekdays := Filter(Weekdays, free);
    InFilter(NoConflict, layouts, layout);
    InFilter(Weekdays, free, layout);
    InFilter(Restful, weekdays, layout);
  }

  /** A run fails exactly when a surviving schedule has no meeting at all, so that its total time
      is zero; it then fails with ZeroTotalTime and leaves the survivors in creation order. */
  lemma GeneratedFails(catalog: Catalog, minCredits: int, maxCredits: int)
    ensures var survivors := Survivors(Built(catalog, minCredits, maxCredits));
      var run := Generated(catalog, minCredits, maxCredits);
      && (run.outcome.Err? <==> exists k :: 0 <= k < |survivors| && AllBlocks(survivors[k]) == [])
      && (run.outcome.Err? ==> run.outcome.error == ZeroTotalTime && run.schedules == survivors)
  {
    var survivors := Survivors(Built(catalog, minCredits, maxCredits));
    var keys := Map(KeyOf, survivors);
    forall k | 0 <= k < |survivors| ensures keys[k].totalTime == 0 <==> AllBlocks(survivors[k]) == [] {
      TotalTimeMeaning(survivors[k]);
    }
  }

  /** A successful run ranks the survivors: the same schedules, as often each, and never a higher
      share of class time after a lower one. */
  lemma GeneratedRanking(catalog: Catalog, minCredits: int, maxCredits: int)
    requires Generated(catalog, minCredits, maxCredits).outcome.Ok?
    ensures var survivors := Survivors(Built(catalog, minCredits, maxCredits));
      var ranked := Generated(catalog, minCredits, maxCredits).schedules;
      && multiset(ranked) == multiset(survivors)
      && forall a, b :: 0 <= a < b < |ranked| ==> !RatioAbove(KeyOf(ranked[b]), KeyOf(ranked[a]))
  {
    RankByKey(Survivors(Built(catalog, minCredits, maxCredits)), KeyOf);
  }
}
