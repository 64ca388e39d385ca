/** One candidate weekly schedule (`Schedule`): a section per corequisite group, and the figures
    `calculate` derives from the week's blocks. */
module Schedules {
  import opened Clock
  import opened Blocks
  import opened Lists
  import opened Sections

  // ---------------------------------------------------------------------------------------------
  // The week's blocks

  /** Every block of every section, section by section (`itertools.chain.from_iterable`). */
  function AllBlocks(sections: seq<Section>): seq<Block>
  {
    if sections == [] then []
    else AllBlocks(sections[..|sections| - 1]) + sections[|sections| - 1].blocks
  }

  /** The blocks of blocks that fall on the given weekday, in their order. */
  function OnDay(blocks: seq<Block>, date: int): seq<Block>
  {
    if blocks == [] then []
    else
      var last := blocks[|blocks| - 1];
      OnDay(blocks[..|blocks| - 1], date) + (if last.date == date then [last] else [])
  }

  /** The seven day buckets (Monday first) that appending every block to `days[block.date - 1]`
      fills. */
  function DaysOf(blocks: seq<Block>): (days: seq<seq<Block>>)
    ensures |days| == 7
  {
    seq(7, n requires 0 <= n < 7 => OnDay(blocks, n + 1))
  }

  /** The day buckets of a schedule: its blocks sorted by start, then bucketed by weekday. */
  function Days(sections: seq<Section>): (days: seq<seq<Block>>)
    ensures |days| == 7
  {
    DaysOf(SortByStart(AllBlocks(sections)))
  }

  // ---------------------------------------------------------------------------------------------
  // Times

  /** The break between two consecutive blocks of a day, as `timedelta.seconds / 60` gives it:
      the difference modulo one day, so an overlap wraps round to a long break. */
  function Gap(prev: Block, next: Block): (r: nat)
    ensures r < 1440
    ensures prev.end <= next.start ==> r == next.start - prev.end
    ensures prev.end > next.start ==> r == 1440 + next.start - prev.end
  {
    (next.start - prev.end) % 1440
  }

  /** The lengths of the blocks of a day, added up. */
  function DurationSum(day: seq<Block>): nat
  {
    if day == [] then 0 else DurationSum(day[..|day| - 1]) + Duration(day[|day| - 1])
  }

  /** The breaks between consecutive blocks of a day, added up. */
  function GapSum(day: seq<Block>): nat
  {
    if |day| < 2 then 0 else GapSum(day[..|day| - 1]) + Gap(day[|day| - 2], day[|day| - 1])
  }

  /** 2 hours of travel for each of the first n days that has a block. */
  function TravelTime(days: seq<seq<Block>>, n: nat): nat
    requires n <= |days|
  {
    if n == 0 then 0 else TravelTime(days, n - 1) + (if days[n - 1] != [] then 120 else 0)
  }

  /** The length of every block of the first n days. */
  function ClassTime(days: seq<seq<Block>>, n: nat): nat
    requires n <= |days|
  {
    if n == 0 then 0 else ClassTime(days, n - 1) + DurationSum(days[n - 1])
  }

  /** The breaks of the first n days. */
  function BreakTime(days: seq<seq<Block>>, n: nat): nat
    requires n <= |days|
  {
    if n == 0 then 0 else BreakTime(days, n - 1) + GapSum(days[n - 1])
  }

  /** The time the first n days take: for each day with a block, the travel, the blocks and the
      breaks between them. */
  function TotalTime(days: seq<seq<Block>>, n: nat): nat
    requires n <= |days|
  {
    if n == 0 then 0
    else
      var day := days[n - 1];
      TotalTime(days, n - 1) + (if day != [] then 120 + DurationSum(day) + GapSum(day) else 0)
  }

  // ---------------------------------------------------------------------------------------------
  // Early mornings, late nights, sleepless nights

  /** 12:00AM - 09:00AM on the given weekday. */
  function Morning(date: Weekday): Block { Block(date, 0, 540, "") }

  /** 05:00PM - 11:59PM on the given weekday. */
  function Night(date: Weekday): Block { Block(date, 1020, 1439, "") }

  /** Some block of the day collides with the morning of its weekday. */
  predicate EarlyDay(day: seq<Block>, date: Weekday)
  {
    exists i :: 0 <= i < |day| && Collides(day[i], Morning(date))
  }

  /** Some block of the day collides with the night of its weekday. */
  predicate LateDay(day: seq<Block>, date: Weekday)
  {
    exists i :: 0 <= i < |day| && Collides(day[i], Night(date))
  }

  /** The early-morning flag of each weekday, Monday first. */
  function EarlyFlags(days: seq<seq<Block>>): (flags: seq<bool>)
    requires |days| == 7
    ensures |flags| == 7
  {
    seq(7, n requires 0 <= n < 7 => EarlyDay(days[n], n + 1))
  }

  /** The late-night flag of each weekday, Monday first. */
  function LateFlags(days: seq<seq<Block>>): (flags: seq<bool>)
    requires |days| == 7
    ensures |flags| == 7
  {
    seq(7, n requires 0 <= n < 7 => LateDay(days[n], n + 1))
  }

  /** The number of the first n weekdays whose late night is followed by an early morning the next
      day. */
  function SleeplessNights(early: seq<bool>, late: seq<bool>, n: nat): nat
    requires n < |early| && n <= |late|
  {
    if n == 0 then 0
    else SleeplessNights(early, late, n - 1) + (if late[n - 1] && early[n] then 1 else 0)
  }

  // ---------------------------------------------------------------------------------------------
  // Conflicts and layouts

  /** `Section.__eq__`: some block of a collides with some block of b. */
  predicate SectionsCollide(a: Section, b: Section)
  {
    exists i, j :: 0 <= i < |a.blocks| && 0 <= j < |b.blocks| && Collides(a.blocks[i], b.blocks[j])
  }

  /** `contains_conflict`: two sections of different course codes collide (in either order, since
      every ordered pair is tried). */
  predicate ContainsConflict(sections: seq<Section>)
  {
    exists i, j :: 0 <= i < |sections| && 0 <= j < |sections| &&
      sections[i].code != sections[j].code && SectionsCollide(sections[i], sections[j])
  }

  /** Two blocks count as the same meeting in `Schedule.__eq__`: same code, and the same start and
      end datetimes (which carry the weekday). */
  predicate SameMeeting(a: Block, b: Block)
  {
    a.code == b.code && a.date == b.date && a.start == b.start && a.end == b.end
  }

  /** Some block of blocks is the same meeting as x (the inner loop's `block_match`). */
  predicate Matched(x: Block, blocks: seq<Block>)
  {
    exists j :: 0 <= j < |blocks| && SameMeeting(x, blocks[j])
  }

  /** `Schedule.__eq__`: every block of self has the same meeting among the blocks of other. */
  predicate SameLayout(self: seq<Section>, other: seq<Section>)
  {
    forall i :: 0 <= i < |AllBlocks(self)| ==> Matched(AllBlocks(self)[i], AllBlocks(other))
  }

  /** `Section.__eq__` as its nested loop runs it: stop at the first block of a that collides with
      a block of b. */
  method SectionsClash(a: Section, b: Section) returns (r: bool)
    ensures r == SectionsCollide(a, b)
  {
    for p := 0 to |a.blocks|
      invariant forall i, j :: 0 <= i < p && 0 <= j < |b.blocks| ==> !Collides(a.blocks[i], b.blocks[j])
    {
      for q := 0 to |b.blocks|
        invariant forall j :: 0 <= j < q ==> !Collides(a.blocks[p], b.blocks[j])
      {
        if Collides(a.blocks[p], b.blocks[q]) {
          return true;
        }
      }
    }
    return false;
  }

  /** A schedule with these sections meets on a Saturday. */
  predicate SaturdayClass(sections: seq<Section>)
  {
    Days(sections)[5] != []
  }

  /** The number of sleepless nights `calculate` finds in a schedule with these sections. */
  function SleeplessCount(sections: seq<Section>): nat
  {
    var days := Days(sections);
    SleeplessNights(EarlyFlags(days), LateFlags(days), 6)
  }

  // ---------------------------------------------------------------------------------------------
  // The schedule object

  /** A schedule: its sections never change; the credits are set once it is created, and
      `calculate` adds the week's figures to the others. */
  class Schedule {
    const sections: seq<Section>
    var credits: int
    var earlyMorns: int
    var lateNights: int
    var sleepless: int
    var saturdayClass: bool
    var totalTime: int
    var travelTime: int
    var classTime: int

    /** `Schedule.__init__`: every figure starts at zero. */
    constructor(sections: seq<Section>)
      ensures this.sections == sections && credits == 0 && Unmeasured()
    {
      this.sections := sections;
      credits := 0;
      earlyMorns, lateNights, sleepless := 0, 0, 0;
      saturdayClass := false;
      totalTime, travelTime, classTime := 0, 0, 0;
    }

    /** Nothing has been calculated yet: every figure is as `__init__` leaves it. */
    predicate Unmeasured()
      reads this
    {
      earlyMorns == 0 && lateNights == 0 && sleepless == 0 && !saturdayClass &&
      totalTime == 0 && travelTime == 0 && classTime == 0
    }

    /** Every figure is what one `calculate` on a fresh schedule gives for its sections. */
    predicate Measured()
      reads this
    {
      SaturdayKnown() && TimesKnown() && FlagsKnown() && SleeplessKnown()
    }

    predicate SaturdayKnown()
      reads this
    {
      saturdayClass == SaturdayClass(sections)
    }

    predicate TimesKnown()
      reads this
    {
      var days := Days(sections);
      travelTime == TravelTime(days, 7) && classTime == ClassTime(days, 7) && totalTime == TotalTime(days, 7)
    }

    predicate FlagsKnown()
      reads this
    {
      var days := Days(sections);
      earlyMorns == CountTrue(EarlyFlags(days)) && lateNights == CountTrue(LateFlags(days))
    }

    predicate SleeplessKnown()
      reads this
    {
      sleepless == SleeplessCount(sections)
    }

    /** `contains_conflict`: tries every ordered pair of sections of different courses and stops at
        the first pair that collides. */
    method HasConflict() returns (r: bool)
      ensures r == ContainsConflict(sections)
    {
      for i := 0 to |sections|
        invariant forall i', j :: 0 <= i' < i && 0 <= j < |sections| && sections[i'].code != sections[j].code ==>
          !SectionsCollide(sections[i'], sections[j])
      {
        for j := 0 to |sections|
          invariant forall j' :: 0 <= j' < j && sections[i].code != sections[j'].code ==>
            !SectionsCollide(sections[i], sections[j'])
        {
          if sections[i].code != sections[j].code {
            var clash := SectionsClash(sections[i], sections[j]);
            if clash {
              return true;
            }
          }
        }
      }
      return false;
    }

    /** `__eq__`: every block of this schedule must find the same meeting among the other's
        blocks. */
    method Matches(other: Schedule) returns (r: bool)
      ensures r == SameLayout(sections, other.sections)
    {
      var mine, theirs := AllBlocks(sections), AllBlocks(other.sections);
      var schedMatch := true;
      for i := 0 to |mine|
        invariant schedMatch == forall k :: 0 <= k < i ==> Matched(mine[k], theirs)
      {
        var blockMatch := false;
        for j := 0 to |theirs|
          invariant blockMatch == exists k :: 0 <= k < j && SameMeeting(mine[i], theirs[k])
        {
          if SameMeeting(mine[i], theirs[j]) {
            blockMatch := true;
          }
        }
        assert blockMatch == Matched(mine[i], theirs);
        if !blockMatch {
          schedMatch := false;
        }
      }
      return schedMatch;
    }

    /** `calculate`: sort the blocks by start and bucket them by weekday, then add each day's
        travel, block and break minutes to the running figures, flag Saturday classes, set the
        early-morning and late-night day counts and add the sleepless nights from Monday to
        Saturday (the night before Monday is not looked at). */
    method Calculate()
      modifies this
      ensures credits == old(credits)
      ensures old(Unmeasured()) ==> Measured()
      ensures var days := Days(sections);
        && saturdayClass == (old(saturdayClass) || days[5] != [])
        && travelTime == old(travelTime) + TravelTime(days, 7)
        && classTime == old(classTime) + ClassTime(days, 7)
        && totalTime == old(totalTime) + TotalTime(days, 7)
        && earlyMorns == CountTrue(EarlyFlags(days))
        && lateNights == CountTrue(LateFlags(days))
        && sleepless == old(sleepless) + SleeplessNights(EarlyFlags(days), LateFlags(days), 6)
    {
      var blocks := SortByStart(AllBlocks(sections));
      var days := BucketByDay(blocks);
      if days[6 - 1] != [] {
        saturdayClass := true;
      }
      AddTimes(days);
      AddDayFlags(days);
    }

    /** The loop of `calculate` over the seven days adding travel, block and break minutes. */
    method AddTimes(days: seq<seq<Block>>)
      requires |days| == 7
      modifies this
      ensures travelTime == old(travelTime) + TravelTime(days, 7)
      ensures classTime == old(classTime) + ClassTime(days, 7)
      ensures totalTime == old(totalTime) + TotalTime(days, 7)
      ensures credits == old(credits) && saturdayClass == old(saturdayClass)
      ensures earlyMorns == old(earlyMorns) && lateNights == old(lateNights)
      ensures sleepless == old(sleepless)
    {
      for d := 0 to 7
        invariant travelTime == old(travelTime) + TravelTime(days, d)
        invariant classTime == old(classTime) + ClassTime(days, d)
        invariant totalTime == old(totalTime) + TotalTime(days, d)
        invariant credits == old(credits) && saturdayClass == old(saturdayClass)
        invariant earlyMorns == old(earlyMorns) && lateNights == old(lateNights)
        invariant sleepless == old(sleepless)
      {
        var day := days[d];
        if day != [] {
          travelTime := travelTime + 2 * 60;
          totalTime := totalTime + 2 * 60;
          var durations := AddDurations(day);
          classTime := classTime + durations;
          totalTime := totalTime + durations;
          var breaks := AddBreaks(day);
          totalTime := totalTime + breaks;
        }
      }
    }

    /** The early-morning and late-night part of `calculate`: the day counts are set, the
        sleepless nights added. */
    method AddDayFlags(days: seq<seq<Block>>)
      requires |days| == 7
      modifies this
      ensures earlyMorns == CountTrue(EarlyFlags(days))
      ensures lateNights == CountTrue(LateFlags(days))
      ensures sleepless == old(sleepless) + SleeplessNights(EarlyFlags(days), LateFlags(days), 6)
      ensures credits == old(credits) && saturdayClass == old(saturdayClass)
      ensures travelTime == old(travelTime) && classTime == old(classTime)
      ensures totalTime == old(totalTime)
    {
      var early, late := FlagDays(days);
      earlyMorns := CountTrue(early);
      lateNights := CountTrue(late);
      for n := 0 to 6
        invariant sleepless == old(sleepless) + SleeplessNights(early, late, n)
        invariant earlyMorns == CountTrue(early) && lateNights == CountTrue(late)
        invariant credits == old(credits) && saturdayClass == old(saturdayClass)
        invariant travelTime == old(travelTime) && classTime == old(classTime)
        invariant totalTime == old(totalTime)
      {
        if late[n] && early[n + 1] {
          sleepless := sleepless + 1;
        }
      }
    }
  }

  /** The bucketing loop of `calculate`. */
  method BucketByDay(blocks: seq<Block>) returns (days: seq<seq<Block>>)
    ensures days == DaysOf(blocks)
  {
    days := [[], [], [], [], [], [], []];
    for k := 0 to |blocks|
      invariant |days| == 7
      invariant forall d :: 0 <= d < 7 ==> days[d] == OnDay(blocks[..k], d + 1)
    {
      var block := blocks[k];
      assert blocks[..k + 1][..k] == blocks[..k];
      days := days[block.date - 1 := days[block.date - 1] + [block]];
    }
    assert blocks[..|blocks|] == blocks;
  }

  /** The loop adding up the lengths of a day's blocks. */
  method AddDurations(day: seq<Block>) returns (total: nat)
    ensures total == DurationSum(day)
  {
    total := 0;
    for k := 0 to |day|
      invariant total == DurationSum(day[..k])
    {
      assert day[..k + 1][..k] == day[..k];
      total := total + Duration(day[k]);
    }
    assert day[..|day|] == day;
  }

  /** The loop adding up the breaks between consecutive blocks of a non-empty day. */
  method AddBreaks(day: seq<Block>) returns (total: nat)
    requires day != []
    ensures total == GapSum(day)
  {
    total := 0;
    for n := 0 to |day| - 1
      invariant total == GapSum(day[..n + 1])
    {
      assert day[..n + 2][..n + 1] == day[..n + 1];
      total := total + Gap(day[n], day[n + 1]);
    }
    assert day[..|day|] == day;
  }

  /** The loop over the blocks of one day testing them against its morning and its night. */
  method DayFlags(day: seq<Block>, date: Weekday) returns (early: bool, late: bool)
    ensures early == EarlyDay(day, date) && late == LateDay(day, date)
  {
    var morning, night := Morning(date), Night(date);
    early, late := false, false;
    for k := 0 to |day|
      invariant early == exists i :: 0 <= i < k && Collides(day[i], morning)
      invariant late == exists i :: 0 <= i < k && Collides(day[i], night)
    {
      if Collides(day[k], morning) {
        early := true;
      }
      if Collides(day[k], night) {
        late := true;
      }
    }
  }

  /** The loop setting the early-morning and late-night flag of each weekday in two seven-entry
      buffers; the result is their final contents. */
  method FlagDays(days: seq<seq<Block>>) returns (early: seq<bool>, late: seq<bool>)
    requires |days| == 7
    ensures early == EarlyFlags(days) && late == LateFlags(days)
  {
    var earlyMorn := new bool[7](_ => false);
    var lateNight := new bool[7](_ => false);
    for n := 0 to 7
      invariant forall m :: 0 <= m < n ==> earlyMorn[m] == EarlyDay(days[m], m + 1)
      invariant forall m :: 0 <= m < n ==> lateNight[m] == LateDay(days[m], m + 1)
    {
      earlyMorn[n], lateNight[n] := DayFlags(days[n], n + 1);
    }
    early, late := earlyMorn[..], lateNight[..];
  }

  // ---------------------------------------------------------------------------------------------
  // What the figures mean

  /** A time field made of an hour, a colon, minutes and a meridiem reads field by field. */
  lemma ReadTimeFields(hour: string, minute: string, suffix: string)
    requires hour != [] && !IsSpace(hour[0]) && ':' !in hour && |minute| >= 1 && |suffix| == 2
    ensures var h, m, p := ParseHour12(hour), ParseMinuteField(minute), ParseMeridiem(suffix);
      ReadTime(hour + ":" + minute + suffix) ==
        if h.None? || m.None? || p.None? then None else Some(To24Hour(h.value, p.value) * 60 + m.value)
  {
    ParseClockFields(hour, minute, suffix);
    assert SkipSpace(hour + ":" + minute + suffix) == hour + ":" + minute + suffix;
  }

  /** The morning window is the one `calculate` reads from "12:00AM" and "09:00AM". */
  lemma MorningTimes()
    ensures ReadTime("12:00AM") == Some(Morning(1).start) && ReadTime("09:00AM") == Some(Morning(1).end)
  {
    ReadsMidnight("12:00AM");
    ReadsNine("09:00AM");
  }

  /** The night window is the one `calculate` reads from "05:00PM" and "11:59PM". */
  lemma NightTimes()
    ensures ReadTime("05:00PM") == Some(Night(1).start) && ReadTime("11:59PM") == Some(Night(1).end)
  {
    ReadsFive("05:00PM");
    ReadsLastMinute("11:59PM");
  }

  lemma ReadsMidnight(s: string)
    requires s == "12:00AM"
    ensures ReadTime(s) == Some(0)
  {
    ReadSevenChars(s);
    assert s[..2] == "12" && s[3..5] == "00" && s[5..] == "AM";
  }

  lemma ReadsNine(s: string)
    requires s == "09:00AM"
    ensures ReadTime(s) == Some(540)
  {
    ReadSevenChars(s);
    assert s[..2] == "09" && s[3..5] == "00" && s[5..] == "AM";
  }

  lemma ReadsFive(s: string)
    requires s == "05:00PM"
    ensures ReadTime(s) == Some(1020)
  {
    ReadSevenChars(s);
    assert s[..2] == "05" && s[3..5] == "00" && s[5..] == "PM";
  }

  lemma ReadsLastMinute(s: string)
    requires s == "11:59PM"
    ensures ReadTime(s) == Some(1439)
  {
    ReadSevenChars(s);
    assert s[..2] == "11" && s[3..5] == "59" && s[5..] == "PM";
  }

  /** A seven-character time "hh:mmAM" reads field by field. */
  lemma ReadSevenChars(s: string)
    requires |s| == 7 && s[2] == ':' && s[0] != ':' && s[1] != ':' && !IsSpace(s[0])
    ensures var h, m, p := ParseHour12(s[..2]), ParseMinuteField(s[3..5]), ParseMeridiem(s[5..]);
      ReadTime(s) == if h.None? || m.None? || p.None? then None else Some(To24Hour(h.value, p.value) * 60 + m.value)
  {
    FirstColonAt(s, 2);
    assert s[3..][..2] == s[3..5] && s[3..][2..] == s[5..];
  }

  /** A block is among a schedule's blocks exactly when it is a block of one of its sections. */
  lemma {:induction false} AllBlocksMembers(sections: seq<Section>, x: Block)
    ensures x in AllBlocks(sections) <==> exists i :: 0 <= i < |sections| && x in sections[i].blocks
  {
    if sections != [] {
      var init := sections[..|sections| - 1];
      AllBlocksMembers(init, x);
      if x in AllBlocks(sections) && x in AllBlocks(init) {
        var i :| 0 <= i < |init| && x in init[i].blocks;
        assert sections[i] == init[i];
      }
      if exists i :: 0 <= i < |sections| && x in sections[i].blocks {
        var i :| 0 <= i < |sections| && x in sections[i].blocks;
        if i < |init| {
          assert init[i] == sections[i];
        }
      }
    }
  }

  /** A day's bucket holds exactly the blocks of that weekday. */
  lemma {:induction false} OnDayMembers(blocks: seq<Block>, date: int, x: Block)
    ensures x in OnDay(blocks, date) <==> x in blocks && x.date == date
  {
    if blocks != [] {
      var init := blocks[..|blocks| - 1];
      OnDayMembers(init, date, x);
      assert blocks == init + [blocks[|blocks| - 1]];
    }
  }

  /** Sorting the blocks keeps exactly the same blocks. */
  lemma SortKeepsMembers(blocks: seq<Block>, x: Block)
    ensures x in SortByStart(blocks) <==> x in blocks
  {
    assert x in SortByStart(blocks) <==> x in multiset(SortByStart(blocks));
    assert x in blocks <==> x in multiset(blocks);
  }

  /** The bucket of weekday n + 1 holds exactly the schedule's blocks on that weekday. */
  lemma DayMembers(sections: seq<Section>, n: int, x: Block)
    requires 0 <= n < 7
    ensures x in Days(sections)[n] <==> x in AllBlocks(sections) && x.date == n + 1
  {
    var sorted := SortByStart(AllBlocks(sections));
    OnDayMembers(sorted, n + 1, x);
    SortKeepsMembers(AllBlocks(sections), x);
  }

  /** The weekdays some block of the sequence meets on. */
  function Dates(blocks: seq<Block>): set<int>
  {
    set x | x in blocks :: x.date
  }

  /** A weekday's bucket is non-empty exactly when some block meets on that weekday. */
  lemma DayNonEmpty(sections: seq<Section>, n: int)
    requires 0 <= n < 7
    ensures Days(sections)[n] != [] <==> n + 1 in Dates(AllBlocks(sections))
  {
    var blocks, day := AllBlocks(sections), Days(sections)[n];
    if day != [] {
      var x := day[0];
      assert x in blocks && x.date == n + 1 by { DayMembers(sections, n, x); }
      assert n + 1 in Dates(blocks);
    }
    if n + 1 in Dates(blocks) {
      var x :| x in blocks && x.date == n + 1;
      assert x in day by { DayMembers(sections, n, x); }
    }
  }

  /** `saturday_class` is set exactly when some block meets on a Saturday. */
  lemma SaturdayMeaning(sections: seq<Section>)
    ensures Days(sections)[5] != [] <==> exists x :: x in AllBlocks(sections) && x.date == 6
  {
    DayNonEmpty(sections, 5);
  }

  /** When the non-empty days are exactly the given weekdays, the travel time of the first n days
      is two hours per given weekday among them. */
  lemma {:induction false} TravelTimeCount(days: seq<seq<Block>>, dates: set<int>, n: nat)
    requires n <= |days|
    requires forall d :: 0 <= d < |days| ==> (days[d] != [] <==> d + 1 in dates)
    ensures TravelTime(days, n) == 120 * |set d | d in dates && 1 <= d <= n|
  {
    var upTo := set d | d in dates && 1 <= d <= n;
    if n == 0 {
      assert upTo == {};
    } else {
      TravelTimeCount(days, dates, n - 1);
      var before := set d | d in dates && 1 <= d <= n - 1;
      if n in dates {
        assert upTo == before + {n};
      } else {
        assert upTo == before;
      }
    }
  }

  /** The travel time of a week is two hours per weekday on which some block meets. */
  lemma TravelTimeMeaning(sections: seq<Section>)
    ensures TravelTime(Days(sections), 7) == 120 * |Dates(AllBlocks(sections))|
  {
    var dates := Dates(AllBlocks(sections));
    forall d | 0 <= d < 7 ensures Days(sections)[d] != [] <==> d + 1 in dates {
      DayNonEmpty(sections, d);
    }
    TravelTimeCount(Days(sections), dates, 7);
    assert (set d | d in dates && 1 <= d <= 7) == dates by {
      forall d | d in dates ensures 1 <= d <= 7 {
        var x :| x in AllBlocks(sections) && x.date == d;
      }
    }
  }

  lemma DurationSumSnoc(s: seq<Block>, x: Block)
    ensures DurationSum(s + [x]) == DurationSum(s) + Duration(x)
  {
    assert (s + [x])[..|s|] == s;
  }

  lemma {:induction false} DurationSumCons(x: Block, s: seq<Block>)
    ensures DurationSum([x] + s) == Duration(x) + DurationSum(s)
  {
    if s != [] {
      var init := s[..|s| - 1];
      DurationSumCons(x, init);
      assert [x] + s == ([x] + init) + [s[|s| - 1]];
      DurationSumSnoc([x] + init, s[|s| - 1]);
    }
  }

  lemma {:induction false} DurationSumInsert(x: Block, s: seq<Block>)
    ensures DurationSum(InsertByStart(x, s)) == Duration(x) + DurationSum(s)
  {
    if s == [] {
    } else if Moment(x) < Moment(s[0]) {
      DurationSumCons(x, s);
    } else {
      DurationSumInsert(x, s[1..]);
      DurationSumCons(s[0], InsertByStart(x, s[1..]));
      DurationSumCons(s[0], s[1..]);
      assert s == [s[0]] + s[1..];
    }
  }

  /** Sorting the blocks does not change their total length. */
  lemma {:induction false} DurationSumSorted(s: seq<Block>)
    ensures DurationSum(SortByStart(s)) == DurationSum(s)
  {
    if s != [] {
      var init, last := s[..|s| - 1], s[|s| - 1];
      var sorted := SortByStart(init);
      assert SortByStart(s) == InsertByStart(last, sorted);
      DurationSumSorted(init);
      DurationSumInsert(last, sorted);
    }
  }

  lemma OnDaySnoc(s: seq<Block>, x: Block, date: int)
    ensures OnDay(s + [x], date) == OnDay(s, date) + (if x.date == date then [x] else [])
  {
    assert (s + [x])[..|s|] == s;
  }

  /** One more block adds its length to the class time of the days up to its own. */
  lemma {:induction false} ClassTimeSnoc(s: seq<Block>, x: Block, n: nat)
    requires n <= 7
    ensures ClassTime(DaysOf(s + [x]), n) ==
            ClassTime(DaysOf(s), n) + (if x.date <= n then Duration(x) else 0)
  {
    if n > 0 {
      ClassTimeSnoc(s, x, n - 1);
      var after, before := DaysOf(s + [x]), DaysOf(s);
      assert after[n - 1] == OnDay(s + [x], n);
      assert before[n - 1] == OnDay(s, n);
      OnDaySnoc(s, x, n);
      if x.date == n {
        DurationSumSnoc(OnDay(s, n), x);
      } else {
        assert OnDay(s + [x], n) == OnDay(s, n);
      }
      assert ClassTime(after, n) == ClassTime(after, n - 1) + DurationSum(after[n - 1]);
      assert ClassTime(before, n) == ClassTime(before, n - 1) + DurationSum(before[n - 1]);
    }
  }

  /** Bucketing by weekday loses no block: the class time of the buckets is the total length of
      the blocks. */
  lemma {:induction false} ClassTimeOfBlocks(s: seq<Block>)
    ensures ClassTime(DaysOf(s), 7) == DurationSum(s)
  {
    if s == [] {
      EmptyDaysTakeNoTime(DaysOf(s), 7);
      TotalTimeSplit(DaysOf(s), 7);
    } else {
      var init := s[..|s| - 1];
      ClassTimeOfBlocks(init);
      ClassTimeSnoc(init, s[|s| - 1], 7);
      assert s == init + [s[|s| - 1]];
    }
  }

  /** The class time of a week is the total length of the schedule's blocks. */
  lemma ClassTimeMeaning(sections: seq<Section>)
    ensures ClassTime(Days(sections), 7) == DurationSum(AllBlocks(sections))
  {
    ClassTimeOfBlocks(SortByStart(AllBlocks(sections)));
    DurationSumSorted(AllBlocks(sections));
  }

  /** The total time is the travel time plus the class time plus the breaks. */
  lemma {:induction false} TotalTimeSplit(days: seq<seq<Block>>, n: nat)
    requires n <= |days|
    ensures TotalTime(days, n) == TravelTime(days, n) + ClassTime(days, n) + BreakTime(days, n)
  {
    if n > 0 {
      TotalTimeSplit(days, n - 1);
    }
  }

  /** Days without blocks take no time at all. */
  lemma {:induction false} EmptyDaysTakeNoTime(days: seq<seq<Block>>, n: nat)
    requires n <= |days|
    requires forall d :: 0 <= d < n ==> days[d] == []
    ensures TotalTime(days, n) == 0
  {
    if n > 0 {
      EmptyDaysTakeNoTime(days, n - 1);
    }
  }

  /** A day with a block among the first n costs at least its two hours of travel. */
  lemma {:induction false} TravelTimeAtLeast(days: seq<seq<Block>>, n: nat, d: nat)
    requires d < n <= |days| && days[d] != []
    ensures TravelTime(days, n) >= 120
  {
    if d < n - 1 {
      TravelTimeAtLeast(days, n - 1, d);
    }
  }

  /** The total time splits into travel, classes and breaks; it is zero exactly when the schedule
      has no block, and otherwise exceeds the class time, so the class-to-total ratio of a schedule
      with blocks lies below one. */
  lemma TotalTimeMeaning(sections: seq<Section>)
    ensures var days := Days(sections);
      TotalTime(days, 7) == TravelTime(days, 7) + ClassTime(days, 7) + BreakTime(days, 7)
    ensures TotalTime(Days(sections), 7) == 0 <==> AllBlocks(sections) == []
    ensures AllBlocks(sections) != [] ==> ClassTime(Days(sections), 7) < TotalTime(Days(sections), 7)
  {
    var days := Days(sections);
    TotalTimeSplit(days, 7);
    if AllBlocks(sections) == [] {
      forall d | 0 <= d < 7 ensures days[d] == [] {
        if days[d] != [] {
          DayMembers(sections, d, days[d][0]);
        }
      }
      EmptyDaysTakeNoTime(days, 7);
    } else {
      var x := AllBlocks(sections)[0];
      DayMembers(sections, x.date - 1, x);
      TravelTimeAtLeast(days, 7, x.date - 1);
    }
  }

  /** A well-formed block collides with the morning window of its weekday exactly when it starts
      at 9:00 AM or earlier, and with the night window exactly when it ends at 5:00 PM or later. */
  lemma WindowCollisions(x: Block)
    requires ValidBlock(x)
    ensures Collides(x, Morning(x.date)) <==> x.start <= 540
    ensures Collides(x, Night(x.date)) <==> x.end >= 1020
  {
  }

  /** A weekday is flagged as an early morning exactly when a block of the schedule meets that
      day starting at 9:00 AM or earlier, and as a late night exactly when one ends at 5:00 PM or
      later. */
  lemma DayFlagsMeaning(sections: seq<Section>, n: int)
    requires 0 <= n < 7
    requires forall x :: x in AllBlocks(sections) ==> ValidBlock(x)
    ensures EarlyFlags(Days(sections))[n] <==>
            exists x :: x in AllBlocks(sections) && x.date == n + 1 && x.start <= 540
    ensures LateFlags(Days(sections))[n] <==>
            exists x :: x in AllBlocks(sections) && x.date == n + 1 && x.end >= 1020
  {
    var day := Days(sections)[n];
    forall i | 0 <= i < |day|
      ensures day[i] in AllBlocks(sections) && day[i].date == n + 1
    {
      DayMembers(sections, n, day[i]);
    }
    forall x | x in AllBlocks(sections) && x.date == n + 1
      ensures exists i :: 0 <= i < |day| && day[i] == x
    {
      DayMembers(sections, n, x);
    }
    forall i | 0 <= i < |day|
      ensures (Collides(day[i], Morning(n + 1)) <==> day[i].start <= 540) &&
              (Collides(day[i], Night(n + 1)) <==> day[i].end >= 1020)
    {
      WindowCollisions(day[i]);
    }
  }

  /** No sleepless night is counted exactly when no late night among the first n days is followed
      by an early morning. */
  lemma {:induction false} SleeplessNightsZero(early: seq<bool>, late: seq<bool>, n: nat)
    requires n < |early| && n <= |late|
    ensures SleeplessNights(early, late, n) == 0 <==>
            forall k :: 0 <= k < n ==> !(late[k] && early[k + 1])
    ensures SleeplessNights(early, late, n) <= n
  {
    if n > 0 {
      SleeplessNightsZero(early, late, n - 1);
    }
  }

  /** The count reads only the late flags of the first n days and the early flags of the days after
      them. */
  lemma {:induction false} SleeplessNightsReads(early: seq<bool>, late: seq<bool>, early': seq<bool>, late': seq<bool>, n: nat)
    requires n < |early| && n <= |late| && n < |early'| && n <= |late'|
    requires forall k :: 0 <= k < n ==> late[k] == late'[k] && early[k + 1] == early'[k + 1]
    ensures SleeplessNights(early, late, n) == SleeplessNights(early', late', n)
  {
    if n > 0 {
      forall k | 0 <= k < n - 1 ensures late[k] == late'[k] && early[k + 1] == early'[k + 1] {
      }
      SleeplessNightsReads(early, late, early', late', n - 1);
    }
  }

  /** The night between Sunday and Monday is ignored: neither Sunday's late-night flag nor
      Monday's early-morning flag changes the weekly count. */
  lemma SleeplessIgnoresSundayNight(early: seq<bool>, late: seq<bool>, sunday: bool, monday: bool)
    requires |early| == 7 && |late| == 7
    ensures SleeplessNights(early[0 := monday], late[6 := sunday], 6) == SleeplessNights(early, late, 6)
  {
    SleeplessNightsReads(early[0 := monday], late[6 := sunday], early, late, 6);
  }

  /** Two blocks on one weekday whose closed intervals intersect. */
  predicate Overlap(a: Block, b: Block)
  {
    a.date == b.date && a.start <= b.end && b.start <= a.end
  }

  /** Every block of every section is well formed. */
  predicate WellFormed(sections: seq<Section>)
  {
    forall i, p :: 0 <= i < |sections| && 0 <= p < |sections[i].blocks| ==> ValidBlock(sections[i].blocks[p])
  }

  /** Two sections of different courses with overlapping blocks make a conflict, whichever of the
      two blocks collides with the other. */
  lemma OverlapIsConflict(sections: seq<Section>, i: int, j: int, p: int, q: int)
    requires 0 <= i < |sections| && 0 <= j < |sections| && sections[i].code != sections[j].code
    requires 0 <= p < |sections[i].blocks| && 0 <= q < |sections[j].blocks|
    requires var a, b := sections[i].blocks[p], sections[j].blocks[q];
      a.start <= a.end && b.start <= b.end && Overlap(a, b)
    ensures ContainsConflict(sections)
  {
    var a, b := sections[i].blocks[p], sections[j].blocks[q];
    CollidesEitherWay(a, b);
    if Collides(a, b) {
      assert SectionsCollide(sections[i], sections[j]);
    } else {
      assert SectionsCollide(sections[j], sections[i]);
    }
  }

  /** A schedule contains a conflict exactly when two sections of different courses have blocks on
      the same weekday whose closed intervals intersect (touching blocks conflict). */
  lemma ContainsConflictMeaning(sections: seq<Section>)
    requires WellFormed(sections)
    ensures ContainsConflict(sections) <==>
      exists i, j, p, q :: 0 <= i < |sections| && 0 <= j < |sections| &&
        sections[i].code != sections[j].code &&
        0 <= p < |sections[i].blocks| && 0 <= q < |sections[j].blocks| &&
        Overlap(sections[i].blocks[p], sections[j].blocks[q])
  {
    if ContainsConflict(sections) {
      var i, j :| 0 <= i < |sections| && 0 <= j < |sections| &&
        sections[i].code != sections[j].code && SectionsCollide(sections[i], sections[j]);
      var p, q :| 0 <= p < |sections[i].blocks| && 0 <= q < |sections[j].blocks| &&
        Collides(sections[i].blocks[p], sections[j].blocks[q]);
      CollidesEitherWay(sections[i].blocks[p], sections[j].blocks[q]);
    } else {
      forall i, j, p, q | 0 <= i < |sections| && 0 <= j < |sections| &&
        sections[i].code != sections[j].code &&
        0 <= p < |sections[i].blocks| && 0 <= q < |sections[j].blocks|
        ensures !Overlap(sections[i].blocks[p], sections[j].blocks[q])
      {
        if Overlap(sections[i].blocks[p], sections[j].blocks[q]) {
          OverlapIsConflict(sections, i, j, p, q);
        }
      }
    }
  }

  lemma SameLayoutMeaning(self: seq<Section>, other: seq<Section>)
    ensures SameLayout(self, other) <==> forall x :: x in AllBlocks(self) ==> x in AllBlocks(other)
  {
    var mine, theirs := AllBlocks(self), AllBlocks(other);
    forall x ensures Matched(x, theirs) <==> x in theirs {
      if Matched(x, theirs) {
        var j :| 0 <= j < |theirs| && SameMeeting(x, theirs[j]);
        assert theirs[j] == x;
      }
      if x in theirs {
        var j :| 0 <= j < |theirs| && theirs[j] == x;
        assert SameMeeting(x, theirs[j]);
      }
    }
    if forall x :: x in mine ==> x in theirs {
      forall i | 0 <= i < |mine| ensures Matched(mine[i], theirs) {
        assert mine[i] in mine;
      }
    } else {
      var x :| x in mine && x !in theirs;
      var i :| 0 <= i < |mine| && mine[i] == x;
      assert !Matched(mine[i], theirs);
    }
  }

  /** `Schedule.__eq__` is reflexive and transitive. */
  lemma SameLayoutPreorder(a: seq<Section>, b: seq<Section>, c: seq<Section>)
    ensures SameLayout(a, a)
    ensures SameLayout(a, b) && SameLayout(b, c) ==> SameLayout(a, c)
  {
    SameLayoutMeaning(a, a);
    SameLayoutMeaning(a, b);
    SameLayoutMeaning(b, c);
    SameLayoutMeaning(a, c);
  }

  /** `Schedule.__eq__` is not symmetric: a schedule without blocks matches every schedule, but a
      schedule with a block does not match it. */
  lemma SameLayoutNotSymmetric()
    ensures var none, one := [], [Section("1", "Mo 9:00AM - 9:50AM", 30, "A", "A", [Block(1, 540, 590, "A")])];
      SameLayout(none, one) && !SameLayout(one, none)
  {
    var none: seq<Section> := [];
    var one := [Section("1", "Mo 9:00AM - 9:50AM", 30, "A", "A", [Block(1, 540, 590, "A")])];
    assert one[..0] == [];
    assert AllBlocks(one) == [Block(1, 540, 590, "A")];
    assert AllBlocks(none) == [];
    assert !SameMeeting(AllBlocks(one)[0], Block(1, 540, 590, "A")) ==> false;
  }
}
