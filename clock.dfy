/** Times of day and weekdays as the meeting-time strings of the catalog spell them.
    A time of day is a count of minutes since midnight; a weekday is 1 (Monday) .. 7 (Sunday). */
module Clock {

  /** Minutes since midnight of one day. */
  type Minute = m: int | 0 <= m < 1440

  /** Monday is 1, Sunday is 7. */
  type Weekday = d: int | 1 <= d <= 7 witness 1

  datatype Option<T> = None | Some(value: T)

  /** The two-letter weekday tokens, in the order their position + 1 gives the weekday. */
  const DayTokens: seq<string> := ["Mo", "Tu", "We", "Th", "Fr", "Sa", "Su"]

  /** The weekday a two-letter token stands for (DayNumberMeaning: its index in DayTokens plus
      one), or None where the lookup raises. */
  function DayNumber(token: string): (r: Option<Weekday>)
    ensures r.Some? ==> |token| == 2
  {
    if |token| != 2 then None
    else
      var a, b := token[0], token[1];
      if a == 'M' && b == 'o' then Some(1)
      else if a == 'T' && b == 'u' then Some(2)
      else if a == 'W' && b == 'e' then Some(3)
      else if a == 'T' && b == 'h' then Some(4)
      else if a == 'F' && b == 'r' then Some(5)
      else if a == 'S' && b == 'a' then Some(6)
      else if a == 'S' && b == 'u' then Some(7)
      else None
  }

  /** DayNumber is `DayTokens.index(token) + 1`: it finds exactly the seven tokens, each at its own
      position, and fails on everything else. */
  lemma DayNumberMeaning(token: string)
    ensures DayNumber(token).Some? <==> token in DayTokens
    ensures DayNumber(token).Some? ==> DayTokens[DayNumber(token).value - 1] == token
  {
    var r := DayNumber(token);
    if r.Some? {
      var t := DayTokens[r.value - 1];
      assert |t| == 2 && t[0] == token[0] && t[1] == token[1];
      assert t == token;
    } else {
      forall i | 0 <= i < 7 ensures DayTokens[i] != token {
        assert |DayTokens[i]| == 2;
        if |token| == 2 {
          assert DayTokens[i][0] != token[0] || DayTokens[i][1] != token[1];
        }
      }
    }
  }

  /** DayNumber inverts the token table: every weekday's token reads back as that weekday. */
  lemma DayNumberOfToken(d: Weekday)
    ensures DayNumber(DayTokens[d - 1]) == Some(d)
  {
    DayNumberMeaning(DayTokens[d - 1]);
  }

  predicate IsDigit(c: char) { '0' <= c <= '9' }

  function DigitValue(c: char): (v: nat)
    requires IsDigit(c)
    ensures v < 10
  {
    (c as int) - ('0' as int)
  }

  function DigitChar(v: nat): (c: char)
    requires v < 10
    ensures IsDigit(c) && DigitValue(c) == v
  {
    (('0' as int) + v) as char
  }

  /** The `%I` field: "1".."9", "01".."09" or "10".."12" (the alternatives 1[0-2], 0[1-9], [1-9]). */
  function ParseHour12(h: string): (r: Option<int>)
    ensures r.Some? ==> 1 <= r.value <= 12
  {
    if |h| == 1 && '1' <= h[0] <= '9' then Some(DigitValue(h[0]))
    else if |h| == 2 && h[0] == '1' && '0' <= h[1] <= '2' then Some(10 + DigitValue(h[1]))
    else if |h| == 2 && h[0] == '0' && '1' <= h[1] <= '9' then Some(DigitValue(h[1]))
    else None
  }

  /** The `%M` field: one digit, or two digits the first of which is 0..5. */
  function ParseMinuteField(m: string): (r: Option<int>)
    ensures r.Some? ==> 0 <= r.value < 60
  {
    if |m| == 1 && IsDigit(m[0]) then Some(DigitValue(m[0]))
    else if |m| == 2 && '0' <= m[0] <= '5' && IsDigit(m[1]) then Some(10 * DigitValue(m[0]) + DigitValue(m[1]))
    else None
  }

  /** The `%p` field, matched without regard to case: Some(false) for AM, Some(true) for PM. */
  function ParseMeridiem(p: string): (r: Option<bool>)
  {
    if |p| == 2 && (p[1] == 'm' || p[1] == 'M') then
      if p[0] == 'a' || p[0] == 'A' then Some(false)
      else if p[0] == 'p' || p[0] == 'P' then Some(true)
      else None
    else None
  }

  /** The 24-hour hour of a 12-hour clock reading: 12 AM is hour 0, 12 PM is hour 12. */
  function To24Hour(hour12: int, pm: bool): (h: int)
    requires 1 <= hour12 <= 12
    ensures 0 <= h < 24
    ensures pm <==> h >= 12
    ensures h % 12 == hour12 % 12
  {
    if pm then (if hour12 == 12 then 12 else hour12 + 12)
    else (if hour12 == 12 then 0 else hour12)
  }

  /** Index of the first ':' in s, or |s| when there is none. */
  function FirstColon(s: string): (i: nat)
    ensures i <= |s|
  {
    if s == [] then 0
    else if s[0] == ':' then 0
    else 1 + FirstColon(s[1..])
  }

  /** A time written in the `%I:%M%p` format ("12:10PM", "9:05am"), as minutes since midnight.
      The whole string must be consumed; anything else is None (a ValueError in the source). */
  function ParseClock(s: string): (r: Option<Minute>)
  {
    var i := FirstColon(s);
    if i == |s| then None
    else
      var rest := s[i + 1..];
      if |rest| < 3 then None
      else
        var hour := ParseHour12(s[..i]);
        var minute := ParseMinuteField(rest[..|rest| - 2]);
        var pm := ParseMeridiem(rest[|rest| - 2..]);
        if hour.None? || minute.None? || pm.None? then None
        else Some(To24Hour(hour.value, pm.value) * 60 + minute.value)
  }

  /** The 12-hour clock hour of a 24-hour hour: 0 and 12 read as 12. */
  function Hour12(h: nat): (r: int)
    ensures 1 <= r <= 12
  {
    if h % 12 == 0 then 12 else h % 12
  }

  /** An hour 1..12 without padding. */
  function HourText(h12: int): (s: string)
    requires 1 <= h12 <= 12
    ensures 1 <= |s| <= 2 && ':' !in s
  {
    if h12 < 10 then [DigitChar(h12)] else ['1', DigitChar(h12 - 10)]
  }

  /** Minutes 0..59 as two digits. */
  function MinuteText(mm: int): (s: string)
    requires 0 <= mm < 60
    ensures |s| == 2
  {
    [DigitChar(mm / 10), DigitChar(mm % 10)]
  }

  /** The catalog's own spelling of a time: hour without padding, two-digit minutes, AM or PM. */
  function FormatClock(m: Minute): (s: string)
    ensures 6 <= |s| <= 7
  {
    HourText(Hour12(m / 60)) + ":" + MinuteText(m % 60) + (if m / 60 < 12 then "AM" else "PM")
  }

  /** A string made of a colon-free hour part, a colon, a minute part and a two-character suffix is
      read field by field. */
  lemma ParseClockFields(hour: string, minute: string, suffix: string)
    requires ':' !in hour && |minute| >= 1 && |suffix| == 2
    ensures var s := hour + ":" + minute + suffix;
      var h, m, p := ParseHour12(hour), ParseMinuteField(minute), ParseMeridiem(suffix);
      ParseClock(s) == if h.None? || m.None? || p.None? then None
                       else Some(To24Hour(h.value, p.value) * 60 + m.value)
  {
    var s := hour + ":" + minute + suffix;
    FirstColonAt(s, |hour|);
    var rest := s[|hour| + 1..];
    assert rest == minute + suffix;
    assert rest[..|rest| - 2] == minute;
    assert rest[|rest| - 2..] == suffix;
    assert s[..|hour|] == hour;
  }

  lemma HourTextRoundTrip(h12: int)
    requires 1 <= h12 <= 12
    ensures ParseHour12(HourText(h12)) == Some(h12)
  {
  }

  lemma MinuteTextRoundTrip(mm: int)
    requires 0 <= mm < 60
    ensures ParseMinuteField(MinuteText(mm)) == Some(mm)
  {
  }

  lemma Hour12RoundTrip(h: int)
    requires 0 <= h < 24
    ensures To24Hour(Hour12(h), h >= 12) == h
  {
  }

  /** Every time of day survives being written out and read back. */
  lemma ParseFormatRoundTrip(m: Minute)
    ensures ParseClock(FormatClock(m)) == Some(m)
  {
    var h, mm := m / 60, m % 60;
    var hour, minute := HourText(Hour12(h)), MinuteText(mm);
    var ampm := if h < 12 then "AM" else "PM";
    assert FormatClock(m) == hour + ":" + minute + ampm;
    HourTextRoundTrip(Hour12(h));
    MinuteTextRoundTrip(mm);
    assert ParseMeridiem(ampm) == Some(h >= 12);
    ParseClockFields(hour, minute, ampm);
    Hour12RoundTrip(h);
    assert To24Hour(Hour12(h), h >= 12) * 60 + mm == m;
  }

  /** FirstColon finds the colon at i when none comes earlier. */
  lemma {:induction false} FirstColonAt(s: string, i: nat)
    requires i < |s| && s[i] == ':'
    requires forall k :: 0 <= k < i ==> s[k] != ':'
    ensures FirstColon(s) == i
  {
    if i > 0 {
      FirstColonAt(s[1..], i - 1);
    }
  }

  /** The characters Python's `\s` matches in a str pattern (str.isspace). */
  predicate IsSpace(c: char)
  {
    c == ' ' || c == '\t' || c == '\n' || c == '\r' || c == '\U{B}' || c == '\U{C}'
    || '\U{1C}' <= c <= '\U{1F}' || c == '\U{85}' || c == '\U{A0}' || c == '\U{1680}'
    || '\U{2000}' <= c <= '\U{200A}' || c == '\U{2028}' || c == '\U{2029}' || c == '\U{202F}'
    || c == '\U{205F}' || c == '\U{3000}'
  }

  /** s without its leading whitespace. */
  function SkipSpace(s: string): string
  {
    if s != [] && IsSpace(s[0]) then SkipSpace(s[1..]) else s
  }

  /** A time field of a meeting string as `strptime(str(date) + ' ' + field, '%d %I:%M%p')` reads
      it: the blank in the format matches a run of whitespace, so leading whitespace of the field
      is absorbed; the rest must be exactly `%I:%M%p`. */
  function ReadTime(field: string): (r: Option<Minute>)
  {
    ParseClock(SkipSpace(field))
  }
}
