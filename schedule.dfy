/**
 * The day/night clock schedule: "HH:MM" validation and conversion, the
 * wrap-around clock range, the day-or-night target, and the four-field text
 * the schedule editor reads back.
 */
module Schedule {
  import opened Wrappers
  import opened Text
  import opened Brightness

  const MINUTES_PER_DAY: int := 1440
  const DEFAULT_DAY_START: string := "08:00"
  const DEFAULT_NIGHT_START: string := "20:00"

  /** `_valid_hhmm`: length 5, ':' at index 2, both halves of the first-colon split digits, 0..23 and 0..59. */
  predicate ValidHhmm(text: string) {
    if |text| != 5 || text[2] != ':' then false
    else
      var i := IndexOfChar(text, ':');
      var h := text[..i];
      var m := text[i + 1..];
      if !(IsDigits(h) && IsDigits(m)) then false
      else 0 <= DigitsValue(h) <= 23 && 0 <= DigitsValue(m) <= 59
  }

  /** Hours and minutes written out digit by digit. */
  function HoursOf(t: string): (h: int)
    requires |t| == 5 && IsDigit(t[0]) && IsDigit(t[1])
  {
    10 * DigitValue(t[0]) + DigitValue(t[1])
  }

  function MinutesOf(t: string): (m: int)
    requires |t| == 5 && IsDigit(t[3]) && IsDigit(t[4])
  {
    10 * DigitValue(t[3]) + DigitValue(t[4])
  }

  predicate HhmmShape(t: string) {
    |t| == 5 && t[2] == ':'
    && IsDigit(t[0]) && IsDigit(t[1]) && IsDigit(t[3]) && IsDigit(t[4])
    && HoursOf(t) <= 23 && MinutesOf(t) <= 59
  }

  lemma TwoDigits(s: string)
    requires |s| == 2 && IsDigit(s[0]) && IsDigit(s[1])
    ensures DigitsValue(s) == 10 * DigitValue(s[0]) + DigitValue(s[1])
  {
    var p := s[..1];
    assert p[..0] == [] && p[0] == s[0];
    assert DigitsValue(p) == DigitValue(s[0]);
  }

  /** `_valid_hhmm` accepts exactly two digits, a colon and two digits, with hours 0..23 and minutes 0..59. */
  lemma {:induction false} ValidHhmmIffShape(t: string)
    ensures ValidHhmm(t) <==> HhmmShape(t)
  {
    if |t| == 5 && t[2] == ':' {
      var i := IndexOfChar(t, ':');
      if i == 0 {
        assert !IsDigits(t[..i]);
        assert !IsDigit(t[0]);
      } else if i == 1 {
        assert t[i + 1..][0] == ':';
        assert !IsDigit(t[1]);
      } else {
        assert i == 2;
        if IsDigit(t[0]) && IsDigit(t[1]) && IsDigit(t[3]) && IsDigit(t[4]) {
          TwoDigits(t[..2]);
          TwoDigits(t[3..]);
        } else {
          assert !IsDigits(t[..2]) || !IsDigits(t[3..]) by {
            if !IsDigit(t[0]) { assert t[..2][0] == t[0]; }
            else if !IsDigit(t[1]) { assert t[..2][1] == t[1]; }
            else if !IsDigit(t[3]) { assert t[3..][0] == t[3]; }
            else { assert t[3..][1] == t[4]; }
          }
        }
      }
    }
  }

  /** `_hhmm_to_minutes`, only ever applied to validated text. */
  function HhmmToMinutes(text: string): (r: int)
    requires ValidHhmm(text)
    ensures 0 <= r < MINUTES_PER_DAY
    ensures HhmmShape(text) && r == 60 * HoursOf(text) + MinutesOf(text)
  {
    ValidHhmmIffShape(text);
    TwoDigits(text[..2]);
    TwoDigits(text[3..]);
    var i := IndexOfChar(text, ':');
    assert i == 2;
    DigitsValue(text[..i]) * 60 + DigitsValue(text[i + 1..])
  }

  /** Both default times are valid: 08:00 is minute 480 and 20:00 is minute 1200. */
  lemma DefaultTimes()
    ensures ValidHhmm(DEFAULT_DAY_START) && HhmmToMinutes(DEFAULT_DAY_START) == 480
    ensures ValidHhmm(DEFAULT_NIGHT_START) && HhmmToMinutes(DEFAULT_NIGHT_START) == 1200
  {
    ValidHhmmIffShape(DEFAULT_DAY_START);
    ValidHhmmIffShape(DEFAULT_NIGHT_START);
  }

  /** A configured time, replaced by the fallback when it is not a valid `HH:MM`. */
  function TimeOrDefault(t: string, fallback: string): (r: string)
    ensures ValidHhmm(fallback) ==> ValidHhmm(r)
    ensures ValidHhmm(t) ==> r == t
    ensures !ValidHhmm(t) ==> r == fallback
  {
    if ValidHhmm(t) then t else fallback
  }

  /** Loaded times are valid whatever the file holds, since both defaults are. */
  lemma LoadedTimesValid(ds: string, ns: string)
    ensures ValidHhmm(TimeOrDefault(ds, DEFAULT_DAY_START))
    ensures ValidHhmm(TimeOrDefault(ns, DEFAULT_NIGHT_START))
  {
    DefaultTimes();
  }

  /** `_in_clock_range`: the half-open range [start, end), wrapping past midnight when start > end. */
  predicate InClockRange(cur: int, start: int, end: int) {
    if start == end then true
    else if start < end then start <= cur < end
    else cur >= start || cur < end
  }

  /**
   * For times of day, being in range means being fewer minutes past start
   * than end is, counting forward around the clock.
   */
  lemma {:induction false} InClockRangeIsForwardDistance(cur: int, start: int, end: int)
    requires 0 <= cur < MINUTES_PER_DAY && 0 <= start < MINUTES_PER_DAY && 0 <= end < MINUTES_PER_DAY
    requires start != end
    ensures InClockRange(cur, start, end) <==>
      (cur - start) % MINUTES_PER_DAY < (end - start) % MINUTES_PER_DAY
  {
    var dc := if cur >= start then cur - start else cur - start + MINUTES_PER_DAY;
    var de := if end >= start then end - start else end - start + MINUTES_PER_DAY;
    assert (cur - start) % MINUTES_PER_DAY == dc;
    assert (end - start) % MINUTES_PER_DAY == de;
  }

  /** With distinct start times, every minute is in exactly one of the day and night ranges. */
  lemma DayAndNightPartition(cur: int, dayStart: int, nightStart: int)
    requires dayStart != nightStart
    ensures InClockRange(cur, dayStart, nightStart) != InClockRange(cur, nightStart, dayStart)
  {
  }

  /** The percentage the schedule wants at minute `now`: day inside [dayStart, nightStart), night outside. */
  function ScheduleTarget(now: int, dayStart: string, nightStart: string, day: int, night: int): (t: int)
    requires ValidHhmm(dayStart) && ValidHhmm(nightStart)
    ensures t == day || t == night
    ensures HhmmToMinutes(dayStart) == HhmmToMinutes(nightStart) ==> t == day
  {
    if InClockRange(now, HhmmToMinutes(dayStart), HhmmToMinutes(nightStart)) then day else night
  }

  /** Day is chosen exactly when fewer minutes have passed since day start than separate night start from it. */
  lemma ScheduleTargetByDistance(now: int, dayStart: string, nightStart: string, day: int, night: int)
    requires ValidHhmm(dayStart) && ValidHhmm(nightStart)
    requires 0 <= now < MINUTES_PER_DAY && HhmmToMinutes(dayStart) != HhmmToMinutes(nightStart)
    ensures var d, n := HhmmToMinutes(dayStart), HhmmToMinutes(nightStart);
      ScheduleTarget(now, dayStart, nightStart, day, night)
      == if (now - d) % MINUTES_PER_DAY < (n - d) % MINUTES_PER_DAY then day else night
  {
    InClockRangeIsForwardDistance(now, HhmmToMinutes(dayStart), HhmmToMinutes(nightStart));
  }

  /** The values the schedule editor accepts. */
  datatype ScheduleEdit = ScheduleEdit(dayStart: string, nightStart: string, day: int, night: int)

  datatype EditError = Cancelled | WrongFieldCount | BadTime | BadValue

  function StripAll(parts: seq<string>): (r: seq<string>)
    ensures |r| == |parts|
    ensures forall k :: 0 <= k < |parts| ==> r[k] == Strip(parts[k])
  {
    seq(|parts|, k requires 0 <= k < |parts| => Strip(parts[k]))
  }

  /**
   * The checks `_on_edit_schedule` applies to the stripped fields: exactly
   * four, two valid times, and two integers that are then clamped to 0..100.
   */
  function ParseFields(parts: seq<string>): (r: Result<ScheduleEdit, EditError>)
    ensures r.Ok? <==>
      |parts| == 4 && ValidHhmm(parts[0]) && ValidHhmm(parts[1])
      && ParseInt(parts[2]).Some? && ParseInt(parts[3]).Some?
    ensures r.Ok? ==>
      r.value.dayStart == parts[0] && r.value.nightStart == parts[1]
      && r.value.day == Clamp(ParseInt(parts[2]).value, 0, 100)
      && r.value.night == Clamp(ParseInt(parts[3]).value, 0, 100)
    ensures r.Ok? ==>
      ValidHhmm(r.value.dayStart) && ValidHhmm(r.value.nightStart)
      && 0 <= r.value.day <= 100 && 0 <= r.value.night <= 100
    ensures r != Err(Cancelled)
    ensures |parts| != 4 <==> r == Err(WrongFieldCount)
    ensures r == Err(BadTime) <==> |parts| == 4 && !(ValidHhmm(parts[0]) && ValidHhmm(parts[1]))
    ensures r == Err(BadValue) <==>
      |parts| == 4 && ValidHhmm(parts[0]) && ValidHhmm(parts[1])
      && (ParseInt(parts[2]).None? || ParseInt(parts[3]).None?)
  {
    if |parts| != 4 then Err(WrongFieldCount)
    else if !ValidHhmm(parts[0]) || !ValidHhmm(parts[1]) then Err(BadTime)
    else
      var dayV, nightV := ParseInt(parts[2]), ParseInt(parts[3]);
      if dayV.None? || nightV.None? then Err(BadValue)
      else Ok(ScheduleEdit(parts[0], parts[1], Clamp(dayV.value, 0, 100), Clamp(nightV.value, 0, 100)))
  }

  /** The whole parse in `_on_edit_schedule`: empty text cancels, anything else is split on commas, stripped and checked. */
  function ParseScheduleEdit(text: string): (r: Result<ScheduleEdit, EditError>)
    ensures r.Ok? ==>
      ValidHhmm(r.value.dayStart) && ValidHhmm(r.value.nightStart)
      && 0 <= r.value.day <= 100 && 0 <= r.value.night <= 100
    ensures r == Err(Cancelled) <==> text == []
  {
    if text == [] then Err(Cancelled) else ParseFields(StripAll(SplitOn(text, ',')))
  }

  /** Text with the wrong number of fields, or a bad time in one of the first two, is rejected as such. */
  lemma ParseScheduleEditErrors(text: string)
    requires text != []
    ensures ParseScheduleEdit(text) == Err(WrongFieldCount) <==> |SplitOn(text, ',')| != 4
    ensures var parts := StripAll(SplitOn(text, ','));
      |parts| == 4 && !(ValidHhmm(parts[0]) && ValidHhmm(parts[1])) ==> ParseScheduleEdit(text) == Err(BadTime)
  {
  }

  /**
   * Nonempty text is accepted exactly when its stripped fields are four, two
   * valid times and two integers; the accepted times are the stripped fields
   * themselves and the percentages are the integers clamped to 0..100. Valid
   * times with a non-integer percentage are a value error.
   */
  lemma ParseScheduleEditAccepts(text: string, parts: seq<string>)
    requires text != [] && parts == StripAll(SplitOn(text, ','))
    ensures ParseScheduleEdit(text).Ok? <==>
      |parts| == 4 && ValidHhmm(parts[0]) && ValidHhmm(parts[1])
      && ParseInt(parts[2]).Some? && ParseInt(parts[3]).Some?
    ensures ParseScheduleEdit(text).Ok? ==>
      ParseScheduleEdit(text).value == ScheduleEdit(parts[0], parts[1],
        Clamp(ParseInt(parts[2]).value, 0, 100), Clamp(ParseInt(parts[3]).value, 0, 100))
    ensures ParseScheduleEdit(text) == Err(BadValue) <==>
      |parts| == 4 && ValidHhmm(parts[0]) && ValidHhmm(parts[1])
      && (ParseInt(parts[2]).None? || ParseInt(parts[3]).None?)
  {
  }

  /** The editor's initial text: `dayStart,nightStart,day,night`. */
  function FormatSchedule(dayStart: string, nightStart: string, day: nat, night: nat): (text: string)
    ensures text == Join([dayStart, nightStart, NatToString(day), NatToString(night)], ',')
  {
    var d, n := NatToString(day), NatToString(night);
    FormatIsJoin(dayStart, nightStart, d, n);
    dayStart + "," + nightStart + "," + d + "," + n
  }

  lemma HhmmHasNoCommaOrSpace(t: string)
    requires ValidHhmm(t)
    ensures forall k :: 0 <= k < |t| ==> t[k] != ',' && !IsSpace(t[k])
  {
    ValidHhmmIffShape(t);
  }

  lemma FormatIsJoin(a: string, b: string, c: string, d: string)
    ensures a + "," + b + "," + c + "," + d == Join([a, b, c, d], ',')
  {
    var fields := [a, b, c, d];
    assert fields[1..] == [b, c, d] && fields[2..] == [c, d] && fields[3..] == [d];
    assert Join([d], ',') == d;
    assert Join([c, d], ',') == c + [','] + d;
    assert Join([b, c, d], ',') == b + [','] + (c + [','] + d);
    assert Join(fields, ',') == a + [','] + (b + [','] + (c + [','] + d));
  }

  lemma StripAllNoSpace(fields: seq<string>)
    requires forall i, k :: 0 <= i < |fields| && 0 <= k < |fields[i]| ==> !IsSpace(fields[i][k])
    ensures StripAll(fields) == fields
  {
    forall i | 0 <= i < |fields| ensures Strip(fields[i]) == fields[i] {
      StripNoSpace(fields[i]);
    }
  }

  lemma FieldsClean(dayStart: string, nightStart: string, day: nat, night: nat)
    requires ValidHhmm(dayStart) && ValidHhmm(nightStart)
    ensures var fields := [dayStart, nightStart, NatToString(day), NatToString(night)];
      forall i, k :: 0 <= i < |fields| && 0 <= k < |fields[i]| ==> fields[i][k] != ',' && !IsSpace(fields[i][k])
  {
    HhmmHasNoCommaOrSpace(dayStart);
    HhmmHasNoCommaOrSpace(nightStart);
  }

  /** Two valid times and two printed in-range percentages pass every check unchanged. */
  lemma ParseOfCleanFields(fields: seq<string>, day: nat, night: nat)
    requires |fields| == 4 && ValidHhmm(fields[0]) && ValidHhmm(fields[1])
    requires fields[2] == NatToString(day) && fields[3] == NatToString(night)
    requires day <= 100 && night <= 100
    ensures ParseFields(fields) == Ok(ScheduleEdit(fields[0], fields[1], day, night))
  {
    ParseIntNatToString(day);
    ParseIntNatToString(night);
  }

  /** The editor's initial text splits back into its four fields, none of which stripping changes. */
  lemma {:induction false} FormatFields(dayStart: string, nightStart: string, day: nat, night: nat)
    requires ValidHhmm(dayStart) && ValidHhmm(nightStart)
    ensures var text := FormatSchedule(dayStart, nightStart, day, night);
      text != [] && StripAll(SplitOn(text, ',')) == [dayStart, nightStart, NatToString(day), NatToString(night)]
  {
    var d, n := NatToString(day), NatToString(night);
    var fields := [dayStart, nightStart, d, n];
    var text := FormatSchedule(dayStart, nightStart, day, night);
    assert |text| >= |dayStart| + 1;
    assert SplitOn(text, ',') == fields by {
      FieldsClean(dayStart, nightStart, day, night);
      SplitJoin(fields, ',');
    }
    assert StripAll(fields) == fields by {
      FieldsClean(dayStart, nightStart, day, night);
      StripAllNoSpace(fields);
    }
  }

  /** Nonempty text whose stripped fields parse cleanly parses to the same result. */
  lemma ParseOfFields(text: string, fields: seq<string>, edit: ScheduleEdit)
    requires text != [] && StripAll(SplitOn(text, ',')) == fields
    requires ParseFields(fields) == Ok(edit)
    ensures ParseScheduleEdit(text) == Ok(edit)
  {
  }

  /** Accepting the editor's initial text unchanged reproduces the current schedule. */
  lemma {:induction false} EditRoundTrip(dayStart: string, nightStart: string, day: nat, night: nat)
    requires ValidHhmm(dayStart) && ValidHhmm(nightStart)
    requires day <= 100 && night <= 100
    ensures ParseScheduleEdit(FormatSchedule(dayStart, nightStart, day, night))
      == Ok(ScheduleEdit(dayStart, nightStart, day, night))
  {
    var fields := [dayStart, nightStart, NatToString(day), NatToString(night)];
    FormatFields(dayStart, nightStart, day, night);
    ParseOfCleanFields(fields, day, night);
    ParseOfFields(FormatSchedule(dayStart, nightStart, day, night), fields, ScheduleEdit(dayStart, nightStart, day, night));
  }
}
