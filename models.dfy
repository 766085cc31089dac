/** The UI filter record and the Unix timestamps it derives from its calendar
    dates and its "HH:MM" times. Local time is a fixed offset from UTC. */
module Models {
  import opened Values

  datatype Inbox = All | Gmail

  function InboxName(i: Inbox): string
  {
    match i
    case All => "ALL"
    case Gmail => "GMAIL"
  }

  predicate IsLeapYear(y: int)
  {
    y % 4 == 0 && (y % 100 != 0 || y % 400 == 0)
  }

  function DaysInMonth(y: int, m: int): int
    requires 1 <= m <= 12
  {
    if m == 2 then (if IsLeapYear(y) then 29 else 28)
    else if m == 4 || m == 6 || m == 9 || m == 11 then 30
    else 31
  }

  datatype DateTime = DateTime(year: int, month: int, day: int,
                               hour: int, minute: int, second: int, microsecond: int)

  /** The range a Python `datetime` can hold. */
  predicate ValidDateTime(dt: DateTime)
  {
    1 <= dt.year <= 9999 && 1 <= dt.month <= 12 && 1 <= dt.day <= DaysInMonth(dt.year, dt.month)
    && 0 <= dt.hour < 24 && 0 <= dt.minute < 60 && 0 <= dt.second < 60
    && 0 <= dt.microsecond < 1000000
  }

  type CalendarDateTime = dt: DateTime | ValidDateTime(dt) witness DateTime(1970, 1, 1, 0, 0, 0, 0)

  /** The UI filter: every field optional. */
  datatype QueryFilter = QueryFilter(
    inboxes: Option<seq<Inbox>>,
    recipients: Option<seq<string>>,
    fromEmail: Option<string>,
    startDate: Option<CalendarDateTime>,
    startTime: Option<string>,
    endDate: Option<CalendarDateTime>,
    endTime: Option<string>)

  /** A time of day as strptime's `%H:%M` reads it. */
  datatype Clock = Clock(hour: nat, minute: nat)

  predicate ValidClock(c: Clock)
  {
    c.hour < 24 && c.minute < 60
  }

  predicate IsDigit(ch: char)
  {
    '0' <= ch <= '9'
  }

  function DigitValue(ch: char): nat
    requires IsDigit(ch)
  {
    (ch as int) - ('0' as int)
  }

  /** The characters strptime's `\s+` (between the year and the hour) absorbs:
      Python's white space, the ASCII separators U+001C to U+001F included. */
  predicate IsSpace(ch: char)
  {
    ('\U{9}' <= ch <= '\U{D}') || ('\U{1C}' <= ch <= '\U{20}') || ch == '\U{85}' || ch == '\U{A0}'
    || ch == '\U{1680}' || ('\U{2000}' <= ch <= '\U{200A}') || ch == '\U{2028}' || ch == '\U{2029}'
    || ch == '\U{202F}' || ch == '\U{205F}' || ch == '\U{3000}'
  }

  predicate AllSpace(w: string)
  {
    forall i :: 0 <= i < |w| ==> IsSpace(w[i])
  }

  predicate AllDigits(s: string)
  {
    forall i :: 0 <= i < |s| ==> IsDigit(s[i])
  }

  /** The value of a string of decimal digits. */
  function DigitsValue(s: string): nat
    requires AllDigits(s)
  {
    if s == [] then 0 else 10 * DigitsValue(s[..|s| - 1]) + DigitValue(s[|s| - 1])
  }

  /** `s` is a field of one or two digits whose value is `v`. */
  predicate Field(s: string, v: nat)
  {
    1 <= |s| <= 2 && AllDigits(s) && DigitsValue(s) == v
  }

  /** `s` is "H:M" or "HH:MM" (or a mix) spelling the hour and minute of `c`. */
  predicate ClockText(s: string, c: Clock)
  {
    exists k :: 1 <= k <= 2 && k < |s| && s[k] == ':' && Field(s[..k], c.hour) && Field(s[k + 1..], c.minute)
  }

  function SkipSpace(s: string): (r: string)
    ensures |r| <= |s| && (r == [] || !IsSpace(r[0]))
  {
    if s != [] && IsSpace(s[0]) then SkipSpace(s[1..]) else s
  }

  /** One or two digits naming a value up to `limit`, and nothing else. */
  function ParseField(s: string, limit: nat): (r: Option<nat>)
    ensures r.Some? ==> r.value <= limit
  {
    if |s| == 1 && IsDigit(s[0]) && DigitValue(s[0]) <= limit then Some(DigitValue(s[0]))
    else if |s| == 2 && IsDigit(s[0]) && IsDigit(s[1]) && 10 * DigitValue(s[0]) + DigitValue(s[1]) <= limit
    then Some(10 * DigitValue(s[0]) + DigitValue(s[1]))
    else None
  }

  /** The time part of strptime's "%d/%m/%Y %H:%M" applied to
      "<day>/<month>/<year> <time>": leading white space, an hour of one or
      two digits up to 23, a colon, a minute of one or two digits up to 59,
      and no unconverted data after it. */
  function ParseClock(time: string): (r: Option<Clock>)
    ensures r.Some? ==> ValidClock(r.value)
  {
    var s := SkipSpace(time);
    if |s| >= 2 && s[1] == ':' then
      match (ParseField(s[..1], 23), ParseField(s[2..], 59))
      case (Some(h), Some(m)) => Some(Clock(h, m))
      case _ => None
    else if |s| >= 3 && s[2] == ':' then
      match (ParseField(s[..2], 23), ParseField(s[3..], 59))
      case (Some(h), Some(m)) => Some(Clock(h, m))
      case _ => None
    else None
  }

  /** Two decimal digits, zero padded, as strftime's `%H`, `%M`, `%d`, `%m` write them. */
  function Pad2(n: nat): (r: string)
    requires n < 100
    ensures |r| == 2 && IsDigit(r[0]) && IsDigit(r[1])
    ensures 10 * DigitValue(r[0]) + DigitValue(r[1]) == n
    ensures AllDigits(r) && DigitsValue(r) == n
  {
    var r := [('0' as int + n / 10) as char, ('0' as int + n % 10) as char];
    assert r[..1][..0] == [] && r[..1][0] == r[0];
    assert DigitsValue(r[..1]) == DigitValue(r[0]);
    r
  }

  function FormatClock(c: Clock): string
    requires ValidClock(c)
  {
    Pad2(c.hour) + ":" + Pad2(c.minute)
  }

  /** Days from 1970-01-01 to the given proleptic Gregorian date. */
  function DaysFromCivil(y: int, m: int, d: int): int
    requires 1 <= y && 1 <= m <= 12
  {
    var y' := if m <= 2 then y - 1 else y;
    var era := y' / 400;
    var yoe := y' - era * 400;
    var mp := if m > 2 then m - 3 else m + 9;
    var doy := (153 * mp + 2) / 5 + d - 1;
    var doe := yoe * 365 + yoe / 4 - yoe / 100 + doy;
    era * 146097 + doe - 719468
  }

  const SecondsPerDay: int := 86400

  /** Midnight, local time, of the calendar day of `date`, as a Unix time. */
  function MidnightStamp(date: CalendarDateTime, offset: int): int
  {
    DaysFromCivil(date.year, date.month, date.day) * SecondsPerDay - offset
  }

  /** `int(datetime.strptime(f"{day}/{month}/{year} {time}", "%d/%m/%Y %H:%M").timestamp())`
      for local time `offset` seconds east of UTC. Only the calendar day of
      `date` is used. `%Y` needs four digits, so a year below 1000 does not
      match; the day and month always do. */
  function LocalTimestamp(date: CalendarDateTime, time: string, offset: int): (r: Result<int>)
    ensures r.Ok? <==> date.year >= 1000 && ParseClock(time).Some?
    ensures r.Err? ==> r.error == ValueError
    ensures r.Ok? ==> MidnightStamp(date, offset) <= r.value < MidnightStamp(date, offset) + SecondsPerDay
  {
    if date.year < 1000 then Err(ValueError)
    else
      match ParseClock(time)
      case None => Err(ValueError)
      case Some(c) => Ok(MidnightStamp(date, offset) + c.hour * 3600 + c.minute * 60)
  }

  /** A time of day of the accepted shape stamps its hour and minute past
      local midnight. */
  lemma LocalTimestampValue(date: CalendarDateTime, time: string, offset: int, c: Clock)
    requires date.year >= 1000 && ClockInput(time, c)
    ensures LocalTimestamp(date, time, offset) == Ok(MidnightStamp(date, offset) + 3600 * c.hour + 60 * c.minute)
  {
    ParseClockIff(time, c);
  }

  /** Python's `t or default` for an optional string. */
  function TimeOr(t: Option<string>, default: string): string
  {
    if t.Some? && t.value != "" then t.value else default
  }

  const DefaultStartTime: string := "00:00"
  const DefaultEndTime: string := "23:59"

  /** `QueryFilter.start_date_timestamp`: defined when the year has four
      digits and the start time is absent, empty or well-formed; otherwise
      ValueError. The stamp lies within the local calendar day of the date. */
  function StartDateTimestamp(q: QueryFilter, offset: int): (r: Result<int>)
    requires q.startDate.Some?
    ensures r.Ok? <==> q.startDate.value.year >= 1000
                       && (q.startTime.None? || q.startTime.value == "" || ParseClock(q.startTime.value).Some?)
    ensures r.Err? ==> r.error == ValueError
    ensures r.Ok? ==> MidnightStamp(q.startDate.value, offset) <= r.value < MidnightStamp(q.startDate.value, offset) + SecondsPerDay
  {
    DefaultTimesParse();
    LocalTimestamp(q.startDate.value, TimeOr(q.startTime, DefaultStartTime), offset)
  }

  /** `QueryFilter.end_date_timestamp`, with the same conditions for the end
      date and the end time. */
  function EndDateTimestamp(q: QueryFilter, offset: int): (r: Result<int>)
    requires q.endDate.Some?
    ensures r.Ok? <==> q.endDate.value.year >= 1000
                       && (q.endTime.None? || q.endTime.value == "" || ParseClock(q.endTime.value).Some?)
    ensures r.Err? ==> r.error == ValueError
    ensures r.Ok? ==> MidnightStamp(q.endDate.value, offset) <= r.value < MidnightStamp(q.endDate.value, offset) + SecondsPerDay
  {
    DefaultTimesParse();
    LocalTimestamp(q.endDate.value, TimeOr(q.endTime, DefaultEndTime), offset)
  }

  // ---------------------------------------------------------------------
  // Properties

  /** Formatting a time of day as "HH:MM" and reading it back with `%H:%M`
      gives the same time of day. */
  lemma ParseFormattedClock(c: Clock)
    requires ValidClock(c)
    ensures ParseClock(FormatClock(c)) == Some(c)
  {
    var s := FormatClock(c);
    assert SkipSpace(s) == s;
    assert s[1] != ':' && s[2] == ':';
    assert s[..2] == Pad2(c.hour) && s[3..] == Pad2(c.minute);
  }

  /** Anything after "HH:MM" is unconverted data, which strptime rejects. */
  lemma ParseRejectsTrailingData(c: Clock, rest: string)
    requires ValidClock(c) && rest != ""
    ensures ParseClock(FormatClock(c) + rest) == None
  {
    var s := FormatClock(c) + rest;
    assert SkipSpace(s) == s;
    assert s[1] != ':' && s[2] == ':';
    assert |s[3..]| > 2;
  }

  /** An hour from 24 on, or a minute from 60 on, is rejected. */
  lemma ParseRejectsOutOfRange(h: nat, m: nat)
    requires h < 100 && m < 100 && (h >= 24 || m >= 60)
    ensures ParseClock(Pad2(h) + ":" + Pad2(m)) == None
  {
    var s := Pad2(h) + ":" + Pad2(m);
    assert SkipSpace(s) == s;
    assert s[1] != ':' && s[2] == ':';
    assert s[..2] == Pad2(h) && s[3..] == Pad2(m);
  }

  /** The two default times are well-formed. */
  lemma DefaultTimesParse()
    ensures ParseClock(DefaultStartTime) == Some(Clock(0, 0))
    ensures ParseClock(DefaultEndTime) == Some(Clock(23, 59))
  {
    ParseFormattedClock(Clock(0, 0));
    ParseFormattedClock(Clock(23, 59));
    assert FormatClock(Clock(0, 0)) == DefaultStartTime;
    assert FormatClock(Clock(23, 59)) == DefaultEndTime;
  }

  /** The start stamp falls back to midnight when no start time is given
      (absent or empty), and uses the given time otherwise. */
  lemma StartTimeDefault(q: QueryFilter, offset: int)
    requires q.startDate.Some? && q.startDate.value.year >= 1000
    ensures q.startTime.None? || q.startTime == Some("") ==>
      StartDateTimestamp(q, offset) == Ok(MidnightStamp(q.startDate.value, offset))
    ensures q.startTime.Some? && q.startTime.value != "" ==>
      StartDateTimestamp(q, offset) == LocalTimestamp(q.startDate.value, q.startTime.value, offset)
  {
    DefaultTimesParse();
  }

  /** The end stamp falls back to 23:59 when no end time is given. */
  lemma EndTimeDefault(q: QueryFilter, offset: int)
    requires q.endDate.Some? && q.endDate.value.year >= 1000
    ensures q.endTime.None? || q.endTime == Some("") ==>
      EndDateTimestamp(q, offset) == Ok(MidnightStamp(q.endDate.value, offset) + 86340)
    ensures q.endTime.Some? && q.endTime.value != "" ==>
      EndDateTimestamp(q, offset) == LocalTimestamp(q.endDate.value, q.endTime.value, offset)
  {
    DefaultTimesParse();
  }

  /** With no times given, the window of one calendar day runs from 00:00
      to 23:59: the end stamp is 86340 seconds after the start stamp. */
  lemma DefaultWindowOfOneDay(q: QueryFilter, offset: int)
    requires q.startDate.Some? && q.endDate.Some? && q.startDate.value.year >= 1000
    requires q.startDate.value.year == q.endDate.value.year
    requires q.startDate.value.month == q.endDate.value.month
    requires q.startDate.value.day == q.endDate.value.day
    requires q.startTime.None? && q.endTime.None?
    ensures StartDateTimestamp(q, offset).Ok? && EndDateTimestamp(q, offset).Ok?
    ensures EndDateTimestamp(q, offset).value - StartDateTimestamp(q, offset).value == 86340
  {
    StartTimeDefault(q, offset);
    EndTimeDefault(q, offset);
  }

  /** Only the calendar day of the date is used: its time of day does not matter. */
  lemma OnlyCalendarDayUsed(d1: CalendarDateTime, d2: CalendarDateTime, time: string, offset: int)
    requires d1.year == d2.year && d1.month == d2.month && d1.day == d2.day
    ensures LocalTimestamp(d1, time, offset) == LocalTimestamp(d2, time, offset)
  {
  }

  predicate ClockBefore(a: Clock, b: Clock)
  {
    a.hour < b.hour || (a.hour == b.hour && a.minute < b.minute)
  }

  /** On a fixed date, a later time of day gives a strictly larger stamp. */
  lemma LaterTimeLaterStamp(date: CalendarDateTime, t1: string, t2: string, offset: int)
    requires date.year >= 1000
    requires ParseClock(t1).Some? && ParseClock(t2).Some?
    requires ClockBefore(ParseClock(t1).value, ParseClock(t2).value)
    ensures LocalTimestamp(date, t1, offset).value < LocalTimestamp(date, t2, offset).value
  {
  }

  /** A time that strptime rejects is an error, for the start and the end alike. */
  lemma MalformedTimeIsError(q: QueryFilter, offset: int)
    ensures (q.startDate.Some? && q.startTime.Some? && q.startTime.value != ""
             && ParseClock(q.startTime.value).None?) ==> StartDateTimestamp(q, offset) == Err(ValueError)
    ensures (q.endDate.Some? && q.endTime.Some? && q.endTime.value != ""
             && ParseClock(q.endTime.value).None?) ==> EndDateTimestamp(q, offset) == Err(ValueError)
  {
  }

  /** The day after a day of the same month starts one day later. */
  lemma NextDayStartsAfterEnd(q: QueryFilter, offset: int)
    requires q.startDate.Some? && q.endDate.Some? && q.endDate.value.year >= 1000
    requires q.startDate.value.year == q.endDate.value.year
    requires q.startDate.value.month == q.endDate.value.month
    requires q.startDate.value.day == q.endDate.value.day + 1
    requires q.startTime.None? && q.endTime.None?
    ensures StartDateTimestamp(q, offset).Ok? && EndDateTimestamp(q, offset).Ok?
    ensures StartDateTimestamp(q, offset).value == EndDateTimestamp(q, offset).value + 60
  {
    StartTimeDefault(q, offset);
    EndTimeDefault(q, offset);
  }

  /** The first day of a month follows the last day of the month before. */
  lemma MonthRollover(y: int, m: int)
    requires 1 <= y && 1 <= m < 12
    ensures DaysFromCivil(y, m + 1, 1) == DaysFromCivil(y, m, DaysInMonth(y, m)) + 1
  {
    if m == 2 {
      MarchFollowsFebruary(y);
    }
  }

  /** Days from 0000-03-01 to 1 March of year `yp`, in the day count's
      eras of 400 years. */
  function MarchDays(yp: int): int
    requires 0 <= yp
  {
    var era := yp / 400;
    var yoe := yp - era * 400;
    era * 146097 + yoe * 365 + yoe / 4 - yoe / 100
  }

  /** Whole 400-year eras do not change the leap-year tests. */
  lemma ShiftByEras(era: int, j: int)
    ensures (era * 400 + j) % 4 == j % 4 && (era * 400 + j) % 100 == j % 100
  {
    assert (era * 400 + j) / 4 == era * 100 + j / 4;
    assert (era * 400 + j) / 100 == era * 4 + j / 100;
  }

  /** A year of the day count runs from 1 March to the end of February, so
      it is a leap year when the year it ends in is. */
  lemma MarchToMarch(yp: int)
    requires 0 <= yp
    ensures MarchDays(yp + 1) == MarchDays(yp) + 365 + (if IsLeapYear(yp + 1) then 1 else 0)
  {
    var era := yp / 400;
    var yoe := yp - era * 400;
    if yoe < 399 {
      MarchToMarchWithinEra(yp, era, yoe);
    } else {
      MarchToMarchAtEraEnd(yp, era);
    }
  }

  lemma MarchToMarchAtEraEnd(yp: int, era: int)
    requires 0 <= yp && yp == era * 400 + 399
    ensures MarchDays(yp + 1) == MarchDays(yp) + 365 + (if IsLeapYear(yp + 1) then 1 else 0)
  {
    assert yp / 400 == era;
    assert (yp + 1) / 400 == era + 1;
    ShiftByEras(era + 1, 0);
    assert (yp + 1) % 400 == 0;
  }

  lemma MarchToMarchWithinEra(yp: int, era: int, yoe: int)
    requires 0 <= yp && era == yp / 400 && yoe == yp - era * 400 && yoe < 399
    ensures MarchDays(yp + 1) == MarchDays(yp) + 365 + (if IsLeapYear(yp + 1) then 1 else 0)
  {
    var j := yoe + 1;
    assert (yp + 1) / 400 == era;
    assert MarchDays(yp + 1) == era * 146097 + j * 365 + j / 4 - j / 100;
    ShiftByEras(era, j);
    assert yp + 1 == era * 400 + j;
    assert (yp + 1) % 400 != 0;
    assert j / 4 - yoe / 4 == (if j % 4 == 0 then 1 else 0);
    assert j / 100 - yoe / 100 == (if j % 100 == 0 then 1 else 0);
    assert j % 100 == 0 ==> j % 4 == 0;
  }

  /** The day count restarts its year at 1 March, so the end of February
      carries the leap-year rule. */
  lemma MarchFollowsFebruary(y: int)
    requires 1 <= y
    ensures DaysFromCivil(y, 3, 1) == DaysFromCivil(y, 2, DaysInMonth(y, 2)) + 1
  {
    assert (153 * 11 + 2) / 5 == 337;
    assert DaysFromCivil(y, 3, 1) == MarchDays(y) - 719468;
    assert DaysFromCivil(y, 2, DaysInMonth(y, 2)) == MarchDays(y - 1) + 336 + DaysInMonth(y, 2) - 719468;
    MarchToMarch(y - 1);
  }

  /** 1 January follows 31 December. */
  lemma YearRollover(y: int)
    requires 1 <= y
    ensures DaysFromCivil(y + 1, 1, 1) == DaysFromCivil(y, 12, 31) + 1
  {
  }

  /** Skipping white space drops exactly a prefix of white space. */
  lemma {:induction false} SkipSpaceSplit(time: string)
    ensures var n := |time| - |SkipSpace(time)|;
      time[n..] == SkipSpace(time) && AllSpace(time[..n])
  {
    if time != [] && IsSpace(time[0]) {
      SkipSpaceSplit(time[1..]);
      var n := |time| - |SkipSpace(time)|;
      assert time[1..][n - 1..] == time[n..];
      assert forall i :: 1 <= i < n ==> time[..n][i] == time[1..][..n - 1][i - 1];
    }
  }

  /** A white-space prefix followed by a character that is not white space
      is exactly what `SkipSpace` drops. */
  lemma {:induction false} SkipSpacePrefix(time: string, n: nat)
    requires n <= |time| && AllSpace(time[..n]) && (n == |time| || !IsSpace(time[n]))
    ensures SkipSpace(time) == time[n..]
  {
    if n > 0 {
      assert time[..n][0] == time[0];
      assert time[1..][..n - 1] == time[..n][1..];
      SkipSpacePrefix(time[1..], n - 1);
      assert time[1..][n - 1..] == time[n..];
    }
  }

  lemma ParseFieldIff(s: string, limit: nat, v: nat)
    ensures ParseField(s, limit) == Some(v) <==> Field(s, v) && v <= limit
  {
    if |s| == 1 && AllDigits(s) {
      assert s[..0] == [];
      assert DigitsValue(s) == 10 * DigitsValue(s[..0]) + DigitValue(s[0]);
    } else if |s| == 2 && AllDigits(s) {
      assert s[..1][..0] == [] && s[..1][0] == s[0];
      assert DigitsValue(s[..1]) == DigitValue(s[0]);
    }
  }

  /** What `%H:%M` accepts, stated without the parser: optional white space,
      then one or two digits, a colon and one or two digits, spelling an hour
      below 24 and a minute below 60, and nothing after them. */
  predicate ClockInput(time: string, c: Clock)
  {
    ValidClock(c) && exists n :: 0 <= n <= |time| && AllSpace(time[..n]) && ClockText(time[n..], c)
  }

  /** Every string `%H:%M` accepts has that shape and spells the clock read. */
  lemma ParseClockSound(time: string, c: Clock)
    requires ParseClock(time) == Some(c)
    ensures ClockInput(time, c)
  {
    var s := SkipSpace(time);
    SkipSpaceSplit(time);
    var n0 := |time| - |s|;
    assert time[n0..] == s;
    if s[1] == ':' {
      ParseFieldIff(s[..1], 23, c.hour);
      ParseFieldIff(s[2..], 59, c.minute);
      assert 1 < |s| && s[1] == ':' && Field(s[..1], c.hour) && Field(s[2..], c.minute);
    } else {
      ParseFieldIff(s[..2], 23, c.hour);
      ParseFieldIff(s[3..], 59, c.minute);
      assert 2 < |s| && s[2] == ':' && Field(s[..2], c.hour) && Field(s[3..], c.minute);
    }
    assert ClockText(time[n0..], c);
  }

  /** The branch of `ParseClock` that a clock text without leading white space takes. */
  lemma ClockTextParses(t: string, c: Clock)
    requires ValidClock(c) && ClockText(t, c)
    ensures |t| >= 2 && !IsSpace(t[0])
    ensures t[1] == ':' ==> ParseField(t[..1], 23) == Some(c.hour) && ParseField(t[2..], 59) == Some(c.minute)
    ensures t[1] != ':' ==>
      |t| >= 3 && t[2] == ':' && ParseField(t[..2], 23) == Some(c.hour) && ParseField(t[3..], 59) == Some(c.minute)
  {
    var k :| 1 <= k <= 2 && k < |t| && t[k] == ':' && Field(t[..k], c.hour) && Field(t[k + 1..], c.minute);
    assert IsDigit(t[..k][0]) && t[0] == t[..k][0];
    ParseFieldIff(t[..k], 23, c.hour);
    ParseFieldIff(t[k + 1..], 59, c.minute);
    if k == 2 {
      assert IsDigit(t[..2][1]) && t[1] == t[..2][1];
    }
  }

  /** Every string of that shape is accepted, as the clock it spells. */
  lemma ParseClockComplete(time: string, c: Clock)
    requires ClockInput(time, c)
    ensures ParseClock(time) == Some(c)
  {
    var n :| 0 <= n <= |time| && AllSpace(time[..n]) && ClockText(time[n..], c);
    ClockTextParses(time[n..], c);
    assert time[n] == time[n..][0];
    SkipSpacePrefix(time, n);
  }

  /** `%H:%M` accepts a string, as the clock `c`, exactly when the string
      has the shape `ClockInput` describes and spells `c`. */
  lemma ParseClockIff(time: string, c: Clock)
    ensures ParseClock(time) == Some(c) <==> ClockInput(time, c)
  {
    if ParseClock(time) == Some(c) {
      ParseClockSound(time, c);
    }
    if ClockInput(time, c) {
      ParseClockComplete(time, c);
    }
  }

  /** Day zero of the Unix clock. */
  lemma UnixEpoch()
    ensures DaysFromCivil(1970, 1, 1) == 0
  {
  }
}
