// Statistics weeks in the fixed business timezone (UTC+8) and their ISO week codes.
module IsoWeek {
  import opened Common
  import opened ReportNames

  const DAY: int := 86400
  const WEEK: int := 7 * DAY
  const OFFSET: int := 8 * 3600
  // The proleptic Gregorian day number of 1970-01-01, where 0001-01-01 is day 1.
  const EPOCH_DAY: int := 719163

  // ---- the calendar ------------------------------------------------------------------

  function DayOf(t: Instant): int { (t + OFFSET) / DAY + EPOCH_DAY }

  function MidnightOf(day: int): Instant { (day - EPOCH_DAY) * DAY - OFFSET }

  // Monday is 0.
  function Weekday(day: int): int { (day + 6) % 7 }

  predicate IsLeap(year: int) { year % 4 == 0 && (year % 100 != 0 || year % 400 == 0) }

  function YearDays(year: int): int { if IsLeap(year) then 366 else 365 }

  // The day number of January 1st; year 1 starts on day 1.
  function JanuaryFirst(year: nat): int {
    if year == 0 then 1 - YearDays(0) else JanuaryFirst(year - 1) + YearDays(year - 1)
  }

  // The closed form behind the standard library's day numbers.
  lemma {:induction false} JanuaryFirstClosed(year: nat)
    ensures JanuaryFirst(year) == 365 * (year - 1) + (year - 1) / 4 - (year - 1) / 100 + (year - 1) / 400 + 1
  {
    if year > 0 {
      JanuaryFirstClosed(year - 1);
      Multiples(year - 1);
    }
  }

  // Dividing by 4, 100 and 400 steps up exactly at the multiples.
  lemma Multiples(year: int)
    ensures year / 4 == (year - 1) / 4 + if year % 4 == 0 then 1 else 0
    ensures year / 100 == (year - 1) / 100 + if year % 100 == 0 then 1 else 0
    ensures year / 400 == (year - 1) / 400 + if year % 400 == 0 then 1 else 0
    ensures (year % 400 == 0 ==> year % 100 == 0) && (year % 100 == 0 ==> year % 4 == 0)
  {
    var q := year / 400;
    var r := year % 400;
    assert year == 400 * q + r;
    assert year / 100 == 4 * q + r / 100 && year % 100 == r % 100;
    assert year / 4 == 100 * q + r / 4 && year % 4 == r % 4;
  }

  lemma {:induction false} YearsAreOrdered(a: nat, b: nat)
    requires a <= b
    ensures JanuaryFirst(a) + 365 * (b - a) <= JanuaryFirst(b)
    decreases b - a
  {
    if a < b {
      YearsAreOrdered(a + 1, b);
    }
  }

  // The calendar year of a day from 0001-01-01 on.
  function YearFrom(day: int, year: nat): (y: nat)
    requires JanuaryFirst(year) <= day
    ensures JanuaryFirst(y) <= day < JanuaryFirst(y + 1) && year <= y
    decreases day - JanuaryFirst(year)
  {
    if day < JanuaryFirst(year + 1) then year else YearFrom(day, year + 1)
  }

  function YearOf(day: int): (y: nat)
    requires day >= 1
    ensures JanuaryFirst(y) <= day < JanuaryFirst(y + 1) && y >= 1
  {
    YearFrom(day, 1)
  }

  lemma YearIsUnique(day: int, y: nat)
    requires day >= 1 && JanuaryFirst(y) <= day < JanuaryFirst(y + 1)
    ensures y == YearOf(day)
  {
    if y < YearOf(day) {
      YearsAreOrdered(y + 1, YearOf(day));
    } else if y > YearOf(day) {
      YearsAreOrdered(YearOf(day) + 1, y);
    }
  }

  // ---- instants and the calendar ---------------------------------------------------------

  // The seconds of a calendar year.
  ghost function YearSeconds(year: int): int {
    if year % 4 == 0 && (year % 100 != 0 || year % 400 == 0) then 366 * 86400 else 365 * 86400
  }

  // When a year begins, in seconds from 1970-01-01 00:00 of the same clock.
  ghost function YearStart(year: int): int
    decreases if year < 1970 then 1970 - year else year - 1970
  {
    if year == 1970 then 0
    else if year > 1970 then YearStart(year - 1) + YearSeconds(year - 1)
    else YearStart(year + 1) - YearSeconds(year)
  }

  lemma {:induction false} YearStartIs(year: nat)
    ensures YearStart(year) == (JanuaryFirst(year) - 719163) * 86400
    decreases if year < 1970 then 1970 - year else year - 1970
  {
    if year == 1970 {
      JanuaryFirstClosed(1970);
    } else if year > 1970 {
      YearStartIs(year - 1);
    } else {
      YearStartIs(year + 1);
    }
  }

  lemma WholeDays(seconds: int, day: int)
    ensures day <= seconds / 86400 <==> day * 86400 <= seconds
  {
  }

  // The calendar year of an instant is that of its clock at UTC+8, counted year by year from
  // 1970-01-01 00:00 of that clock; the clock's midnight begins the day, and 1970 a Thursday.
  lemma YearOfInstant(t: Instant, year: nat)
    requires DayOf(t) >= 1
    ensures YearOf(DayOf(t)) == year <==> year >= 1 && YearStart(year) <= t + 28800 < YearStart(year + 1)
    ensures MidnightOf(DayOf(t)) <= t < MidnightOf(DayOf(t)) + 86400 && (MidnightOf(DayOf(t)) + 28800) % 86400 == 0
    ensures DayOf(0) == JanuaryFirst(1970) && Weekday(DayOf(0)) == 3
  {
    YearStartIs(1970);
    YearStartIs(year);
    YearStartIs(year + 1);
    WholeDays(t + 28800, JanuaryFirst(year) - 719163);
    WholeDays(t + 28800, JanuaryFirst(year + 1) - 719163);
    if year >= 1 && YearStart(year) <= t + 28800 < YearStart(year + 1) {
      YearIsUnique(DayOf(t), year);
    }
  }

  // ---- ISO weeks, as the standard library computes them --------------------------------

  function WeekOneMonday(year: nat): int {
    var first := JanuaryFirst(year);
    var monday := first - Weekday(first);
    if Weekday(first) > 3 then monday + 7 else monday
  }

  // `isocalendar()`: ISO year and week of a day.
  function IsoCalendar(day: int): (nat, int)
    requires day >= 1
  {
    var year := YearOf(day);
    var week := (day - WeekOneMonday(year)) / 7;
    if week < 0 then (year - 1, (day - WeekOneMonday(year - 1)) / 7 + 1)
    else if week >= 52 && day >= WeekOneMonday(year + 1) then (year + 1, 1)
    else (year, week + 1)
  }

  // `fromisocalendar(year, week, 1)`: the Monday of an ISO week.
  function FromIsoCalendar(year: nat, week: int): Option<int> {
    if !(1 <= year <= 9999) then None
    else if 0 < week < 53
            || (week == 53 && (JanuaryFirst(year) % 7 == 4 || (JanuaryFirst(year) % 7 == 3 && IsLeap(year))))
    then Some(WeekOneMonday(year) + (week - 1) * 7)
    else None
  }

  // ---- ISO weeks, as section 4.1.4 of ISO 8601:2004 defines them -------------------------

  lemma MondayOf(day: int)
    ensures Weekday(day - Weekday(day)) == 0 && 0 <= Weekday(day) < 7
  {
    assert day + 6 == 7 * ((day + 6) / 7) + Weekday(day);
  }

  lemma WeekOneHoldsFirstThursday(year: nat)
    ensures Weekday(WeekOneMonday(year)) == 0
    ensures JanuaryFirst(year) <= WeekOneMonday(year) + 3 < JanuaryFirst(year) + 7
  {
    NearestMonday(JanuaryFirst(year));
  }

  lemma NearestMonday(first: int)
    ensures var monday := first - Weekday(first);
            && Weekday(monday) == 0 && Weekday(monday + 7) == 0
            && (Weekday(first) > 3 ==> first <= monday + 10 < first + 7)
            && (Weekday(first) <= 3 ==> first <= monday + 3 < first + 7)
  {
    MondayOf(first);
    assert first - Weekday(first) + 7 + 6 == 7 * ((first + 6) / 7 + 1);
  }

  // Counted in whole weeks from week one of `year`, the week of `day` is number `k`.
  lemma WeeksSince(day: int, year: nat) returns (k: int)
    ensures day - Weekday(day) == WeekOneMonday(year) + 7 * k
    ensures (day - WeekOneMonday(year)) / 7 == k
    ensures k >= 0 <==> JanuaryFirst(year) <= day - Weekday(day) + 3
    ensures (day - Weekday(day) + 3 - JanuaryFirst(year)) / 7 == k
    ensures JanuaryFirst(year) + 7 * k <= day - Weekday(day) + 3 < JanuaryFirst(year) + 7 * k + 7
    ensures k >= 0 <==> WeekOneMonday(year) <= day
  {
    MondayOf(day);
    WeekOneHoldsFirstThursday(year);
    var monday, one := day - Weekday(day), WeekOneMonday(year);
    k := (monday - one) / 7;
    SameWeekday(monday, one);
  }

  lemma SameWeekday(a: int, b: int)
    requires Weekday(a) == 0 && Weekday(b) == 0
    ensures (a - b) % 7 == 0
  {
    assert a + 6 == 7 * ((a + 6) / 7) && b + 6 == 7 * ((b + 6) / 7);
    assert a - b == 7 * ((a + 6) / 7 - (b + 6) / 7);
  }

  // Which of three consecutive years the Thursday falls in, given where they start and the
  // Thursday's week numbers counted from each.
  lemma ThursdaysYear(thursday: int, day: int, s0: int, s1: int, s2: int, s3: int, a: int, b: int, c: int)
    requires s0 + 365 <= s1 <= s0 + 366 && s1 + 365 <= s2 <= s1 + 366 && s2 + 365 <= s3 <= s2 + 366
    requires s0 + 7 * a <= thursday < s0 + 7 * a + 7
    requires s1 + 7 * b <= thursday < s1 + 7 * b + 7
    requires s2 + 7 * c <= thursday < s2 + 7 * c + 7
    requires s1 <= day < s2 && thursday - 3 <= day <= thursday + 3
    ensures b < 0 ==> s0 <= thursday < s1
    ensures b >= 52 && c >= 0 ==> s2 <= thursday < s3 && c == 0
    ensures b >= 0 && !(b >= 52 && c >= 0) ==> s1 <= thursday < s2
  {
  }

  // The weeks from the first of the ISO year to that of a day, as the calendar counts them.
  ghost function WeeksInto(day: int, year: nat): int {
    (day - WeekOneMonday(year)) / 7
  }

  ghost function ThursdayOf(day: int): int {
    day - Weekday(day) + 3
  }

  ghost predicate InWeek(thursday: int, year: nat, k: int) {
    JanuaryFirst(year) + 7 * k <= thursday < JanuaryFirst(year) + 7 * k + 7
  }

  lemma WeeksIntoMeans(day: int, year: nat)
    ensures InWeek(ThursdayOf(day), year, WeeksInto(day, year))
    ensures WeeksInto(day, year) >= 0 <==> WeekOneMonday(year) <= day
  {
    var k := WeeksSince(day, year);
  }

  // The calendar's choice of year, by the weeks counted from the start of each of the years a
  // day can belong to.
  lemma CalendarByWeeks(day: int)
    requires day >= 1
    ensures var y := YearOf(day);
            var a, b, c := WeeksInto(day, y - 1), WeeksInto(day, y), WeeksInto(day, y + 1);
            IsoCalendar(day) == if b < 0 then (y - 1, a + 1) else if b >= 52 && c >= 0 then (y + 1, 1) else (y, b + 1)
  {
    WeeksIntoMeans(day, YearOf(day) + 1);
  }

  ghost predicate IsThursdayOf(thursday: int, year: nat, week: int) {
    JanuaryFirst(year) <= thursday < JanuaryFirst(year + 1) && week == (thursday - JanuaryFirst(year)) / 7 + 1
  }

  lemma CountedThursday(thursday: int, start: int, k: int)
    requires start + 7 * k <= thursday < start + 7 * k + 7
    ensures (thursday - start) / 7 + 1 == k + 1
  {
  }

  lemma ChosenYear(day: int, y: nat, a: int, b: int, c: int)
    requires y >= 1 && JanuaryFirst(y) <= day < JanuaryFirst(y + 1)
    requires InWeek(ThursdayOf(day), y - 1, a) && InWeek(ThursdayOf(day), y, b) && InWeek(ThursdayOf(day), y + 1, c)
    ensures var thursday := ThursdayOf(day);
            && (b < 0 ==> IsThursdayOf(thursday, y - 1, a + 1))
            && (b >= 52 && c >= 0 ==> IsThursdayOf(thursday, y + 1, 1))
            && (b >= 0 && !(b >= 52 && c >= 0) ==> IsThursdayOf(thursday, y, b + 1))
  {
    var thursday := ThursdayOf(day);
    MondayOf(day);
    ThreeYears(y);
    var s0, s1, s2, s3 := JanuaryFirst(y - 1), JanuaryFirst(y), JanuaryFirst(y + 1), JanuaryFirst(y + 2);
    ThursdaysYear(thursday, day, s0, s1, s2, s3, a, b, c);
    CountedThursday(thursday, s0, a);
    CountedThursday(thursday, s1, b);
    CountedThursday(thursday, s2, c);
  }

  // The ISO year of a day is the calendar year of the Thursday of its week, and the week
  // number counts the Thursdays of that year.
  lemma IsoYearIsThursdays(day: int)
    requires day >= 1
    ensures IsThursdayOf(ThursdayOf(day), IsoCalendar(day).0, IsoCalendar(day).1)
  {
    var y := YearOf(day);
    CalendarByWeeks(day);
    WeeksIntoMeans(day, y - 1);
    WeeksIntoMeans(day, y);
    WeeksIntoMeans(day, y + 1);
    ChosenYear(day, y, WeeksInto(day, y - 1), WeeksInto(day, y), WeeksInto(day, y + 1));
  }

  lemma ThreeYears(y: nat)
    requires y >= 1
    ensures JanuaryFirst(y - 1) + 365 <= JanuaryFirst(y) <= JanuaryFirst(y - 1) + 366
    ensures JanuaryFirst(y) + 365 <= JanuaryFirst(y + 1) <= JanuaryFirst(y) + 366
    ensures JanuaryFirst(y + 1) + 365 <= JanuaryFirst(y + 2) <= JanuaryFirst(y + 1) + 366
  {
  }

  lemma WeekHasSevenDays(monday: int)
    requires Weekday(monday) == 0
    ensures monday % 7 == 1 && (monday + 3) % 7 == 4
  {
    assert monday + 6 == 7 * ((monday + 6) / 7);
    assert monday == 7 * ((monday + 6) / 7 - 1) + 1;
  }

  // Week 53 is accepted exactly in the years whose 53rd Thursday exists.
  lemma LongYears(year: nat, thursday: int)
    requires thursday % 7 == 4 && JanuaryFirst(year) + 364 <= thursday < JanuaryFirst(year) + 371
    ensures thursday < JanuaryFirst(year + 1)
       <==> JanuaryFirst(year) % 7 == 4 || (JanuaryFirst(year) % 7 == 3 && IsLeap(year))
  {
    var first := JanuaryFirst(year);
    assert thursday == 7 * (thursday / 7) + 4 && first == 7 * (first / 7) + first % 7;
  }

  // Where a Monday stands in its ISO year.
  lemma MondayInYear(monday: int) returns (year: nat, k: nat)
    requires monday >= 1 && Weekday(monday) == 0
    ensures IsoCalendar(monday) == (year, k + 1) && monday == WeekOneMonday(year) + 7 * k
    ensures k <= 52 && JanuaryFirst(year) + 7 * k <= monday + 3 < JanuaryFirst(year) + 7 * k + 7
    ensures monday + 3 < JanuaryFirst(year + 1)
  {
    IsoYearIsThursdays(monday);
    year := IsoCalendar(monday).0;
    var weeks := WeeksSince(monday, year);
    assert JanuaryFirst(year + 1) == JanuaryFirst(year) + YearDays(year);
    k := weeks;
  }

  lemma Accepted(year: nat, week: int)
    requires 1 <= year <= 9999 && 0 < week <= 53
    requires week == 53 ==> JanuaryFirst(year) % 7 == 4 || (JanuaryFirst(year) % 7 == 3 && IsLeap(year))
    ensures FromIsoCalendar(year, week) == Some(WeekOneMonday(year) + (week - 1) * 7)
  {
  }

  // Reading a Monday as an ISO week and back gives the same Monday.
  lemma MondayReadsBack(monday: int)
    requires monday >= 1 && Weekday(monday) == 0 && 1 <= IsoCalendar(monday).0 <= 9999
    ensures FromIsoCalendar(IsoCalendar(monday).0, IsoCalendar(monday).1) == Some(monday)
  {
    var year, k := MondayInYear(monday);
    if k == 52 {
      WeekHasSevenDays(monday);
      LongYears(year, monday + 3);
    }
    Accepted(year, k + 1);
  }

  // An accepted ISO week names a Monday that reads back as that week.
  lemma IsoWeekReadsBack(year: nat, week: int)
    requires FromIsoCalendar(year, week).Some?
    ensures var monday := FromIsoCalendar(year, week).value;
            monday >= 1 && Weekday(monday) == 0 && IsoCalendar(monday) == (year, week)
  {
    var monday := FromIsoCalendar(year, week).value;
    WeekOneHoldsFirstThursday(year);
    FirstWeekStarts(year);
    assert monday + 6 == WeekOneMonday(year) + 6 + 7 * (week - 1);
    WeekHasSevenDays(monday);
    if week == 53 {
      LongYears(year, monday + 3);
    }
    assert JanuaryFirst(year) <= monday + 3 < JanuaryFirst(year + 1);
    var y, k := MondayInYear(monday);
    YearIsUnique(monday + 3, year);
    YearIsUnique(monday + 3, y);
  }

  lemma {:induction false} FirstWeekStarts(year: nat)
    requires year >= 1
    ensures WeekOneMonday(year) >= 1
  {
    YearsAreOrdered(1, year);
    assert JanuaryFirst(1) == 1;
    WeekOneHoldsFirstThursday(year);
  }

  // ---- periods ------------------------------------------------------------------------

  datatype Period = Period(start: Instant, end: Instant) {
    predicate Contains(t: Instant) { start <= t < end }
  }

  function WeekContaining(t: Instant): Period {
    var start := MidnightOf(DayOf(t)) - Weekday(DayOf(t)) * DAY;
    Period(start, start + WEEK)
  }

  function PreviousPeriod(t: Instant): Period {
    Period(WeekContaining(t).start - WEEK, WeekContaining(t).start)
  }

  // 9999-12-31, the last day there is.
  const LAST_DAY: int := 3652059

  // Nothing for a week that is not there, and none for one that ends after the last day.
  function PeriodForIsoWeek(year: nat, week: int): Option<Period> {
    match FromIsoCalendar(year, week)
    case None => None
    case Some(day) => if day + 7 > LAST_DAY then None else Some(Period(MidnightOf(day), MidnightOf(day) + WEEK))
  }

  lemma LastDayIs()
    ensures JanuaryFirst(10000) == LAST_DAY + 1
  {
    JanuaryFirstClosed(10000);
  }

  // A week that ends by then belongs to an ISO year of the calendar.
  lemma YearIsThere(monday: int)
    requires monday >= 1 && monday + 7 <= LAST_DAY && Weekday(monday) == 0
    ensures 1 <= IsoCalendar(monday).0 <= 9999
  {
    LastDayIs();
    var year, k := MondayInYear(monday);
    if year >= 10000 {
      YearsAreOrdered(10000, year);
    }
    assert JanuaryFirst(1) == 1;
  }

  // Weeks are the blocks of seven days counted from a fixed Monday.
  ghost function WeekIndex(t: Instant): int { (t + OFFSET + 3 * DAY) / WEEK }

  lemma WeekStart(t: Instant)
    ensures WeekContaining(t).start == WEEK * WeekIndex(t) - 3 * DAY - OFFSET
  {
    var d := (t + OFFSET) / DAY;
    var r := (t + OFFSET) % DAY;
    assert t + OFFSET == DAY * d + r;
    assert d + 3 == 7 * ((d + 3) / 7) + (d + 3) % 7;
    assert EPOCH_DAY + 6 == 7 * 102738 + 3;
    assert (d + EPOCH_DAY + 6) % 7 == (d + 3) % 7;
    assert t + OFFSET + 3 * DAY == WEEK * ((d + 3) / 7) + (DAY * ((d + 3) % 7) + r);
  }

  lemma WeekIndexBounds(t: Instant)
    ensures WEEK * WeekIndex(t) <= t + OFFSET + 3 * DAY < WEEK * WeekIndex(t) + WEEK
  {
  }

  lemma WeekIndexUnique(t: Instant, k: int)
    requires WEEK * k <= t + OFFSET + 3 * DAY < WEEK * k + WEEK
    ensures WeekIndex(t) == k
  {
    WeekIndexBounds(t);
  }

  // Every instant lies in exactly one week.
  lemma OneWeekEach(t: Instant, u: Instant)
    ensures WeekContaining(t).Contains(t)
    ensures WeekContaining(t).Contains(u) <==> WeekContaining(u) == WeekContaining(t)
  {
    WeekStart(t);
    WeekStart(u);
    WeekIndexBounds(t);
    WeekIndexBounds(u);
    if WeekContaining(t).Contains(u) {
      WeekIndexUnique(u, WeekIndex(t));
    }
  }

  // Neighbouring weeks share their boundary, and the previous period is the week before.
  lemma WeeksTile(t: Instant)
    ensures WeekContaining(WeekContaining(t).end).start == WeekContaining(t).end
    ensures WeekContaining(PreviousPeriod(t).start) == PreviousPeriod(t)
    ensures PreviousPeriod(t).end == WeekContaining(t).start <= t
  {
    WeekStart(t);
    WeekIndexBounds(t);
    WeekIndexUnique(WeekContaining(t).end, WeekIndex(t) + 1);
    WeekStart(WeekContaining(t).end);
    WeekIndexUnique(PreviousPeriod(t).start, WeekIndex(t) - 1);
    WeekStart(PreviousPeriod(t).start);
  }

  lemma StartIsMonday(t: Instant)
    ensures var day := DayOf(WeekContaining(t).start);
            Weekday(day) == 0 && MidnightOf(day) == WeekContaining(t).start
  {
    var day := DayOf(t) - Weekday(DayOf(t));
    MondayOf(DayOf(t));
    assert WeekContaining(t).start == MidnightOf(day);
    assert DayOf(MidnightOf(day)) == day;
  }

  lemma StartIsThreeDaysBefore(t: Instant)
    ensures var p := WeekContaining(t);
            p.start <= t < p.start + 604800 == p.end && (p.start + 28800 + 3 * 86400) % 604800 == 0
  {
    WeekStart(t);
    WeekIndexBounds(t);
  }

  // The week of an instant, its ISO year and its number, in seconds alone: it begins on a Monday,
  // three days before a multiple of seven days from 1970 on; its ISO year is the calendar year its
  // Thursday begins in, and its number counts the Thursdays of that year.
  lemma WeekOfInstant(t: Instant)
    requires DayOf(WeekContaining(t).start) >= 1
    ensures var p := WeekContaining(t);
            var thursday := p.start + 28800 + 3 * 86400;
            var (year, week) := IsoCalendar(DayOf(p.start));
            && p.start <= t < p.start + 604800 == p.end
            && thursday % 604800 == 0
            && YearStart(year) <= thursday < YearStart(year + 1)
            && week == (thursday - YearStart(year)) / 604800 + 1
  {
    var day := DayOf(WeekContaining(t).start);
    StartIsThreeDaysBefore(t);
    StartIsMonday(t);
    IsoYearIsThursdays(day);
    ThursdayInSeconds(day, IsoCalendar(day).0, IsoCalendar(day).1);
  }

  lemma ThursdayInSeconds(monday: int, year: nat, week: int)
    requires Weekday(monday) == 0 && IsThursdayOf(ThursdayOf(monday), year, week)
    ensures var thursday := MidnightOf(monday) + 28800 + 3 * 86400;
            && YearStart(year) <= thursday < YearStart(year + 1)
            && week == (thursday - YearStart(year)) / 604800 + 1
  {
    YearStartIs(year);
    YearStartIs(year + 1);
    WeeksOfSeconds(monday + 3 - JanuaryFirst(year));
  }

  lemma WeeksOfSeconds(days: int)
    ensures days * 86400 / 604800 == days / 7
  {
    assert days == 7 * (days / 7) + days % 7;
    assert days * 86400 == 604800 * (days / 7) + 86400 * (days % 7);
  }

  // ---- week codes -----------------------------------------------------------------------

  function TwoDigits(week: int): string
    requires 0 <= week < 100
  {
    [DigitOf(week / 10), DigitOf(week % 10)]
  }

  // `YYYY-Www`, by the ISO year of the period start.
  function WeekCode(p: Period): string
    requires DayOf(p.start) >= 1 && 0 <= IsoCalendar(DayOf(p.start)).1 < 100
  {
    ToDecimal(IsoCalendar(DayOf(p.start)).0) + "-W" + TwoDigits(IsoCalendar(DayOf(p.start)).1)
  }

  predicate SeparatorAt(s: string, i: nat) {
    i + 1 < |s| && s[i] == '-' && s[i + 1] == 'W'
  }

  // Where the separator first occurs, from position `i` on.
  function FindSeparator(s: string, i: nat): (k: nat)
    requires i <= |s|
    ensures i <= k <= |s|
    ensures forall j :: i <= j < k ==> !SeparatorAt(s, j)
    ensures k < |s| ==> SeparatorAt(s, k)
    decreases |s| - i
  {
    if i == |s| || SeparatorAt(s, i) then i else FindSeparator(s, i + 1)
  }

  // The parts must be two and plain numerals.
  function ReportPeriodFor(code: string): Option<Period> {
    var i := FindSeparator(code, 0);
    if i == |code| then None
    else
      var year, week := code[..i], code[i + 2..];
      if FindSeparator(week, 0) != |week| || year == "" || week == "" || !AllDigits(year) || !AllDigits(week) then None
      else PeriodForIsoWeek(FromDecimal(year), FromDecimal(week))
  }

  lemma SeparatorInCode(year: string, week: string)
    requires AllAscii(year) && AllAscii(week)
    ensures FindSeparator(week, 0) == |week|
    ensures FindSeparator(year + "-W" + week, 0) == |year|
  {
    var code := year + "-W" + week;
    assert SeparatorAt(code, |year|);
    forall j | 0 <= j < |year|
      ensures !SeparatorAt(code, j)
    {
      assert code[j] == year[j];
    }
  }

  lemma WeekNumberBounds(day: int)
    requires day >= 1
    ensures 1 <= IsoCalendar(day).1 <= 53
  {
    IsoYearIsThursdays(day);
  }

  lemma TwoDigitsReadBack(week: int)
    requires 0 <= week < 100
    ensures AllAscii(TwoDigits(week)) && FromDecimal(TwoDigits(week)) == week
  {
    var s := TwoDigits(week);
    assert s[..1] == [s[0]] && s[..1][..0] == "";
    assert FromDecimal(s[..1]) == week / 10;
  }

  lemma CodeParses(year: nat, week: int)
    requires 0 <= week < 100
    ensures ReportPeriodFor(ToDecimal(year) + "-W" + TwoDigits(week)) == PeriodForIsoWeek(year, week)
  {
    var y, w := ToDecimal(year), TwoDigits(week);
    var code := y + "-W" + w;
    DecimalRoundTrip(year);
    TwoDigitsReadBack(week);
    SeparatorInCode(y, w);
    assert code[..|y|] == y && code[|y| + 2..] == w;
  }

  lemma PeriodOfWeek(year: nat, week: int, monday: int)
    requires FromIsoCalendar(year, week) == Some(monday)
    ensures PeriodForIsoWeek(year, week)
         == if monday + 7 <= LAST_DAY then Some(Period(MidnightOf(monday), MidnightOf(monday) + WEEK)) else None
  {
  }

  lemma PeriodOfMonday(day: int)
    requires day >= 1 && Weekday(day) == 0 && 1 <= IsoCalendar(day).0 <= 9999
    ensures 0 <= IsoCalendar(day).1 < 100
    ensures PeriodForIsoWeek(IsoCalendar(day).0, IsoCalendar(day).1)
         == if day + 7 <= LAST_DAY then Some(Period(MidnightOf(day), MidnightOf(day) + WEEK)) else None
  {
    WeekNumberBounds(day);
    MondayReadsBack(day);
    PeriodOfWeek(IsoCalendar(day).0, IsoCalendar(day).1, day);
  }

  lemma CodeOfPeriod(p: Period, year: nat, week: int)
    requires DayOf(p.start) >= 1 && IsoCalendar(DayOf(p.start)) == (year, week) && 0 <= week < 100
    ensures ReportPeriodFor(WeekCode(p)) == PeriodForIsoWeek(year, week)
  {
    CodeParses(year, week);
  }

  // A report week's code leads back to the same week, across ISO year boundaries, exactly if
  // the week ends by the last day there is.
  lemma CodeReadsBack(t: Instant)
    requires DayOf(WeekContaining(t).start) >= 1
    ensures 0 <= IsoCalendar(DayOf(WeekContaining(t).start)).1 < 100
    ensures ReportPeriodFor(WeekCode(WeekContaining(t)))
         == if DayOf(WeekContaining(t).start) + 7 <= LAST_DAY then Some(WeekContaining(t)) else None
  {
    var p := WeekContaining(t);
    var day := DayOf(p.start);
    StartIsMonday(t);
    WeekNumberBounds(day);
    CodeOfPeriod(p, IsoCalendar(day).0, IsoCalendar(day).1);
    assert p == Period(MidnightOf(day), MidnightOf(day) + WEEK);
    if 1 <= IsoCalendar(day).0 <= 9999 {
      PeriodOfMonday(day);
    }
    if day + 7 <= LAST_DAY {
      YearIsThere(day);
    }
  }

  lemma FourDigitYears(year: nat)
    requires 1000 <= year <= 9999
    ensures |ToDecimal(year)| == 4
  {
    assert |ToDecimal(year / 1000)| == 1;
    assert year / 10 / 10 == year / 100 && year / 100 / 10 == year / 1000;
    assert |ToDecimal(year / 100)| == 2 && |ToDecimal(year / 10)| == 3;
  }

  lemma ShortYears(year: nat)
    requires year < 1000
    ensures |ToDecimal(year)| <= 3
  {
    assert year / 10 / 10 == year / 100;
    assert |ToDecimal(year / 100)| == 1 && |ToDecimal(year / 10)| <= 2;
  }

  lemma FittingCode(year: nat, week: int, id: nat)
    requires 1 <= year <= 9999 && 0 <= week < 100
    ensures var code := ToDecimal(year) + "-W" + TwoDigits(week);
            && (IsWeekCode(code) <==> year >= 1000)
            && (ParseCandidateName(CandidateFileName(code, id)) == Some((code, id)) <==> year >= 1000)
  {
    var code := ToDecimal(year) + "-W" + TwoDigits(week);
    if year < 1000 {
      ShortYears(year);
      assert |code| < 8;
    } else {
      FourDigitYears(year);
      DecimalRoundTrip(year);
      TwoDigitsReadBack(week);
      assert code[..4] == ToDecimal(year) && code[4..6] == "-W" && code[6..] == TwoDigits(week);
      CandidateReadsBack(code, id);
    }
  }

  // The code has the form candidate names rely on, and is read back from them, exactly in the
  // ISO years of four digits.
  lemma CodeFitsCandidateNames(t: Instant, id: nat)
    requires DayOf(WeekContaining(t).start) >= 1
    ensures 0 <= IsoCalendar(DayOf(WeekContaining(t).start)).1 < 100
    ensures var code, year := WeekCode(WeekContaining(t)), IsoCalendar(DayOf(WeekContaining(t).start)).0;
            1 <= year <= 9999 ==>
              (ParseCandidateName(CandidateFileName(code, id)) == Some((code, id)) <==> year >= 1000)
  {
    var day := DayOf(WeekContaining(t).start);
    WeekNumberBounds(day);
    if 1 <= IsoCalendar(day).0 <= 9999 {
      FittingCode(IsoCalendar(day).0, IsoCalendar(day).1, id);
    }
  }

  // ---- fixed points -------------------------------------------------------------------------

  lemma NewYear2026()
    ensures YearStart(2026) == 1767225600
  {
    YearStartIs(2026);
    JanuaryFirstClosed(2026);
  }

  // An instant within three hundred years from 1970 on is far from either end of the calendar.
  lemma DayIsThere(t: Instant)
    requires 0 <= t < 300 * 365 * 86400
    ensures DayOf(WeekContaining(t).start) >= 1 && DayOf(WeekContaining(t).start) + 7 <= LAST_DAY
  {
    StartIsThreeDaysBefore(t);
  }

  lemma FirstMonday(monday: int, year: nat)
    requires monday >= 1 && Weekday(monday) == 0 && year >= 1
    requires JanuaryFirst(year) <= monday + 3 < JanuaryFirst(year) + 7
    ensures IsoCalendar(monday) == (year, 1)
  {
    IsoYearIsThursdays(monday);
    YearIsUnique(monday + 3, year);
    YearIsUnique(monday + 3, IsoCalendar(monday).0);
  }

  // The week whose Thursday is among the first seven days of a year is its first.
  lemma FirstWeek(t: Instant, year: nat)
    requires DayOf(WeekContaining(t).start) >= 1 && year >= 1
    requires YearStart(year) <= WeekContaining(t).start + 288000 < YearStart(year) + 604800
    ensures IsoCalendar(DayOf(WeekContaining(t).start)) == (year, 1)
    ensures WeekCode(WeekContaining(t)) == ToDecimal(year) + "-W01"
  {
    StartIsMonday(t);
    YearStartIs(year);
    FirstMonday(DayOf(WeekContaining(t).start), year);
    WeekOneText(ToDecimal(year));
  }

  lemma WeekOneText(year: string)
    ensures year + "-W" + TwoDigits(1) == year + "-W01"
  {
    assert TwoDigits(1) == "01";
  }

  lemma YearsText()
    ensures ToDecimal(1970) + "-W01" == "1970-W01" && ToDecimal(2026) + "-W01" == "2026-W01"
  {
    FourFigures(1970);
    FourFigures(2026);
  }

  // The week of the instant 0 and the week from 2025-12-29 to 2026-01-05.
  lemma KnownWeeks(t: Instant)
    ensures -288000 <= t < 316800 ==> WeekContaining(t) == Period(-288000, 316800)
    ensures 1766937600 <= t < 1767542400 ==> WeekContaining(t) == Period(1766937600, 1767542400)
  {
    WeekStart(t);
    WeekIndexBounds(t);
  }

  // The first is the first week of 1970.
  lemma EpochCode(t: Instant)
    requires 0 <= t < 316800
    ensures DayOf(WeekContaining(t).start) >= 1 && IsoCalendar(DayOf(WeekContaining(t).start)).1 == 1
    ensures WeekCode(WeekContaining(t)) == "1970-W01"
  {
    StartIsThreeDaysBefore(t);
    FirstWeek(t, 1970);
    YearsText();
  }

  // From three days before 2026 to four days into it, an instant is in the first week of 2026,
  // and the week's code leads back to that week.
  lemma NewYearsCode(seconds: int)
    requires -259200 <= seconds < 345600
    ensures var week := WeekContaining(1767196800 + seconds);
            && DayOf(week.start) >= 1 && IsoCalendar(DayOf(week.start)).1 == 1
            && WeekCode(week) == "2026-W01"
            && ReportPeriodFor(WeekCode(week)) == Some(week)
  {
    var t := 1767196800 + seconds;
    StartIsThreeDaysBefore(t);
    DayIsThere(t);
    NewYear2026();
    FirstWeek(t, 2026);
    YearsText();
    CodeReadsBack(t);
  }

  lemma FourFigures(year: nat)
    requires 1000 <= year <= 9999
    ensures ToDecimal(year)
         == [DigitOf(year / 1000), DigitOf(year / 100 % 10), DigitOf(year / 10 % 10), DigitOf(year % 10)]
  {
    assert year / 10 / 10 == year / 100 && year / 100 / 10 == year / 1000;
    assert ToDecimal(year / 1000) == [DigitOf(year / 1000)];
    assert ToDecimal(year / 100) == ToDecimal(year / 1000) + [DigitOf(year / 100 % 10)];
    assert ToDecimal(year / 10) == ToDecimal(year / 100) + [DigitOf(year / 10 % 10)];
  }
}
