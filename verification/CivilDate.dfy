/**
 The build stamp's civil date, computed from a day count by integer division, against the
 Gregorian calendar: month lengths as in section 5.7 of RFC 3339, leap years as in its
 Appendix C.
 */
module CivilDate {

  datatype Date = Date(year: nat, month: nat, day: nat)

  datatype Stamp = Stamp(date: Date, hour: nat, minute: nat)

  // ---- the calendar -----------------------------------------------------------------

  predicate Leap(y: nat) {
    y % 4 == 0 && (y % 100 != 0 || y % 400 == 0)
  }

  function DaysInMonth(y: nat, m: nat): (n: nat)
    requires 1 <= m <= 12
    ensures 28 <= n <= 31
  {
    if m == 2 then if Leap(y) then 29 else 28
    else if m == 4 || m == 6 || m == 9 || m == 11 then 30
    else 31
  }

  predicate OnCalendar(d: Date) {
    1 <= d.month <= 12 && 1 <= d.day <= DaysInMonth(d.year, d.month)
  }

  function Tomorrow(d: Date): (t: Date)
    requires OnCalendar(d)
    ensures OnCalendar(t)
  {
    if d.day < DaysInMonth(d.year, d.month) then d.(day := d.day + 1)
    else if d.month < 12 then Date(d.year, d.month + 1, 1)
    else Date(d.year + 1, 1, 1)
  }

  const EPOCH := Date(1970, 1, 1)

  predicate Before(a: Date, b: Date) {
    || a.year < b.year
    || (a.year == b.year && a.month < b.month)
    || (a.year == b.year && a.month == b.month && a.day < b.day)
  }

  // ---- the algorithm, on unsigned values ---------------------------------------------

  function YearOfEra(doe: nat): (yoe: nat) {
    (doe - doe / 1460 + doe / 36524 - doe / 146096) / 365
  }

  /** The day of the era on which year `yoe`, counted from March, begins. */
  function YearStart(yoe: nat): (doe: nat) {
    365 * yoe + yoe / 4 - yoe / 100
  }

  function DateFromDays(days: nat): (r: Date) {
    var z := days + 719468;
    var era := z / 146097;
    var doe := z - era * 146097;
    var yoe := YearOfEra(doe);
    YearSpec(doe);
    var y := yoe + era * 400;
    var doy: nat := doe - YearStart(yoe);
    MonthSpec(doy);
    var mp := (5 * doy + 2) / 153;
    var d: nat := doy - (153 * mp + 2) / 5 + 1;
    var m: nat := if mp < 10 then mp + 3 else mp - 9;
    Date(if m <= 2 then y + 1 else y, m, d)
  }

  function StampFromSeconds(seconds: nat): (r: Stamp) {
    var rem := seconds % 86400;
    Stamp(DateFromDays(seconds / 86400), rem / 3600, rem % 3600 / 60)
  }

  // ---- years of an era ----------------------------------------------------------------

  /** A year counted from March holds the leap day of the calendar year it ends in. */
  function YearLength(yoe: nat): (n: nat)
    ensures 365 <= n <= 366
  {
    if Leap(yoe + 1) then 366 else 365
  }

  /** The quotients of a day within a whole century of the era, one century and leap cycle at a time. */
  lemma CenturySplit(c: nat, q: nat, t: nat)
    requires c <= 3 && q <= 24 && t <= 1460 && (q == 24 ==> t <= 1459)
    ensures var doe := 36524 * c + 1461 * q + t;
            var k := if t / 365 < 3 then t / 365 else 3;
            && YearOfEra(doe) == 100 * c + 4 * q + k
            && YearStart(100 * c + 4 * q + k) == 36524 * c + 1461 * q + 365 * k
  {
    var doe := 36524 * c + 1461 * q + t;
    var k := if t / 365 < 3 then t / 365 else 3;
    var late := if 24 * c + q + t >= 1460 then 1 else 0;
    assert doe == 1460 * (25 * c + q + late) + (24 * c + q + t - 1460 * late);
    assert doe / 1460 == 25 * c + q + late;
    assert doe / 36524 == c;
    assert doe / 146096 == 0;
    assert doe - doe / 1460 + doe / 36524 - doe / 146096 == 365 * (100 * c + 4 * q) + (t - late);
    assert (t - late) / 365 == k;
    var yoe := 100 * c + 4 * q + k;
    assert yoe / 4 == 25 * c + q;
    assert yoe / 100 == c;
  }

  /** The last year of a leap cycle is long, the century's last cycle aside. */
  lemma CycleEndsLong(c: nat, q: nat)
    requires c <= 3 && q < 24
    ensures YearLength(100 * c + 4 * q + 3) == 366
  {
    assert 100 * c + 4 * q + 4 == 4 * (25 * c + q + 1);
    assert (100 * c + 4 * q + 4) / 100 == c;
  }

  lemma YearSpec(doe: nat)
    requires doe < 146097
    ensures YearOfEra(doe) <= 399
    ensures YearStart(YearOfEra(doe)) <= doe < YearStart(YearOfEra(doe)) + YearLength(YearOfEra(doe))
  {
    var c := doe / 36524;
    if c == 4 {
      assert doe == 146096;
      assert YearOfEra(doe) == 399;
    } else {
      var r := doe % 36524;
      CenturySpec(c, r / 1461, r % 1461);
    }
  }

  lemma CenturySpec(c: nat, q: nat, t: nat)
    requires c <= 3 && q <= 24 && t <= 1460 && (q == 24 ==> t <= 1459)
    ensures var doe := 36524 * c + 1461 * q + t;
            && YearOfEra(doe) <= 399
            && YearStart(YearOfEra(doe)) <= doe < YearStart(YearOfEra(doe)) + YearLength(YearOfEra(doe))
  {
    hide YearOfEra, YearStart, Leap;
    CenturySplit(c, q, t);
    if t == 1460 {
      CycleEndsLong(c, q);
    }
  }

  lemma QuarterStep(y: nat)
    requires y > 0
    ensures y / 4 == (y - 1) / 4 + (if y % 4 == 0 then 1 else 0)
  {
  }

  lemma CenturyStep(y: nat)
    requires y > 0
    ensures y / 100 == (y - 1) / 100 + (if y % 100 == 0 then 1 else 0)
    ensures y % 100 == 0 ==> y % 4 == 0
  {
    if y % 100 == 0 {
      assert y == 4 * (25 * (y / 100));
    }
  }

  lemma YearsAbut(yoe: nat)
    requires yoe < 399
    ensures YearStart(yoe + 1) == YearStart(yoe) + YearLength(yoe)
  {
    QuarterStep(yoe + 1);
    CenturyStep(yoe + 1);
    assert (yoe + 1) % 400 != 0;
  }

  lemma {:induction false} YearsAscend(a: nat, b: nat)
    requires a < b <= 399
    ensures YearStart(a) + YearLength(a) <= YearStart(b)
  {
    YearsAbut(b - 1);
    if a < b - 1 {
      YearsAscend(a, b - 1);
    }
  }

  lemma EraEnds()
    ensures YearStart(399) + YearLength(399) == 146097
  {
  }

  /** The year a day of the era falls in is the only one whose span contains it. */
  lemma YearIsUnique(doe: nat, yoe: nat)
    requires doe < 146097 && yoe <= 399
    requires YearStart(yoe) <= doe < YearStart(yoe) + YearLength(yoe)
    ensures YearOfEra(doe) == yoe
  {
    YearSpec(doe);
    var found := YearOfEra(doe);
    if found < yoe {
      YearsAscend(found, yoe);
    } else if yoe < found {
      YearsAscend(yoe, found);
    }
  }

  // ---- months of a year ---------------------------------------------------------------

  function MonthStart(mp: nat): (doy: nat) {
    (153 * mp + 2) / 5
  }

  lemma MonthSpec(doy: nat)
    requires doy <= 365
    ensures var mp := (5 * doy + 2) / 153; mp <= 11 && MonthStart(mp) <= doy < MonthStart(mp + 1)
  {
  }

  lemma MonthIsUnique(doy: nat, mp: nat)
    requires doy <= 365 && mp <= 11 && MonthStart(mp) <= doy < MonthStart(mp + 1)
    ensures (5 * doy + 2) / 153 == mp
  {
  }

  function MonthOf(mp: nat): (m: nat)
    requires mp <= 11
    ensures 1 <= m <= 12
  {
    if mp < 10 then mp + 3 else mp - 9
  }

  function YearOf(era: nat, yoe: nat, mp: nat): (y: nat) {
    if mp >= 10 then yoe + era * 400 + 1 else yoe + era * 400
  }

  /** A date by era, year of era and day of that year, all counted from March. */
  function Assemble(era: nat, yoe: nat, doy: nat): (r: Date)
    requires doy <= 365
  {
    MonthSpec(doy);
    var mp := (5 * doy + 2) / 153;
    Date(YearOf(era, yoe, mp), MonthOf(mp), doy - MonthStart(mp) + 1)
  }

  lemma MonthLengths(y: nat, mp: nat)
    requires mp <= 10
    ensures MonthStart(mp + 1) - MonthStart(mp) == DaysInMonth(y, MonthOf(mp))
  {
  }

  lemma AssembleInMonth(era: nat, yoe: nat, mp: nat, doy: nat)
    requires doy <= 365 && mp <= 11 && MonthStart(mp) <= doy < MonthStart(mp + 1)
    ensures Assemble(era, yoe, doy) == Date(YearOf(era, yoe, mp), MonthOf(mp), doy - MonthStart(mp) + 1)
  {
    MonthIsUnique(doy, mp);
  }

  lemma FourRepeats(y: nat)
    ensures (y + 400) % 4 == y % 4
  {
    assert (y + 400) / 4 == y / 4 + 100;
  }

  lemma HundredRepeats(y: nat)
    ensures (y + 400) % 100 == y % 100
  {
    assert (y + 400) / 100 == y / 100 + 4;
  }

  lemma FourHundredRepeats(y: nat)
    ensures (y + 400) % 400 == y % 400
  {
    assert (y + 400) / 400 == y / 400 + 1;
  }

  lemma LeapRepeats(y: nat)
    ensures Leap(y + 400) == Leap(y)
  {
    FourRepeats(y);
    HundredRepeats(y);
    FourHundredRepeats(y);
  }

  lemma {:induction false} LeapByEra(era: nat, yoe: nat)
    ensures Leap(era * 400 + yoe) == Leap(yoe)
  {
    hide Leap;
    if era > 0 {
      LeapByEra(era - 1, yoe);
      LeapRepeats((era - 1) * 400 + yoe);
    }
  }

  lemma AssembleSteps(era: nat, yoe: nat, doy: nat)
    requires yoe <= 399 && doy < YearLength(yoe)
    ensures OnCalendar(Assemble(era, yoe, doy))
    ensures doy + 1 < YearLength(yoe) ==> Tomorrow(Assemble(era, yoe, doy)) == Assemble(era, yoe, doy + 1)
    ensures doy + 1 == YearLength(yoe) ==> Tomorrow(Assemble(era, yoe, doy)) == Assemble(era, yoe + 1, 0)
  {
    MonthSpec(doy);
    var mp := (5 * doy + 2) / 153;
    if mp <= 10 {
      StepBeforeFebruary(era, yoe, mp, doy);
    } else {
      StepInFebruary(era, yoe, doy);
    }
  }

  lemma StepBeforeFebruary(era: nat, yoe: nat, mp: nat, doy: nat)
    requires mp <= 10 && MonthStart(mp) <= doy < MonthStart(mp + 1) && doy <= 336
    ensures OnCalendar(Assemble(era, yoe, doy)) && Tomorrow(Assemble(era, yoe, doy)) == Assemble(era, yoe, doy + 1)
  {
    assert MonthStart(mp) < MonthStart(mp + 1) < MonthStart(mp + 2);
    hide MonthStart, Leap, Assemble;
    MonthLengths(YearOf(era, yoe, mp), mp);
    AssembleInMonth(era, yoe, mp, doy);
    if doy + 1 < MonthStart(mp + 1) {
      AssembleInMonth(era, yoe, mp, doy + 1);
    } else {
      AssembleInMonth(era, yoe, mp + 1, doy + 1);
    }
  }

  lemma StepInFebruary(era: nat, yoe: nat, doy: nat)
    requires MonthStart(11) <= doy < YearLength(yoe)
    ensures OnCalendar(Assemble(era, yoe, doy))
    ensures doy + 1 < YearLength(yoe) ==> Tomorrow(Assemble(era, yoe, doy)) == Assemble(era, yoe, doy + 1)
    ensures doy + 1 == YearLength(yoe) ==> Tomorrow(Assemble(era, yoe, doy)) == Assemble(era, yoe + 1, 0)
  {
    assert MonthStart(0) == 0 && MonthStart(1) == 31 && MonthStart(11) == 337 && MonthStart(12) == 367;
    hide MonthStart, Leap, Assemble;
    LeapByEra(era, yoe + 1);
    AssembleInMonth(era, yoe, 11, doy);
    if doy + 1 < YearLength(yoe) {
      AssembleInMonth(era, yoe, 11, doy + 1);
    }
    AssembleInMonth(era, yoe + 1, 0, 0);
  }

  // ---- days -----------------------------------------------------------------------------

  lemma DateIsAssembled(days: nat, era: nat, yoe: nat, doy: nat)
    requires yoe <= 399 && doy < YearLength(yoe)
    requires days + 719468 == era * 146097 + YearStart(yoe) + doy
    requires YearStart(yoe) + doy < 146097
    ensures DateFromDays(days) == Assemble(era, yoe, doy)
  {
    YearIsUnique(YearStart(yoe) + doy, yoe);
    assert (days + 719468) / 146097 == era;
  }

  /** Where the next day of a year of an era lies. */
  lemma DayAfter(days: nat, era: nat, yoe: nat, doy: nat)
    requires yoe <= 399 && doy < YearLength(yoe)
    requires days + 719468 == era * 146097 + YearStart(yoe) + doy
    requires YearStart(yoe) + doy < 146097
    ensures doy + 1 < YearLength(yoe) ==> DateFromDays(days + 1) == Assemble(era, yoe, doy + 1)
    ensures doy + 1 == YearLength(yoe) ==> DateFromDays(days + 1) == Assemble(era, yoe + 1, 0)
  {
    hide DateFromDays, YearOfEra, YearStart, YearLength, Assemble;
    YearsFitEra(yoe);
    if doy + 1 < YearLength(yoe) {
      DateIsAssembled(days + 1, era, yoe, doy + 1);
    } else if yoe < 399 {
      YearsAbut(yoe);
      YearsFitEra(yoe + 1);
      DateIsAssembled(days + 1, era, yoe + 1, 0);
    } else {
      EraEnds();
      DateIsAssembled(days + 1, era + 1, 0, 0);
      NextEraSameYear(era);
    }
  }

  lemma YearsFitEra(yoe: nat)
    requires yoe <= 399
    ensures YearStart(yoe) + YearLength(yoe) <= 146097
    ensures YearStart(0) == 0
  {
    EraEnds();
    if yoe < 399 {
      YearsAscend(yoe, 399);
    }
  }

  lemma NextEraSameYear(era: nat)
    ensures Assemble(era, 400, 0) == Assemble(era + 1, 0, 0)
  {
  }

  /** Every day count names a day of the calendar, and the next count names the next day. */
  lemma DayByDay(days: nat)
    ensures OnCalendar(DateFromDays(days))
    ensures DateFromDays(days + 1) == Tomorrow(DateFromDays(days))
  {
    hide DateFromDays, YearOfEra, YearStart, YearLength, Assemble, Leap;
    var z := days + 719468;
    var era, doe := z / 146097, z % 146097;
    assert z == era * 146097 + doe;
    YearSpec(doe);
    var yoe := YearOfEra(doe);
    var doy := doe - YearStart(yoe);
    DateIsAssembled(days, era, yoe, doy);
    AssembleSteps(era, yoe, doy);
    DayAfter(days, era, yoe, doy);
  }

  lemma EpochIsDayZero()
    ensures DateFromDays(0) == EPOCH
  {
    DateIsAssembled(0, 4, 369, 306);
  }

  // ---- an independent count ---------------------------------------------------------------

  /** Leap years from 1970 up to but not including `y`. */
  function LeapsBefore(y: nat): (n: nat) {
    if y <= 1970 then 0 else LeapsBefore(y - 1) + (if Leap(y - 1) then 1 else 0)
  }

  function DaysBeforeMonth(y: nat, m: nat): (n: nat)
    requires 1 <= m <= 12
  {
    if m == 1 then 0 else DaysBeforeMonth(y, m - 1) + DaysInMonth(y, m - 1)
  }

  /** Days from the epoch, counted off the calendar a year and a month at a time. */
  function DayCount(d: Date): (n: nat)
    requires OnCalendar(d) && d.year >= 1970
  {
    365 * (d.year - 1970) + LeapsBefore(d.year) + DaysBeforeMonth(d.year, d.month) + d.day - 1
  }

  lemma DaysBeforeYearEnd(y: nat)
    ensures DaysBeforeMonth(y, 12) == if Leap(y) then 335 else 334
  {
    assert DaysBeforeMonth(y, 2) == 31;
    assert DaysBeforeMonth(y, 4) == if Leap(y) then 91 else 90;
    assert DaysBeforeMonth(y, 6) == if Leap(y) then 152 else 151;
    assert DaysBeforeMonth(y, 8) == if Leap(y) then 213 else 212;
    assert DaysBeforeMonth(y, 10) == if Leap(y) then 274 else 273;
  }

  lemma CountOfTomorrow(d: Date)
    requires OnCalendar(d) && d.year >= 1970
    ensures DayCount(Tomorrow(d)) == DayCount(d) + 1
  {
    DaysBeforeYearEnd(d.year);
  }

  /** The date computed from a count is the date at which the calendar reaches that count. */
  lemma {:induction false} CountOfDate(days: nat)
    ensures OnCalendar(DateFromDays(days)) && DateFromDays(days).year >= 1970
    ensures DayCount(DateFromDays(days)) == days
  {
    hide DateFromDays;
    DayByDay(days);
    if days == 0 {
      EpochIsDayZero();
      assert DaysBeforeMonth(1970, 1) == 0;
    } else {
      CountOfDate(days - 1);
      DayByDay(days - 1);
      CountOfTomorrow(DateFromDays(days - 1));
    }
  }

  lemma {:induction false} Ascending(a: nat, b: nat)
    requires a < b
    ensures Before(DateFromDays(a), DateFromDays(b))
  {
    hide DateFromDays;
    DayByDay(b - 1);
    if a < b - 1 {
      Ascending(a, b - 1);
    }
  }

  lemma CountAscends(a: Date, b: Date)
    requires OnCalendar(a) && OnCalendar(b) && a.year >= 1970 && Before(a, b)
    ensures DayCount(a) < DayCount(b)
    decreases b.year - a.year, b.month, b.day
  {
    if b.day > 1 {
      var y := b.(day := b.day - 1);
      CountOfTomorrow(y);
      if y != a {
        CountAscends(a, y);
      }
    } else if b.month > 1 {
      var y := Date(b.year, b.month - 1, DaysInMonth(b.year, b.month - 1));
      CountOfTomorrow(y);
      if y != a {
        CountAscends(a, y);
      }
    } else {
      var y := Date(b.year - 1, 12, 31);
      CountOfTomorrow(y);
      if y != a {
        CountAscends(a, y);
      }
    }
  }

  /** Every day of the calendar from the epoch on is reached, by its own count and no other. */
  lemma DateOfCount(d: Date)
    requires OnCalendar(d) && d.year >= 1970
    ensures DateFromDays(DayCount(d)) == d
  {
    var n := DayCount(d);
    CountOfDate(n);
    var e := DateFromDays(n);
    if Before(d, e) {
      CountAscends(d, e);
    } else if Before(e, d) {
      CountAscends(e, d);
    }
  }

  /** The stamp loses only the seconds of the minute. */
  lemma StampOfSeconds(seconds: nat)
    ensures var s := StampFromSeconds(seconds);
            && OnCalendar(s.date) && s.date.year >= 1970 && s.hour < 24 && s.minute < 60
            && (DayCount(s.date) * 24 + s.hour) * 60 + s.minute == seconds / 60
  {
    CountOfDate(seconds / 86400);
    var days, rem := seconds / 86400, seconds % 86400;
    var hour, minute := rem / 3600, rem % 3600 / 60;
    var left := rem % 3600 % 60;
    assert rem == hour * 3600 + minute * 60 + left;
    assert seconds == ((days * 24 + hour) * 60 + minute) * 60 + left;
  }
}
