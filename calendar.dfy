/** Dates as the script sees them: a pandas timestamp is a day count from
    1970-01-01, and `.month` is the month of the proleptic Gregorian date of
    that count (the civil-from-days conversion). */
module Calendar {
  datatype Date = Date(year: int, month: int, day: int)

  /** The year within a 400-year era of a day of that era. */
  function YearOfEra(doe: int): int
  {
    (doe - doe / 1460 + doe / 36524 - doe / 146096) / 365
  }

  /** The day within a March-based year of a day of the era. */
  function DayOfYear(doe: int, yoe: int): int
  {
    doe - (365 * yoe + yoe / 4 - yoe / 100)
  }

  /** The civil date of a day count from 1970-01-01. */
  function FromDays(days: int): (d: Date)
    ensures 1 <= d.month <= 12 && 1 <= d.day <= 31
  {
    var z := days + 719468;
    var era := z / 146097;
    var doe := z - era * 146097;
    var yoe := YearOfEra(doe);
    var doy := DayOfYear(doe, yoe);
    var mp := (5 * doy + 2) / 153;
    var m := if mp < 10 then mp + 3 else mp - 9;
    Date(yoe + era * 400 + (if m <= 2 then 1 else 0), m, doy - (153 * mp + 2) / 5 + 1)
  }

  /** The day count from 1970-01-01 of a civil date. */
  function ToDays(d: Date): int
  {
    var y := d.year - (if d.month <= 2 then 1 else 0);
    var era := y / 400;
    var yoe := y - era * 400;
    var doy := (153 * (if d.month > 2 then d.month - 3 else d.month + 9) + 2) / 5 + d.day - 1;
    var doe := yoe * 365 + yoe / 4 - yoe / 100 + doy;
    era * 146097 + doe - 719468
  }

  lemma DivShift1460(a: int, k: int) ensures (a + 1460 * k) / 1460 == a / 1460 + k {}
  lemma DivShift365(a: int, k: int) ensures (a + 365 * k) / 365 == a / 365 + k {}
  lemma DivShift100(a: int, k: int) ensures (a + 100 * k) / 100 == a / 100 + k {}
  lemma DivShift4(a: int, k: int) ensures (a + 4 * k) / 4 == a / 4 + k {}

  lemma YearOfEraSplit(c: int, q: int, r: int)
    requires 0 <= c < 4 && 0 <= q < 25 && 0 <= r < 1461 && 1461 * q + r < 36524
    ensures YearOfEra(36524 * c + 1461 * q + r) == 100 * c + 4 * q + (if r == 1460 then 3 else r / 365)
  {
    var doe := 36524 * c + 1461 * q + r;
    assert doe / 146096 == 0;
    assert doe / 36524 == c;
    var e := (24 * c + q + r) / 1460;
    DivShift1460(24 * c + q + r, 25 * c + q);
    assert doe / 1460 == 25 * c + q + e;
    assert e == 0 || r >= 1364;
    DivShift365(r - e, 100 * c + 4 * q);
  }

  lemma DayOfYearSplit(c: int, q: int, k: int)
    requires 0 <= c < 4 && 0 <= q < 25 && 0 <= k < 4
    ensures DayOfYear(36524 * c + 1461 * q + 365 * k, 100 * c + 4 * q + k) == 0
  {
    var yoe := 100 * c + 4 * q + k;
    DivShift4(k, 25 * c + q);
    DivShift100(4 * q + k, c);
    assert yoe / 4 == 25 * c + q;
    assert yoe / 100 == c;
  }

  /** A day of the era, short of its last, as century, four-year cycle and
      day within the cycle. */
  lemma EraSplit(doe: int) returns (c: int, q: int, r: int)
    requires 0 <= doe < 146096
    ensures 0 <= c < 4 && 0 <= q < 25 && 0 <= r < 1461 && 1461 * q + r < 36524
    ensures doe == 36524 * c + 1461 * q + r
  {
    c := doe / 36524;
    var r1 := doe % 36524;
    q := r1 / 1461;
    r := r1 % 1461;
  }

  lemma EraBounds(doe: int)
    requires 0 <= doe < 146097
    ensures 0 <= YearOfEra(doe) < 400 && 0 <= DayOfYear(doe, YearOfEra(doe)) < 366
  {
    if doe < 146096 {
      var c, q, r := EraSplit(doe);
      YearOfEraSplit(c, q, r);
      var k := if r == 1460 then 3 else r / 365;
      assert 0 <= r - 365 * k < 366;
      DayOfYearSplit(c, q, k);
      assert DayOfYear(doe, YearOfEra(doe)) == r - 365 * k;
    } else {
      assert YearOfEra(doe) == 399;
      assert DayOfYear(doe, 399) == 365;
    }
  }

  /** Every day count is the count of its own date: `FromDays` loses nothing. */
  lemma RoundTrip(days: int)
    ensures ToDays(FromDays(days)) == days
  {
    var era := (days + 719468) / 146097;
    var doe := days + 719468 - era * 146097;
    EraBounds(doe);
    var yoe := YearOfEra(doe);
    var doy := DayOfYear(doe, yoe);
    var mp := MarchMonth(doy);
    var d := FromDaysParts(days, era, doe, yoe, doy, mp);
    ToDaysOf(d, era, yoe, mp, doy);
  }

  /** The month, counted from March, of a day of a March-based year. */
  lemma MarchMonth(doy: int) returns (mp: int)
    requires 0 <= doy < 366
    ensures mp == (5 * doy + 2) / 153 && 0 <= mp < 12
  {
    mp := (5 * doy + 2) / 153;
  }

  /** `FromDays` spelled out from its intermediate values. */
  lemma FromDaysParts(days: int, era: int, doe: int, yoe: int, doy: int, mp: int) returns (d: Date)
    requires era == (days + 719468) / 146097 && doe == days + 719468 - era * 146097
    requires yoe == YearOfEra(doe) && doy == DayOfYear(doe, yoe) && mp == (5 * doy + 2) / 153
    requires 0 <= yoe < 400 && 0 <= mp < 12
    ensures d == FromDays(days)
    ensures d.year - (if d.month <= 2 then 1 else 0) == yoe + era * 400
    ensures (if d.month > 2 then d.month - 3 else d.month + 9) == mp
    ensures (153 * mp + 2) / 5 + d.day - 1 == doy
  {
    var m := if mp < 10 then mp + 3 else mp - 9;
    d := Date(yoe + era * 400 + (if m <= 2 then 1 else 0), m, doy - (153 * mp + 2) / 5 + 1);
  }

  /** `ToDays` of a date, given its era, year of era, March-based month and
      day of year. */
  lemma ToDaysOf(d: Date, era: int, yoe: int, mp: int, doy: int)
    requires d.year - (if d.month <= 2 then 1 else 0) == yoe + era * 400 && 0 <= yoe < 400
    requires (if d.month > 2 then d.month - 3 else d.month + 9) == mp
    requires (153 * mp + 2) / 5 + d.day - 1 == doy
    ensures ToDays(d) == era * 146097 + yoe * 365 + yoe / 4 - yoe / 100 + doy - 719468
  {
    DivShift400(yoe, era);
  }

  lemma DivShift400(a: int, k: int)
    requires 0 <= a < 400
    ensures (a + 400 * k) / 400 == k
  {
  }

  /** The dates of the day counts the examples use. */
  lemma FromDaysExamples()
    ensures FromDays(19731) == Date(2024, 1, 9)
    ensures FromDays(19732) == Date(2024, 1, 10)
    ensures FromDays(19823) == Date(2024, 4, 10)
    ensures FromDays(19919) == Date(2024, 7, 15)
  {
    assert 739199 / 146097 == 5 && 739200 / 146097 == 5 && 739291 / 146097 == 5 && 739387 / 146097 == 5;
    assert 8714 / 1460 == 5 && 8714 / 36524 == 0 && 8714 / 146096 == 0;
    assert 8715 / 1460 == 5 && 8715 / 36524 == 0 && 8715 / 146096 == 0;
    assert 8806 / 1460 == 6 && 8806 / 36524 == 0 && 8806 / 146096 == 0;
    assert 8902 / 1460 == 6 && 8902 / 36524 == 0 && 8902 / 146096 == 0;
    assert YearOfEra(8714) == 23 && YearOfEra(8715) == 23 && YearOfEra(8806) == 24 && YearOfEra(8902) == 24;
    assert 23 / 4 == 5 && 23 / 100 == 0 && 24 / 4 == 6 && 24 / 100 == 0;
    assert DayOfYear(8714, 23) == 314 && DayOfYear(8715, 23) == 315;
    assert DayOfYear(8806, 24) == 40 && DayOfYear(8902, 24) == 136;
    assert (5 * 314 + 2) / 153 == 10 && (5 * 315 + 2) / 153 == 10;
    assert (5 * 40 + 2) / 153 == 1 && (5 * 136 + 2) / 153 == 4;
    assert (153 * 10 + 2) / 5 == 306 && (153 * 1 + 2) / 5 == 31 && (153 * 4 + 2) / 5 == 122;
  }

  /** A leap year of the Gregorian calendar. */
  predicate IsLeapYear(y: int)
  {
    y % 4 == 0 && (y % 100 != 0 || y % 400 == 0)
  }

  /** The length of month `m` of year `y`. */
  function DaysInMonth(y: int, m: int): int
  {
    if m == 2 then (if IsLeapYear(y) then 29 else 28)
    else if m == 4 || m == 6 || m == 9 || m == 11 then 30
    else 31
  }

  /** `d` names a day of the Gregorian calendar. */
  predicate IsValidDate(d: Date)
  {
    1 <= d.month <= 12 && 1 <= d.day <= DaysInMonth(d.year, d.month)
  }

  /** The date of a day count is a day of the calendar: the day of the month
      never runs past the month's length. */
  lemma FromDaysValid(days: int)
    ensures IsValidDate(FromDays(days))
  {
    var era := (days + 719468) / 146097;
    var doe := days + 719468 - era * 146097;
    EraBounds(doe);
    var yoe := YearOfEra(doe);
    var doy := DayOfYear(doe, yoe);
    var mp := MarchMonth(doy);
    var d := FromDaysParts(days, era, doe, yoe, doy, mp);
    MonthOfMarchDay(doy, mp, d.month, d.day, d.year);
    if doy == 365 {
      LastDayOfEraYear(doe);
      LeapShift(yoe, era);
    }
  }

  /** The month and day of a day of a March-based year fit the month's
      length; only day 365 of such a year is a 29th of February. */
  lemma MonthOfMarchDay(doy: int, mp: int, m: int, day: int, y: int)
    requires 0 <= doy < 366 && mp == (5 * doy + 2) / 153 && 1 <= m <= 12
    requires (if m > 2 then m - 3 else m + 9) == mp
    requires (153 * mp + 2) / 5 + day - 1 == doy
    ensures 1 <= day
    ensures m != 2 ==> day <= DaysInMonth(y, m)
    ensures m == 2 ==> day <= 28 || (doy == 365 && day == 29)
  {
    assert 153 * mp <= 5 * doy + 2 < 153 * mp + 153;
  }

  /** Only a March-based year followed by a leap year has a day 365. */
  lemma LastDayOfEraYear(doe: int)
    requires 0 <= doe < 146097 && DayOfYear(doe, YearOfEra(doe)) == 365
    ensures (YearOfEra(doe) + 1) % 4 == 0
    ensures (YearOfEra(doe) + 1) % 100 != 0 || YearOfEra(doe) == 399
  {
    if doe < 146096 {
      var c, q, r := EraSplit(doe);
      YearOfEraSplit(c, q, r);
      var k := if r == 1460 then 3 else r / 365;
      DayOfYearSplit(c, q, k);
      assert DayOfYear(doe, YearOfEra(doe)) == r - 365 * k;
      assert r == 1460;
      assert YearOfEra(doe) + 1 == 100 * c + 4 * (q + 1) && q + 1 < 25;
    } else {
      assert YearOfEra(doe) == 399;
    }
  }

  /** Moving a year by whole 400-year eras keeps it leap. */
  lemma LeapShift(yoe: int, era: int)
    requires 0 <= yoe < 400 && (yoe + 1) % 4 == 0 && ((yoe + 1) % 100 != 0 || yoe == 399)
    ensures IsLeapYear(yoe + era * 400 + 1)
  {
    ModShift4(yoe + 1, 100 * era);
    ModShift100(yoe + 1, 4 * era);
    ModShift400(yoe + 1, era);
  }

  lemma ModShift4(a: int, k: int) ensures (a + 4 * k) % 4 == a % 4 {}
  lemma ModShift100(a: int, k: int) ensures (a + 100 * k) % 100 == a % 100 {}
  lemma ModShift400(a: int, k: int) ensures (a + 400 * k) % 400 == a % 400 {}

  /** Every calendar date is the date of its own day count, so `FromDays`
      is the one conversion `RoundTrip` allows. */
  lemma DateRoundTrip(dt: Date)
    requires IsValidDate(dt)
    ensures FromDays(ToDays(dt)) == dt
  {
    var y := dt.year - (if dt.month <= 2 then 1 else 0);
    var era := y / 400;
    var yoe := y - era * 400;
    var mp := if dt.month > 2 then dt.month - 3 else dt.month + 9;
    var doy := (153 * mp + 2) / 5 + dt.day - 1;
    MarchDayOfMonth(dt.month, dt.day, dt.year);
    if doy == 365 {
      LeapBack(yoe, era);
    }
    var doe := YearStart(yoe, doy);
    ToDaysOf(dt, era, yoe, mp, doy);
    var days := ToDays(dt);
    DivShift146097(doe, era);
    var d := FromDaysParts(days, era, doe, yoe, doy, mp);
    SameParts(d, dt);
  }

  /** Two dates with the same March-based year, month and day are one. */
  lemma SameParts(d: Date, e: Date)
    requires 1 <= d.month <= 12 && 1 <= e.month <= 12
    requires d.year - (if d.month <= 2 then 1 else 0) == e.year - (if e.month <= 2 then 1 else 0)
    requires (if d.month > 2 then d.month - 3 else d.month + 9) == (if e.month > 2 then e.month - 3 else e.month + 9)
    requires d.day == e.day
    ensures d == e
  {
  }

  /** The day of a March-based year of a calendar date, and its month counted
      from March. */
  lemma MarchDayOfMonth(m: int, day: int, y: int)
    requires 1 <= m <= 12 && 1 <= day <= DaysInMonth(y, m)
    ensures var mp := if m > 2 then m - 3 else m + 9;
      var doy := (153 * mp + 2) / 5 + day - 1;
      && 0 <= doy < 366 && (5 * doy + 2) / 153 == mp
      && (doy == 365 ==> m == 2 && IsLeapYear(y))
  {
  }

  /** A leap year, moved back by whole 400-year eras into the first era. */
  lemma LeapBack(yoe: int, era: int)
    requires 0 <= yoe < 400 && IsLeapYear(yoe + era * 400 + 1)
    ensures (yoe + 1) % 4 == 0 && ((yoe + 1) % 100 != 0 || yoe == 399)
  {
    ModShift4(yoe + 1, 100 * era);
    ModShift100(yoe + 1, 4 * era);
    ModShift400(yoe + 1, era);
  }

  /** The day of the era of day `doy` of March-based year `yoe`, and the
      converse: that day of the era lies in year `yoe`, on day `doy`. */
  lemma YearStart(yoe: int, doy: int) returns (doe: int)
    requires 0 <= yoe < 400 && 0 <= doy < 366
    requires doy == 365 ==> (yoe + 1) % 4 == 0 && ((yoe + 1) % 100 != 0 || yoe == 399)
    ensures doe == yoe * 365 + yoe / 4 - yoe / 100 + doy
    ensures 0 <= doe < 146097 && YearOfEra(doe) == yoe && DayOfYear(doe, yoe) == doy
  {
    doe := yoe * 365 + yoe / 4 - yoe / 100 + doy;
    if yoe == 399 && doy == 365 {
      assert doe == 146096;
      assert YearOfEra(doe) == 399;
    } else {
      var c, q, k := yoe / 100, (yoe % 100) / 4, yoe % 4;
      assert yoe == 100 * c + 4 * q + k;
      DivShift4(k, 25 * c + q);
      DivShift100(4 * q + k, c);
      var r := 365 * k + doy;
      assert doe == 36524 * c + 1461 * q + r;
      assert doy == 365 ==> k == 3;
      assert r < 1461 && 1461 * q + r < 36524;
      YearOfEraSplit(c, q, r);
      DayOfYearSplit(c, q, k);
    }
  }

  lemma DivShift146097(a: int, k: int)
    requires 0 <= a < 146097
    ensures (a + 146097 * k) / 146097 == k
  {
  }
}
