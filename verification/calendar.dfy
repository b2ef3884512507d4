/** The civil calendar of the Alexa request timestamps (`src/alexa.rs`). */
module Calendar {
  import opened Common

  datatype Date = Date(year: int, month: int, day: int)

  predicate IsLeap(year: int) {
    year % 4 == 0 && (year % 100 != 0 || year % 400 == 0)
  }

  function DaysInMonth(year: int, month: int): int {
    if month == 2 then (if IsLeap(year) then 29 else 28)
    else if month == 4 || month == 6 || month == 9 || month == 11 then 30
    else 31
  }

  /** A real date of the proleptic Gregorian calendar. */
  predicate ValidDate(d: Date) {
    1 <= d.month <= 12 && 1 <= d.day <= DaysInMonth(d.year, d.month)
  }

  /** The calendar itself: the day after `d`. */
  function NextDate(d: Date): Date {
    if d.day < DaysInMonth(d.year, d.month) then d.(day := d.day + 1)
    else if d.month < 12 then Date(d.year, d.month + 1, 1)
    else Date(d.year + 1, 1, 1)
  }

  predicate Before(a: Date, b: Date) {
    a.year < b.year || (a.year == b.year && (a.month < b.month || (a.month == b.month && a.day < b.day)))
  }

  /** Days since 1970-01-01, computed from a March-based year within a 400-year era. */
  function DaysFromCivil(year: int, month: int, day: int): int {
    var y := if month <= 2 then year - 1 else year;
    var era := y / 400;
    var yoe := y - era * 400;
    var mp := (month + 9) % 12;
    var doy := (153 * mp + 2) / 5 + day - 1;
    var doe := yoe * 365 + yoe / 4 - yoe / 100 + doy;
    era * 146_097 + doe - 719_468
  }

  function Days(d: Date): int {
    DaysFromCivil(d.year, d.month, d.day)
  }

  /** First day of March-based year `y`, counted from 0000-03-01. */
  function YearStart(y: int): int {
    365 * y + y / 4 - y / 100 + y / 400
  }

  /** Offset of March-based month `mp` in its year: 0, 31, 61, ... */
  function MonthStart(mp: int): int {
    (153 * mp + 2) / 5
  }

  lemma EraIsYearStart(year: int, month: int, day: int)
    ensures var y := if month <= 2 then year - 1 else year;
            DaysFromCivil(year, month, day) == YearStart(y) + MonthStart((month + 9) % 12) + day - 1 - 719_468
  {
    var y := if month <= 2 then year - 1 else year;
    var era := y / 400;
    var yoe := y - era * 400;
    assert y / 4 == era * 100 + yoe / 4;
    assert y / 100 == era * 4 + yoe / 100;
  }

  lemma YearLength(y: int)
    ensures YearStart(y + 1) - YearStart(y) == if IsLeap(y + 1) then 366 else 365
  {
    assert (y + 1) / 4 - y / 4 == if (y + 1) % 4 == 0 then 1 else 0;
    assert (y + 1) / 100 - y / 100 == if (y + 1) % 100 == 0 then 1 else 0;
    assert (y + 1) / 400 - y / 400 == if (y + 1) % 400 == 0 then 1 else 0;
  }

  /** Where each month but February ends, the next one starts. */
  lemma MonthLength(year: int, month: int)
    requires 1 <= month <= 12 && month != 2
    ensures MonthStart((month + 9) % 12) + DaysInMonth(year, month)
         == if month == 12 then MonthStart(10) else MonthStart((month + 10) % 12)
  {
  }

  lemma DayShift(year: int, month: int, day: int)
    ensures DaysFromCivil(year, month, day) == DaysFromCivil(year, month, 1) + day - 1
  {
  }

  lemma FebruaryStarts(year: int)
    ensures DaysFromCivil(year, 2, 1) == YearStart(year - 1) + 337 - 719_468
  {
    EraIsYearStart(year, 2, 1);
  }

  lemma MarchStarts(year: int)
    ensures DaysFromCivil(year, 3, 1) == YearStart(year) - 719_468
  {
    EraIsYearStart(year, 3, 1);
  }

  lemma FebruaryEnds(year: int)
    ensures DaysFromCivil(year, 2, 1) + DaysInMonth(year, 2) == DaysFromCivil(year, 3, 1)
  {
    FebruaryStarts(year);
    MarchStarts(year);
    YearLength(year - 1);
  }

  lemma MonthEnds(year: int, month: int)
    requires 1 <= month <= 12
    ensures DaysFromCivil(year, month, 1) + DaysInMonth(year, month)
         == if month < 12 then DaysFromCivil(year, month + 1, 1) else DaysFromCivil(year + 1, 1, 1)
  {
    if month == 2 {
      FebruaryEnds(year);
    } else {
      EraIsYearStart(year, month, 1);
      MonthLength(year, month);
      if month < 12 {
        EraIsYearStart(year, month + 1, 1);
      } else {
        EraIsYearStart(year + 1, 1, 1);
      }
    }
  }

  /** One calendar day is one day number, across month ends, leap years and centuries. */
  lemma NextDayIsOneMore(d: Date)
    requires ValidDate(d)
    ensures ValidDate(NextDate(d))
    ensures Days(NextDate(d)) == Days(d) + 1
  {
    DayShift(d.year, d.month, d.day);
    DayShift(d.year, d.month, d.day + 1);
    MonthEnds(d.year, d.month);
  }

  lemma EpochIsZero()
    ensures DaysFromCivil(1970, 1, 1) == 0
  {
  }

  /** Days between the first of two months. */
  lemma {:induction false} LaterMonthIsLater(year: int, m: int, n: int)
    requires 1 <= m < n <= 12
    ensures DaysFromCivil(year, m, 1) + DaysInMonth(year, m) <= DaysFromCivil(year, n, 1)
    decreases n - m
  {
    NextDayIsOneMore(Date(year, m, DaysInMonth(year, m)));
    DayShift(year, m, DaysInMonth(year, m));
    if m + 1 < n {
      LaterMonthIsLater(year, m + 1, n);
    }
  }

  lemma LaterYearIsLater(y: int, z: int)
    requires y < z
    ensures DaysFromCivil(y, 12, 31) < DaysFromCivil(z, 1, 1)
    decreases z - y
  {
  }

  lemma WithinYear(d: Date)
    requires ValidDate(d)
    ensures DaysFromCivil(d.year, 1, 1) <= Days(d) <= DaysFromCivil(d.year, 12, 31)
  {
  }

  /** Later dates have larger day numbers, and only they have. */
  lemma DaysStrictlyMonotone(a: Date, b: Date)
    requires ValidDate(a) && ValidDate(b)
    ensures Before(a, b) <==> Days(a) < Days(b)
  {
    if Before(a, b) {
      EarlierIsSmaller(a, b);
    } else if Before(b, a) {
      EarlierIsSmaller(b, a);
    }
  }

  lemma EarlierIsSmaller(a: Date, b: Date)
    requires ValidDate(a) && ValidDate(b) && Before(a, b)
    ensures Days(a) < Days(b)
  {
    if a.year < b.year {
      WithinYear(a);
      WithinYear(b);
      LaterYearIsLater(a.year, b.year);
    } else {
      DayShift(a.year, a.month, a.day);
      DayShift(b.year, b.month, b.day);
      if a.month < b.month {
        LaterMonthIsLater(a.year, a.month, b.month);
      }
    }
  }

  // ---- the inverse ----

  /** Year of the era: the quotient by 365 after taking out the leap days. */
  function YearOfEra(doe: int): int {
    (doe - doe / 1460 + doe / 36_524 - doe / 146_096) / 365
  }

  /** The date of the `t`-th day of March-based year `y`. */
  function DateInYear(y: int, t: int): Date {
    var mp := (5 * t + 2) / 153;
    var day := t - (153 * mp + 2) / 5 + 1;
    var month := if mp < 10 then mp + 3 else mp - 9;
    Date(y + (if month <= 2 then 1 else 0), month, day)
  }

  /** Civil date of a day number, as the timestamp printer computes it. */
  function CivilFromDays(days: int): Date {
    var z := days + 719_468;
    var era := z / 146_097;
    var doe := z - era * 146_097;
    var yoe := YearOfEra(doe);
    var doy := doe - (365 * yoe + yoe / 4 - yoe / 100);
    DateInYear(yoe + era * 400, doy)
  }

  lemma MultipleBelow(d: int, a: int, b: int)
    requires 0 < d && a < b
    ensures d * a + d <= d * b
  {
    assert d * (a + 1) <= d * b;
  }

  lemma QuotientIs(n: int, d: int, q: int)
    requires 0 < d && d * q <= n < d * q + d
    ensures n / d == q
  {
    var p := n / d;
    if p < q {
      MultipleBelow(d, p, q);
    } else if q < p {
      MultipleBelow(d, q, p);
    }
  }

  lemma YearOfEraIsTheYear(doe: int, c: int, q: int, j: int, t: int)
    requires 0 <= c <= 3 && 0 <= q <= 24 && 0 <= j <= 3 && 0 <= t <= 365
    requires doe == 36_524 * c + 1461 * q + 365 * j + t
    requires t == 365 ==> j == 3 && (q < 24 || c == 3)
    ensures YearOfEra(doe) == 100 * c + 4 * q + j
  {
    // At most one leap day too many has been taken out, and only late in the year.
    var over := if 24 * c + q + 365 * j + t < 1460 then 0 else 1;
    QuotientIs(doe, 1460, 25 * c + q + over);
    var fourth := if c == 3 && q == 24 && j == 3 && t == 365 then 1 else 0;
    QuotientIs(doe, 36_524, c + fourth);
    QuotientIs(doe, 146_096, fourth);
    QuotientIs(doe - doe / 1460 + doe / 36_524 - doe / 146_096, 365, 100 * c + 4 * q + j);
  }

  /** Splits a day of the era into century, leap cycle, year and day of the year. */
  lemma EraSplit(doe: int) returns (c: int, q: int, j: int, t: int)
    requires 0 <= doe < 146_097
    ensures 0 <= c <= 3 && 0 <= q <= 24 && 0 <= j <= 3 && 0 <= t <= 365
    ensures doe == 36_524 * c + 1461 * q + 365 * j + t
    ensures t == 365 ==> j == 3 && (q < 24 || c == 3)
  {
    c := Min(doe / 36_524, 3);
    var r := doe - 36_524 * c;
    q := r / 1461;
    var s := r - 1461 * q;
    j := Min(s / 365, 3);
    t := s - 365 * j;
  }

  lemma YearStartIs(era: int, c: int, q: int, j: int)
    requires 0 <= c <= 3 && 0 <= q <= 24 && 0 <= j <= 3
    ensures YearStart(400 * era + 100 * c + 4 * q + j) == 146_097 * era + 36_524 * c + 1461 * q + 365 * j
  {
    var y := 400 * era + 100 * c + 4 * q + j;
    QuotientIs(y, 4, 100 * era + 25 * c + q);
    QuotientIs(y, 100, 4 * era + c);
    QuotientIs(y, 400, era);
  }

  lemma YearOfDay(doe: int, c: int, q: int, j: int, t: int)
    requires 0 <= c <= 3 && 0 <= q <= 24 && 0 <= j <= 3 && 0 <= t <= 365
    requires t == 365 ==> j == 3 && (q < 24 || c == 3)
    requires doe == 36_524 * c + 1461 * q + 365 * j + t
    ensures var yoe := YearOfEra(doe);
            yoe == 100 * c + 4 * q + j && doe - (365 * yoe + yoe / 4 - yoe / 100) == t
  {
    YearOfEraIsTheYear(doe, c, q, j, t);
    var yoe := 100 * c + 4 * q + j;
    QuotientIs(yoe, 4, 25 * c + q);
    QuotientIs(yoe, 100, c);
  }

  lemma MonthIndex(mp: int, month: int)
    requires 0 <= mp <= 11 && month == (if mp < 10 then mp + 3 else mp - 9)
    ensures 1 <= month <= 12 && (month + 9) % 12 == mp
    ensures month <= 2 <==> mp >= 10
  {
  }

  lemma MonthLengthAt(year: int, mp: int, month: int)
    requires 0 <= mp <= 10 && month == (if mp < 10 then mp + 3 else mp - 9)
    ensures MonthStart(mp) + DaysInMonth(year, month) == MonthStart(mp + 1)
  {
  }

  lemma DateInYearIsReal(y: int, t: int)
    requires 0 <= t < (if IsLeap(y + 1) then 366 else 365)
    ensures ValidDate(DateInYear(y, t))
    ensures Days(DateInYear(y, t)) == YearStart(y) + t - 719_468
  {
    var mp := (5 * t + 2) / 153;
    MonthFits(t, mp);
    var d := DateInYear(y, t);
    MonthIndex(mp, d.month);
    EraIsYearStart(d.year, d.month, d.day);
    assert MonthStart(11) == 337;
    if mp != 11 {
      MonthLengthAt(d.year, mp, d.month);
    }
  }

  lemma MonthFits(t: int, mp: int)
    requires 0 <= t <= 365 && mp == (5 * t + 2) / 153
    ensures 0 <= mp <= 11
    ensures MonthStart(mp) <= t
    ensures mp < 11 ==> t < MonthStart(mp + 1)
  {
  }

  lemma ModFour(k: int, r: int)
    ensures (4 * k + r) % 4 == r % 4
  {
  }

  lemma ModHundred(k: int, r: int)
    ensures (100 * k + r) % 100 == r % 100
  {
  }

  lemma ModFourHundred(k: int, r: int)
    ensures (400 * k + r) % 400 == r % 400
  {
  }

  lemma LeapEveryEra(era: int, r: int)
    ensures IsLeap(400 * era + r) <==> IsLeap(r)
  {
    ModFour(100 * era, r);
    ModHundred(4 * era, r);
    ModFourHundred(era, r);
  }

  lemma LeapDayOnlyInLeapYear(era: int, c: int, q: int)
    requires 0 <= c <= 3 && 0 <= q <= 24 && (q < 24 || c == 3)
    ensures IsLeap(400 * era + 100 * c + 4 * q + 4)
  {
    LeapEveryEra(era, 100 * c + 4 * q + 4);
  }

  /** Every day number names exactly one real date, and that date's number is it. */
  lemma DaysOfCivil(days: int)
    ensures ValidDate(CivilFromDays(days))
    ensures Days(CivilFromDays(days)) == days
  {
    var era, y, t := CivilIsDateInYear(days);
    DateInYearIsReal(y, t);
  }

  lemma CivilIsDateInYear(days: int) returns (era: int, y: int, t: int)
    ensures CivilFromDays(days) == DateInYear(y, t)
    ensures 0 <= t < if IsLeap(y + 1) then 366 else 365
    ensures days == YearStart(y) + t - 719_468
  {
    era := (days + 719_468) / 146_097;
    var doe := days + 719_468 - era * 146_097;
    var c, q, j;
    c, q, j, t := EraSplit(doe);
    YearOfDay(doe, c, q, j, t);
    y := YearOfEra(doe) + era * 400;
    YearStartIs(era, c, q, j);
    if t == 365 {
      LeapDayOnlyInLeapYear(era, c, q);
    }
  }

  lemma CivilOfDays(d: Date)
    requires ValidDate(d)
    ensures CivilFromDays(Days(d)) == d
  {
    var e := CivilFromDays(Days(d));
    DaysOfCivil(Days(d));
    DaysStrictlyMonotone(d, e);
    DaysStrictlyMonotone(e, d);
  }

  lemma DaysOfOverlong(year: int, month: int, day: int) returns (d: Date)
    requires 1 <= month <= 12 && 1 <= day <= 31
    ensures d == if day <= DaysInMonth(year, month) then Date(year, month, day)
                 else Date(year, month + 1, day - DaysInMonth(year, month))
    ensures ValidDate(d) && Days(d) == DaysFromCivil(year, month, day)
  {
    d := Date(year, month, day);
    var last := DaysInMonth(year, month);
    if last < day {
      d := Date(year, month + 1, day - last);
      MonthEnds(year, month);
      DayShift(year, month, day);
      DayShift(year, month + 1, day - last);
    }
  }

  /** The parser lets day 31 through in every month: such a day runs on into the next month,
      so the number is that of the date as written exactly when the date is real. */
  lemma OverlongDaySlides(year: int, month: int, day: int)
    requires 1 <= month <= 12 && 1 <= day <= 31
    ensures CivilFromDays(DaysFromCivil(year, month, day)) ==
            if day <= DaysInMonth(year, month) then Date(year, month, day)
            else Date(year, month + 1, day - DaysInMonth(year, month))
  {
    var d := DaysOfOverlong(year, month, day);
    CivilOfDays(d);
  }
}
