/** Civil dates by era arithmetic, against the calendar counted day by day. */
module Calendar {
  datatype Date = Date(year: nat, month: nat, day: nat)

  const EPOCH_YEAR := 1970

  predicate IsLeap(year: nat) {
    year % 4 == 0 && (year % 100 != 0 || year % 400 == 0)
  }

  function DaysInMonth(year: nat, month: nat): nat {
    match month
    case 2 => if IsLeap(year) then 29 else 28
    case 4 => 30
    case 6 => 30
    case 9 => 30
    case 11 => 30
    case _ => 31
  }

  predicate ValidDate(date: Date) {
    1 <= date.month <= 12 && 1 <= date.day <= DaysInMonth(date.year, date.month)
  }

  /** The day after, as a calendar on the wall counts: the reference for the arithmetic below. */
  function NextDate(date: Date): Date {
    if date.day < DaysInMonth(date.year, date.month) then
      date.(day := date.day + 1)
    else if date.month < 12 then
      Date(date.year, date.month + 1, 1)
    else
      Date(date.year + 1, 1, 1)
  }

  // ---------------------------------------------------------------- the source's arithmetic

  /** Days before year `y` of a March-based 400-year era. */
  function YearStart(y: nat): nat {
    365 * y + y / 4 - y / 100
  }

  /** Days before month `m` of a March-based year; March is 0. */
  function MonthStart(m: nat): nat {
    (153 * m + 2) / 5
  }

  function DayNumber(date: Date): int
    requires 1 <= date.month <= 12 && 1 <= date.day && 1 <= date.year
  {
    var year := if date.month <= 2 then date.year - 1 else date.year;
    var dayOfYear := MonthStart((date.month + 9) % 12) + date.day - 1;
    year / 400 * 146_097 + (YearStart(year % 400) + dayOfYear)
  }

  /** Days from 1970-01-01 to a date from 1970 on. */
  function DaysSinceEpoch(date: Date): int
    requires ValidDate(date) && EPOCH_YEAR <= date.year
  {
    DayNumber(date) - 719_468
  }

  function YearOfEra(dayOfEra: nat): int {
    (dayOfEra - dayOfEra / 1_460 + dayOfEra / 36_524 - dayOfEra / 146_096) / 365
  }

  function CivilFromDays(days: nat): Date {
    var shifted := days + 719_468;
    var era, dayOfEra := shifted / 146_097, shifted % 146_097;
    YearOfEraIsFound(dayOfEra);
    var yearOfEra := YearOfEra(dayOfEra);
    var dayOfYear := dayOfEra - YearStart(yearOfEra);
    var month := (5 * dayOfYear + 2) / 153;
    MonthIsFound(dayOfYear);
    var day := dayOfYear - MonthStart(month) + 1;
    var civil := if month < 10 then month + 3 else month - 9;
    Date(era * 400 + yearOfEra + (if civil <= 2 then 1 else 0), civil, day)
  }

  // ---------------------------------------------------------------- finding the year and the month

  /** Century, four-year cycle, year of the cycle and day of the year, inside one era. */
  ghost predicate Splits(c: int, q: int, t: int, u: int) {
    && 0 <= c <= 3 && 0 <= q <= 24 && 0 <= t <= 3 && 0 <= u <= 365
    && (u == 365 ==> t == 3 && (q < 24 || c == 3))
  }

  function Joined(c: int, q: int, t: int, u: int): int {
    36_524 * c + 1_461 * q + 365 * t + u
  }

  lemma SplitExists(dayOfEra: nat) returns (c: int, q: int, t: int, u: int)
    requires dayOfEra < 146_097
    ensures Splits(c, q, t, u) && Joined(c, q, t, u) == dayOfEra
  {
    c := if dayOfEra / 36_524 < 3 then dayOfEra / 36_524 else 3;
    var r := dayOfEra - 36_524 * c;
    q := if r / 1_461 < 24 then r / 1_461 else 24;
    var s := r - 1_461 * q;
    t := if s / 365 < 3 then s / 365 else 3;
    u := s - 365 * t;
  }

  lemma Quotients(c: int, q: int, t: int, u: int)
    requires Splits(c, q, t, u)
    ensures var d := Joined(c, q, t, u);
            && d / 1_460 == 25 * c + q + (if 24 * c + q + 365 * t + u < 1_460 then 0 else 1)
            && d / 36_524 == c + (if u == 365 && q == 24 then 1 else 0)
            && d / 146_096 == (if u == 365 && q == 24 then 1 else 0)
  {
  }

  lemma YearStartSplits(c: int, q: int, t: int)
    requires 0 <= c <= 3 && 0 <= q <= 24 && 0 <= t <= 3
    ensures YearStart(100 * c + 4 * q + t) == 36_524 * c + 1_461 * q + 365 * t
  {
    var y := 100 * c + 4 * q + t;
    assert y / 4 == 25 * c + q;
    assert y / 100 == c;
  }

  lemma YearOfEraSplits(c: int, q: int, t: int, u: int)
    requires Splits(c, q, t, u)
    ensures YearOfEra(Joined(c, q, t, u)) == 100 * c + 4 * q + t
  {
    Quotients(c, q, t, u);
  }

  /** The year formula finds the one year of the era the day is in. */
  lemma YearOfEraIsFound(dayOfEra: nat)
    requires dayOfEra < 146_097
    ensures var y := YearOfEra(dayOfEra); 0 <= y < 400 && 0 <= dayOfEra - YearStart(y) <= 365
  {
    var c, q, t, u := SplitExists(dayOfEra);
    YearOfEraSplits(c, q, t, u);
    YearStartSplits(c, q, t);
  }

  lemma MonthIsFound(dayOfYear: nat)
    requires dayOfYear <= 365
    ensures var m := (5 * dayOfYear + 2) / 153; 0 <= m <= 11 && MonthStart(m) <= dayOfYear < MonthStart(m + 1)
  {
  }

  // ---------------------------------------------------------------- the bijection

  lemma Remainder4(k: int, r: int)
    requires 0 <= r <= 4
    ensures (4 * k + r) % 4 == (if r == 4 then 0 else r)
  {
  }

  lemma Remainder100(k: int, r: int)
    requires 0 <= r <= 100
    ensures (100 * k + r) % 100 == (if r == 100 then 0 else r)
  {
  }

  lemma Remainder400(k: int, r: int)
    requires 0 <= r <= 400
    ensures (400 * k + r) % 400 == (if r == 400 then 0 else r)
  {
  }

  /** The year that holds the leap day of a March-based year is the civil year after it. */
  lemma LeapDayYear(era: nat, c: int, q: int, t: int)
    requires 0 <= c <= 3 && 0 <= q <= 24 && 0 <= t <= 3
    ensures IsLeap(400 * era + 100 * c + 4 * q + t + 1) <==> t == 3 && (q < 24 || c == 3)
  {
    Remainder4(100 * era + 25 * c + q, t + 1);
    Remainder100(4 * era + c, 4 * q + t + 1);
    Remainder400(era, 100 * c + 4 * q + t + 1);
  }

  /** The civil date of a day that sits at month `m` and day `k` of a split year. */
  function CivilOf(era: nat, year: nat, m: nat, k: nat): Date {
    Date(400 * era + year + (if m < 10 then 0 else 1), if m < 10 then m + 3 else m - 9, k + 1)
  }

  lemma CivilFromSplit(days: nat, era: nat, c: int, q: int, t: int, u: int, m: nat)
    requires Splits(c, q, t, u) && days + 719_468 == 146_097 * era + Joined(c, q, t, u)
    requires m <= 11 && MonthStart(m) <= u < MonthStart(m + 1)
    ensures CivilFromDays(days) == CivilOf(era, 100 * c + 4 * q + t, m, u - MonthStart(m))
  {
    var d := Joined(c, q, t, u);
    assert 0 <= d < 146_097;
    assert (days + 719_468) / 146_097 == era && (days + 719_468) % 146_097 == d;
    YearOfEraSplits(c, q, t, u);
    YearStartSplits(c, q, t);
    MonthIsUnique(u, m);
  }

  lemma MonthIsUnique(u: nat, m: nat)
    requires m <= 11 && u <= 365 && MonthStart(m) <= u < MonthStart(m + 1)
    ensures (5 * u + 2) / 153 == m
  {
  }

  lemma DayNumberOfSplit(era: nat, c: int, q: int, t: int, m: nat, k: nat)
    requires 0 <= c <= 3 && 0 <= q <= 24 && 0 <= t <= 3 && m <= 11 && 0 < era
    ensures DayNumber(CivilOf(era, 100 * c + 4 * q + t, m, k))
            == 146_097 * era + Joined(c, q, t, MonthStart(m) + k)
  {
    var y := 100 * c + 4 * q + t;
    YearStartSplits(c, q, t);
    assert (400 * era + y) / 400 == era && (400 * era + y) % 400 == y;
    assert ((if m < 10 then m + 3 else m - 9) + 9) % 12 == m;
  }

  /** A split day names a valid date, and the longest February is exactly the leap one. */
  lemma SplitIsValid(era: nat, c: int, q: int, t: int, m: nat, k: nat)
    requires 0 <= c <= 3 && 0 <= q <= 24 && 0 <= t <= 3 && m <= 11
    ensures ValidDate(CivilOf(era, 100 * c + 4 * q + t, m, k))
            <==> MonthStart(m) + k < MonthStart(m + 1) && Splits(c, q, t, MonthStart(m) + k)
  {
    LeapDayYear(era, c, q, t);
  }

  lemma SplitDay(days: nat) returns (era: nat, c: int, q: int, t: int, u: int, m: nat)
    ensures Splits(c, q, t, u) && days + 719_468 == 146_097 * era + Joined(c, q, t, u)
    ensures m <= 11 && MonthStart(m) <= u < MonthStart(m + 1)
    ensures 0 < era
  {
    era := (days + 719_468) / 146_097;
    c, q, t, u := SplitExists((days + 719_468) % 146_097);
    m := (5 * u + 2) / 153;
    MonthIsFound(u);
  }

  lemma SplitDate(date: Date) returns (era: nat, c: int, q: int, t: int, m: nat)
    requires ValidDate(date) && EPOCH_YEAR <= date.year
    ensures 0 <= c <= 3 && 0 <= q <= 24 && 0 <= t <= 3 && m <= 11 && 0 < era
    ensures date == CivilOf(era, 100 * c + 4 * q + t, m, date.day - 1)
  {
    var year := if date.month <= 2 then date.year - 1 else date.year;
    era := year / 400;
    var y := year % 400;
    c := y / 100;
    q := y % 100 / 4;
    t := y % 4;
    assert y == 100 * c + 4 * q + t;
    m := (date.month + 9) % 12;
  }

  lemma SplitNamesDay(days: nat, era: nat, c: int, q: int, t: int, u: int, m: nat)
    requires Splits(c, q, t, u) && days + 719_468 == 146_097 * era + Joined(c, q, t, u) && 0 < era
    requires m <= 11 && MonthStart(m) <= u < MonthStart(m + 1)
    ensures var date := CivilOf(era, 100 * c + 4 * q + t, m, u - MonthStart(m));
            ValidDate(date) && EPOCH_YEAR <= date.year && DaysSinceEpoch(date) == days
  {
    SplitIsValid(era, c, q, t, m, u - MonthStart(m));
    DayNumberOfSplit(era, c, q, t, m, u - MonthStart(m));
    FromEpochOn(era, 100 * c + 4 * q + t, m, u - MonthStart(m), days);
  }

  /** Every day has a valid date from 1970 on, and counting back gives the day. */
  lemma CivilThenDays(days: nat)
    ensures var date := CivilFromDays(days);
            ValidDate(date) && EPOCH_YEAR <= date.year && DaysSinceEpoch(date) == days
  {
    var era, c, q, t, u, m := SplitDay(days);
    CivilFromSplit(days, era, c, q, t, u, m);
    SplitNamesDay(days, era, c, q, t, u, m);
  }

  lemma FromEpochOn(era: nat, y: nat, m: nat, k: nat, days: nat)
    requires y < 400 && m <= 11 && 0 < era && MonthStart(m) + k < MonthStart(m + 1) && MonthStart(m) + k <= 365
    requires DayNumber(CivilOf(era, y, m, k)) == days + 719_468
    ensures EPOCH_YEAR <= CivilOf(era, y, m, k).year
  {
    assert (400 * era + y) / 400 == era && (400 * era + y) % 400 == y;
    assert ((if m < 10 then m + 3 else m - 9) + 9) % 12 == m;
  }

  /** Every valid date from 1970 on has a day, and its date is the one it came from. */
  lemma DaysThenCivil(date: Date)
    requires ValidDate(date) && EPOCH_YEAR <= date.year
    ensures 0 <= DaysSinceEpoch(date) && CivilFromDays(DaysSinceEpoch(date)) == date
  {
    var era, c, q, t, m := SplitDate(date);
    var k := date.day - 1;
    SplitIsValid(era, c, q, t, m, k);
    DayNumberOfSplit(era, c, q, t, m, k);
    NotBeforeEpoch(date);
    CivilFromSplit(DaysSinceEpoch(date), era, c, q, t, MonthStart(m) + k, m);
  }

  lemma NotBeforeEpoch(date: Date)
    requires ValidDate(date) && EPOCH_YEAR <= date.year
    ensures 0 <= DaysSinceEpoch(date)
  {
    var year := if date.month <= 2 then date.year - 1 else date.year;
    if year / 400 == 4 {
      assert 369 <= year % 400 <= 399;
      assert date.month > 2 ==> 370 <= year % 400;
    } else {
      assert year / 400 >= 5;
    }
  }

  // ---------------------------------------------------------------- day by day

  lemma MonthsFollow(month: nat)
    requires 1 <= month <= 11 && month != 2
    ensures MonthStart((month + 1 + 9) % 12) == MonthStart((month + 9) % 12) + DaysInMonth(0, month)
  {
  }

  lemma MonthEnds(y: nat, month: nat)
    requires 1 <= y && 1 <= month <= 11 && month != 2
    ensures DayNumber(Date(y, month + 1, 1)) == DayNumber(Date(y, month, DaysInMonth(y, month))) + 1
  {
    MonthsFollow(month);
    var year := if month <= 2 then y - 1 else y;
    var base := year / 400 * 146_097 + YearStart(year % 400);
    assert DayNumber(Date(y, month + 1, 1)) == base + MonthStart((month + 1 + 9) % 12);
    assert DayNumber(Date(y, month, DaysInMonth(y, month))) == base + MonthStart((month + 9) % 12) + DaysInMonth(0, month) - 1;
  }

  lemma YearEnds(y: nat)
    requires 1 <= y
    ensures DayNumber(Date(y + 1, 1, 1)) == DayNumber(Date(y, 12, 31)) + 1
  {
    assert MonthStart(10) == MonthStart(9) + 31;
  }

  /** One day later is one day number later, over every month, year and leap boundary. */
  lemma NextDateCountsOne(date: Date)
    requires ValidDate(date) && EPOCH_YEAR <= date.year
    ensures ValidDate(NextDate(date)) && EPOCH_YEAR <= NextDate(date).year
    ensures DaysSinceEpoch(NextDate(date)) == DaysSinceEpoch(date) + 1
  {
    if date.day == DaysInMonth(date.year, date.month) {
      if date.month == 2 {
        MarchFollowsFebruary(date.year);
      } else if date.month == 12 {
        YearEnds(date.year);
      } else {
        MonthEnds(date.year, date.month);
      }
    }
  }

  lemma YearStartNext(z: nat)
    ensures YearStart(z + 1) == YearStart(z) + 365 + (if (z + 1) % 4 == 0 then 1 else 0) - (if (z + 1) % 100 == 0 then 1 else 0)
  {
    assert (z + 1) / 4 == z / 4 + (if (z + 1) % 4 == 0 then 1 else 0);
    assert (z + 1) / 100 == z / 100 + (if (z + 1) % 100 == 0 then 1 else 0);
  }

  lemma NextYearOfEra(z: nat)
    ensures if z % 400 == 399 then (z + 1) / 400 == z / 400 + 1 && (z + 1) % 400 == 0
            else (z + 1) / 400 == z / 400 && (z + 1) % 400 == z % 400 + 1
    ensures (z + 1) % 4 == (z % 400 + 1) % 4 && (z + 1) % 100 == (z % 400 + 1) % 100
  {
  }

  lemma FebruaryLength(y: nat)
    requires 1 <= y
    ensures YearStart(y % 400) + y / 400 * 146_097
            == YearStart((y - 1) % 400) + (y - 1) / 400 * 146_097 + 337 + DaysInMonth(y, 2)
  {
    NextYearOfEra(y - 1);
    YearStartNext((y - 1) % 400);
    assert YearStart(399) == 145_731 && YearStart(0) == 0;
  }

  lemma MarchFollowsFebruary(y: nat)
    requires 1 <= y
    ensures DayNumber(Date(y, 3, 1)) == DayNumber(Date(y, 2, DaysInMonth(y, 2))) + 1
  {
    FebruaryLength(y);
    MarchAndFebruary(y, DaysInMonth(y, 2));
  }

  /** The day numbers of a year's March 1 and of a day of its February, from their eras' years. */
  lemma MarchAndFebruary(y: nat, day: nat)
    requires 1 <= y && 1 <= day
    ensures DayNumber(Date(y, 3, 1)) == YearStart(y % 400) + y / 400 * 146_097
    ensures DayNumber(Date(y, 2, day)) == YearStart((y - 1) % 400) + (y - 1) / 400 * 146_097 + 337 + day - 1
  {
    assert MonthStart(11) == 337 && MonthStart(0) == 0;
  }

  lemma EpochIsDayZero()
    ensures CivilFromDays(0) == Date(EPOCH_YEAR, 1, 1)
  {
    assert YearOfEra(135_080) == 369 && YearStart(369) == 134_774 && MonthStart(10) == 306;
  }

  lemma NextCivil(days: nat, date: Date)
    requires ValidDate(date) && EPOCH_YEAR <= date.year && DaysSinceEpoch(date) == days
    ensures CivilFromDays(days + 1) == NextDate(date)
  {
    NextDateCountsOne(date);
    DaysThenCivil(NextDate(date));
  }

  /** `civil_from_days` is the calendar counted day by day from 1970-01-01. */
  lemma CivilCountsDays(days: nat)
    ensures CivilFromDays(0) == Date(EPOCH_YEAR, 1, 1)
    ensures CivilFromDays(days + 1) == NextDate(CivilFromDays(days))
  {
    EpochIsDayZero();
    CivilThenDays(days);
    NextCivil(days, CivilFromDays(days));
  }

  predicate Earlier(a: Date, b: Date) {
    a.year < b.year || (a.year == b.year && (a.month < b.month || (a.month == b.month && a.day < b.day)))
  }

  lemma NextDateIsLater(date: Date)
    requires ValidDate(date)
    ensures Earlier(date, NextDate(date))
  {
  }

  function DaysOn(date: Date, n: nat): Date {
    if n == 0 then date else NextDate(DaysOn(date, n - 1))
  }

  lemma {:induction false} DaysOnIsLater(date: Date, n: nat)
    requires ValidDate(date) && EPOCH_YEAR <= date.year
    ensures ValidDate(DaysOn(date, n)) && EPOCH_YEAR <= DaysOn(date, n).year
    ensures n > 0 ==> Earlier(date, DaysOn(date, n))
  {
    if n > 0 {
      DaysOnIsLater(date, n - 1);
      NextDateIsLater(DaysOn(date, n - 1));
    }
  }

  lemma {:induction false} DaysOnCounts(date: Date, n: nat)
    requires ValidDate(date) && EPOCH_YEAR <= date.year
    ensures ValidDate(DaysOn(date, n)) && EPOCH_YEAR <= DaysOn(date, n).year
    ensures DaysSinceEpoch(DaysOn(date, n)) == DaysSinceEpoch(date) + n
  {
    DaysOnIsLater(date, n);
    if n > 0 {
      DaysOnCounts(date, n - 1);
      NextDateCountsOne(DaysOn(date, n - 1));
    }
  }

  lemma DayNamesDate(a: Date, b: Date)
    requires ValidDate(a) && ValidDate(b) && EPOCH_YEAR <= a.year && EPOCH_YEAR <= b.year
    requires DaysSinceEpoch(a) == DaysSinceEpoch(b)
    ensures a == b
  {
    DaysThenCivil(a);
    DaysThenCivil(b);
  }

  lemma EarlierDay(a: Date, b: Date)
    requires ValidDate(a) && ValidDate(b) && EPOCH_YEAR <= a.year && EPOCH_YEAR <= b.year
    requires DaysSinceEpoch(a) < DaysSinceEpoch(b)
    ensures Earlier(a, b)
  {
    var n := DaysSinceEpoch(b) - DaysSinceEpoch(a);
    DaysOnIsLater(a, n);
    DaysOnCounts(a, n);
    DayNamesDate(DaysOn(a, n), b);
  }

  /** Dates are ordered exactly as the days they name. */
  lemma DaysOrderDates(a: Date, b: Date)
    requires ValidDate(a) && ValidDate(b) && EPOCH_YEAR <= a.year && EPOCH_YEAR <= b.year
    ensures DaysSinceEpoch(a) < DaysSinceEpoch(b) <==> Earlier(a, b)
  {
    if DaysSinceEpoch(a) < DaysSinceEpoch(b) {
      EarlierDay(a, b);
    } else if DaysSinceEpoch(a) == DaysSinceEpoch(b) {
      DayNamesDate(a, b);
    } else {
      EarlierDay(b, a);
    }
  }

  /** Later days have later dates. */
  lemma CivilIsMonotone(a: nat, b: nat)
    requires a < b
    ensures Earlier(CivilFromDays(a), CivilFromDays(b))
  {
    CivilThenDays(a);
    CivilThenDays(b);
    DaysOrderDates(CivilFromDays(a), CivilFromDays(b));
  }
}
