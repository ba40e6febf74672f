/** The proleptic Gregorian calendar as package time has it, counted in days from 1 January of year 0. */
module Calendar {

  predicate Leap(y: int) {
    y % 4 == 0 && (y % 100 != 0 || y % 400 == 0)
  }

  /** daysInMonth: the day before the first of the next month. */
  function DaysInMonth(y: int, m: int): int
    requires 1 <= m <= 12
  {
    if m == 2 then (if Leap(y) then 29 else 28)
    else if m == 4 || m == 6 || m == 9 || m == 11 then 30
    else 31
  }

  predicate ValidDate(y: int, m: int, d: int) {
    1 <= m <= 12 && 1 <= d <= DaysInMonth(y, m)
  }

  /** The days before year y; divisions round down. */
  function YearStart(y: int): int {
    365 * y + (y + 3) / 4 - (y + 99) / 100 + (y + 399) / 400
  }

  /** The days of year y before month m. */
  function MonthStart(y: int, m: int): int
    requires 1 <= m <= 13
    decreases m
  {
    if m == 1 then 0 else MonthStart(y, m - 1) + DaysInMonth(y, m - 1)
  }

  function DayNumber(y: int, m: int, d: int): int
    requires 1 <= m <= 12
  {
    YearStart(y) + MonthStart(y, m) + d - 1
  }

  // How many multiples of 4, 100 and 400 a step of one year, or of 400 k years, passes.

  lemma Div4(x: int, q: int, r: int)
    requires x == 4 * q + r && 0 <= r < 4
    ensures x / 4 == q && x % 4 == r
  {
  }

  lemma Div100(x: int, q: int, r: int)
    requires x == 100 * q + r && 0 <= r < 100
    ensures x / 100 == q && x % 100 == r
  {
  }

  lemma Div400(x: int, q: int, r: int)
    requires x == 400 * q + r && 0 <= r < 400
    ensures x / 400 == q && x % 400 == r
  {
  }

  lemma Fours(y: int, k: int)
    ensures (y + 4) / 4 == (y + 3) / 4 + (if y % 4 == 0 then 1 else 0)
    ensures (y + 400 * k + 3) / 4 == (y + 3) / 4 + 100 * k
    ensures (y + 400 * k) % 4 == y % 4
  {
    var q, r := y / 4, y % 4;
    Div4(y + 4, q + 1, r);
    Div4(y + 400 * k, q + 100 * k, r);
    if r == 0 {
      Div4(y + 3, q, 3);
      Div4(y + 400 * k + 3, q + 100 * k, 3);
    } else {
      Div4(y + 3, q + 1, r - 1);
      Div4(y + 400 * k + 3, q + 1 + 100 * k, r - 1);
    }
  }

  lemma Centuries(y: int, k: int)
    ensures (y + 100) / 100 == (y + 99) / 100 + (if y % 100 == 0 then 1 else 0)
    ensures (y + 400 * k + 99) / 100 == (y + 99) / 100 + 4 * k
    ensures (y + 400 * k) % 100 == y % 100
    ensures y % 100 == 0 ==> y % 4 == 0
  {
    var q, r := y / 100, y % 100;
    Div100(y + 100, q + 1, r);
    Div100(y + 400 * k, q + 4 * k, r);
    if r == 0 {
      Div4(y, 25 * q, 0);
      Div100(y + 99, q, 99);
      Div100(y + 400 * k + 99, q + 4 * k, 99);
    } else {
      Div100(y + 99, q + 1, r - 1);
      Div100(y + 400 * k + 99, q + 1 + 4 * k, r - 1);
    }
  }

  lemma Cycles(y: int, k: int)
    ensures (y + 400) / 400 == (y + 399) / 400 + (if y % 400 == 0 then 1 else 0)
    ensures (y + 400 * k + 399) / 400 == (y + 399) / 400 + k
    ensures (y + 400 * k) % 400 == y % 400
    ensures y % 400 == 0 ==> y % 100 == 0
  {
    var q, r := y / 400, y % 400;
    Div400(y + 400, q + 1, r);
    Div400(y + 400 * k, q + k, r);
    if r == 0 {
      Div100(y, 4 * q, 0);
      Div400(y + 399, q, 399);
      Div400(y + 400 * k + 399, q + k, 399);
    } else {
      Div400(y + 399, q + 1, r - 1);
      Div400(y + 400 * k + 399, q + 1 + k, r - 1);
    }
  }

  lemma YearLength(y: int)
    ensures YearStart(y + 1) == YearStart(y) + (if Leap(y) then 366 else 365)
  {
    Fours(y, 0);
    Centuries(y, 0);
    Cycles(y, 0);
  }

  lemma {:induction false} MonthsFillYear(y: int)
    ensures MonthStart(y, 13) == if Leap(y) then 366 else 365
  {
    assert MonthStart(y, 2) == 31;
    assert MonthStart(y, 4) == MonthStart(y, 2) + DaysInMonth(y, 2) + 31;
    assert MonthStart(y, 6) == MonthStart(y, 4) + 61;
    assert MonthStart(y, 8) == MonthStart(y, 6) + 61;
    assert MonthStart(y, 10) == MonthStart(y, 8) + 61;
    assert MonthStart(y, 12) == MonthStart(y, 10) + 61;
  }

  lemma {:induction false} MonthsIncrease(y: int, m: int, n: int)
    requires 1 <= m < n <= 13
    ensures MonthStart(y, m) + DaysInMonth(y, m) <= MonthStart(y, n)
    decreases n
  {
    if m < n - 1 {
      MonthsIncrease(y, m, n - 1);
    }
  }

  lemma {:induction false} YearsIncrease(y: int, z: int)
    requires y <= z
    ensures YearStart(y) <= YearStart(z)
    decreases z - y
  {
    if y < z {
      YearsIncrease(y, z - 1);
      YearLength(z - 1);
    }
  }

  /** The last day of a month is the day before the first of the next one: time.Date(y, m + 1, 0). */
  lemma MonthEndsBeforeNext(y: int, m: int)
    requires 1 <= m <= 12
    ensures DayNumber(y, m, DaysInMonth(y, m)) + 1 == if m == 12 then DayNumber(y + 1, 1, 1) else DayNumber(y, m + 1, 1)
  {
    if m == 12 {
      YearLength(y);
      MonthsFillYear(y);
      assert MonthStart(y, 13) == MonthStart(y, 12) + DaysInMonth(y, 12);
    }
  }

  /** A valid date lies within its year. */
  lemma DateWithinYear(y: int, m: int, d: int)
    requires ValidDate(y, m, d)
    ensures YearStart(y) <= DayNumber(y, m, d) < YearStart(y + 1)
  {
    YearLength(y);
    MonthsFillYear(y);
    MonthsIncrease(y, m, 13);
    if m > 1 {
      MonthsIncrease(y, 1, m);
    }
  }

  predicate Earlier(y: int, m: int, d: int, y': int, m': int, d': int) {
    y < y' || (y == y' && (m < m' || (m == m' && d < d')))
  }

  /** Day numbers order dates as the calendar does. */
  lemma DatesIncrease(y: int, m: int, d: int, y': int, m': int, d': int)
    requires ValidDate(y, m, d) && ValidDate(y', m', d')
    ensures Earlier(y, m, d, y', m', d') <==> DayNumber(y, m, d) < DayNumber(y', m', d')
  {
    if Earlier(y, m, d, y', m', d') {
      EarlierIsSmaller(y, m, d, y', m', d');
    } else if Earlier(y', m', d', y, m, d) {
      EarlierIsSmaller(y', m', d', y, m, d);
    }
  }

  lemma EarlierIsSmaller(y: int, m: int, d: int, y': int, m': int, d': int)
    requires ValidDate(y, m, d) && ValidDate(y', m', d') && Earlier(y, m, d, y', m', d')
    ensures DayNumber(y, m, d) < DayNumber(y', m', d')
  {
    if y < y' {
      DateWithinYear(y, m, d);
      DateWithinYear(y', m', d');
      YearsIncrease(y + 1, y');
    } else if m < m' {
      MonthsIncrease(y, m, m');
    }
  }

  /** The calendar repeats after 400 years. */
  lemma Cycle(y: int, k: int)
    ensures Leap(y + 400 * k) == Leap(y)
    ensures YearStart(y + 400 * k) == YearStart(y) + 146097 * k
  {
    Fours(y, k);
    Centuries(y, k);
    Cycles(y, k);
  }

  lemma CycleYear(k: int)
    ensures YearStart(400 * k) == 146097 * k
  {
    Div4(400 * k + 3, 100 * k, 3);
    Div100(400 * k + 99, 4 * k, 99);
    Div400(400 * k + 399, k, 399);
  }

  lemma LeapCycle(k: int)
    ensures Leap(400 * k)
  {
    Div4(400 * k, 100 * k, 0);
    Div400(400 * k, k, 0);
  }

  /** The first year of the 400-year cycle a day lies in. */
  lemma CycleStart(day: int) returns (y: int)
    ensures YearStart(y) <= day
  {
    y := 400 * (day / 146097);
    CycleYear(day / 146097);
  }

  lemma SameYear(day: int, y: int, z: int)
    requires YearStart(y) <= day < YearStart(y + 1)
    requires YearStart(z) <= day < YearStart(z + 1)
    ensures y == z
  {
    if z < y {
      YearsIncrease(z + 1, y);
    } else if y < z {
      YearsIncrease(y + 1, z);
    }
  }

  /** Every day lies in exactly one year. */
  lemma {:induction false} YearOfDay(day: int) returns (y: int)
    ensures YearStart(y) <= day < YearStart(y + 1)
    ensures forall z :: YearStart(z) <= day < YearStart(z + 1) ==> z == y
  {
    y := CycleStart(day);
    while day >= YearStart(y + 1)
      invariant YearStart(y) <= day
      decreases day - YearStart(y)
    {
      YearLength(y);
      y := y + 1;
    }
    forall z | YearStart(z) <= day < YearStart(z + 1)
      ensures z == y
    {
      SameYear(day, y, z);
    }
  }

  // ---- The calendar from outside ------------------------------------------------------------

  /** The months of a year that begins in March have 31, 30, 31, 30, 31 days, over and over. */
  lemma MonthsFromMarch(y: int, m: int)
    requires 3 <= m <= 13
    ensures MonthStart(y, 2) == 31 && MonthStart(y, 3) == if Leap(y) then 60 else 59
    ensures MonthStart(y, m) == MonthStart(y, 3) + (153 * (m - 3) + 2) / 5
  {
    var march := MonthStart(y, 3);
    assert MonthStart(y, 4) == march + 31 && MonthStart(y, 5) == march + 61 && MonthStart(y, 6) == march + 92;
    assert MonthStart(y, 7) == march + 122 && MonthStart(y, 8) == march + 153 && MonthStart(y, 9) == march + 184;
    assert MonthStart(y, 10) == march + 214 && MonthStart(y, 11) == march + 245 && MonthStart(y, 12) == march + 275;
    assert MonthStart(y, 13) == march + 306;
  }

  /** The days before 1 March of year y, leap days counted by division alone. */
  function MarchStart(y: int): int {
    365 * y + y / 4 - y / 100 + y / 400 + 60
  }

  /**
   The number of a day without leap years or lengths of months: years begin in March, so that the
   leap day is the last of a year.
   */
  lemma DaysFromCivil(y: int, m: int, d: int)
    requires 1 <= m <= 12
    ensures DayNumber(y, m, d) == if m >= 3 then MarchStart(y) + (153 * (m - 3) + 2) / 5 + d - 1
                                  else MarchStart(y - 1) + (153 * (m + 9) + 2) / 5 + d - 1
  {
    MarchOfYear(y);
    if m >= 3 {
      MonthsFromMarch(y, m);
    } else {
      assert MonthStart(y, m) == if m == 1 then 0 else 31;
    }
  }

  lemma MarchOfYear(y: int)
    ensures YearStart(y) + (if Leap(y) then 60 else 59) == MarchStart(y)
    ensures YearStart(y) == MarchStart(y - 1) + 306
  {
    Fours(y, 0);
    Centuries(y, 0);
    Cycles(y, 0);
    assert (y + 4) / 4 == y / 4 + 1 && (y + 100) / 100 == y / 100 + 1 && (y + 400) / 400 == y / 400 + 1;
    assert (y + 3) / 4 == (y - 1) / 4 + 1 && (y + 99) / 100 == (y - 1) / 100 + 1 && (y + 399) / 400 == (y - 1) / 400 + 1;
  }
}
