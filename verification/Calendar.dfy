/** Days since 1970-01-01 and the proleptic Gregorian calendar. */
module Calendar {
  import opened Tasks

  const EPOCH_YEAR: nat := 1970

  datatype Ymd = Ymd(y: nat, m: nat, d: nat)
  {
    predicate Valid() {
      y >= EPOCH_YEAR && 1 <= m <= 12 && 1 <= d <= DaysInMonth(y, m)
    }

    predicate Before(o: Ymd) {
      y < o.y || (y == o.y && (m < o.m || (m == o.m && d < o.d)))
    }
  }

  predicate IsLeap(y: nat) { y % 4 == 0 && (y % 100 != 0 || y % 400 == 0) }

  function DaysInYear(y: nat): nat { if IsLeap(y) then 366 else 365 }

  function DaysInMonth(y: nat, m: nat): (n: nat)
    requires 1 <= m <= 12
    ensures 28 <= n <= 31
  {
    if m == 2 then (if IsLeap(y) then 29 else 28)
    else if m == 4 || m == 6 || m == 9 || m == 11 then 30
    else 31
  }

  function YearStart(y: nat): nat
    requires y >= EPOCH_YEAR
  {
    if y == EPOCH_YEAR then 0 else YearStart(y - 1) + DaysInYear(y - 1)
  }

  function MonthStart(y: nat, m: nat): nat
    requires 1 <= m <= 13
  {
    if m == 1 then 0 else MonthStart(y, m - 1) + DaysInMonth(y, m - 1)
  }

  function DayNumber(x: Ymd): int
    requires x.Valid()
  {
    YearStart(x.y) + MonthStart(x.y, x.m) + x.d - 1
  }

  /** Days from a date to the epoch, counted up year by year and month by month. */
  method YmdToEpochDay(y: nat, m: nat, d: nat) returns (day: Option<int>)
    ensures day == if Ymd(y, m, d).Valid() then Some(DayNumber(Ymd(y, m, d))) else None
  {
    if y < EPOCH_YEAR || m < 1 || m > 12 { return None; }
    if d < 1 || d > DaysInMonth(y, m) { return None; }
    var days := 0;
    for yr := EPOCH_YEAR to y
      invariant days == YearStart(yr)
    {
      days := days + DaysInYear(yr);
    }
    for mo := 1 to m
      invariant days == YearStart(y) + MonthStart(y, mo)
    {
      days := days + DaysInMonth(y, mo);
    }
    days := days + d - 1;
    return Some(days);
  }

  // ----- back from a day number -----------------------------------------------------

  function SplitYear(day: nat, y: nat): (r: (nat, nat))
    requires y >= EPOCH_YEAR
    ensures r.0 >= y && r.1 < DaysInYear(r.0) && YearStart(r.0) + r.1 == YearStart(y) + day
    decreases day
  {
    if day < DaysInYear(y) then (y, day) else SplitYear(day - DaysInYear(y), y + 1)
  }

  lemma MonthsFillYear(y: nat)
    ensures MonthStart(y, 13) == DaysInYear(y)
  {
    assert MonthStart(y, 2) == 31;
    assert MonthStart(y, 3) == 31 + DaysInMonth(y, 2);
    assert MonthStart(y, 5) == MonthStart(y, 3) + 61;
    assert MonthStart(y, 7) == MonthStart(y, 5) + 61;
    assert MonthStart(y, 9) == MonthStart(y, 7) + 62;
    assert MonthStart(y, 11) == MonthStart(y, 9) + 61;
  }

  function SplitMonth(y: nat, day: nat, m: nat): (r: (nat, nat))
    requires 1 <= m <= 12 && MonthStart(y, m) + day < DaysInYear(y)
    ensures m <= r.0 <= 12 && r.1 < DaysInMonth(y, r.0) && MonthStart(y, r.0) + r.1 == MonthStart(y, m) + day
    decreases 12 - m
  {
    if day < DaysInMonth(y, m) then (m, day)
    else
      assert m < 12 by { MonthsFillYear(y); }
      SplitMonth(y, day - DaysInMonth(y, m), m + 1)
  }

  function YmdOf(day: nat): (x: Ymd)
    ensures x.Valid() && DayNumber(x) == day
  {
    var (y, rest) := SplitYear(day, EPOCH_YEAR);
    var (m, index) := SplitMonth(y, rest, 1);
    Ymd(y, m, index + 1)
  }

  /** The same, by the two loops that count years and months down. */
  method EpochDayToYmd(day: nat) returns (x: Ymd)
    ensures x == YmdOf(day)
  {
    var y, rest := CountYears(day);
    var m, left := CountMonths(y, rest);
    return Ymd(y, m, left + 1);
  }

  method CountYears(day: nat) returns (y: nat, rest: nat)
    ensures (y, rest) == SplitYear(day, EPOCH_YEAR)
  {
    y, rest := EPOCH_YEAR, day;
    while rest >= DaysInYear(y)
      invariant y >= EPOCH_YEAR && SplitYear(rest, y) == SplitYear(day, EPOCH_YEAR)
      decreases rest
    {
      rest := rest - DaysInYear(y);
      y := y + 1;
    }
  }

  method CountMonths(y: nat, day: nat) returns (m: nat, left: nat)
    requires MonthStart(y, 1) + day < DaysInYear(y)
    ensures (m, left) == SplitMonth(y, day, 1)
  {
    m, left := 1, day;
    while left >= DaysInMonth(y, m)
      invariant 1 <= m <= 12 && MonthStart(y, m) + left < DaysInYear(y)
      invariant SplitMonth(y, left, m) == SplitMonth(y, day, 1)
      decreases left
    {
      MonthsFillYear(y);
      left := left - DaysInMonth(y, m);
      m := m + 1;
    }
  }

  // ----- order, inverse, closed form ---------------------------------------------------

  lemma {:induction false} YearsGrow(y: nat, z: nat)
    requires EPOCH_YEAR <= y < z
    ensures YearStart(y) + DaysInYear(y) <= YearStart(z)
  {
    if y + 1 < z { YearsGrow(y, z - 1); }
  }

  lemma {:induction false} MonthsGrow(y: nat, m: nat, n: nat)
    requires 1 <= m < n <= 13
    ensures MonthStart(y, m) + DaysInMonth(y, m) <= MonthStart(y, n)
  {
    if m + 1 < n { MonthsGrow(y, m, n - 1); }
  }

  /** Later dates have larger numbers, so no two dates share one. */
  lemma DayNumberIsMonotone(a: Ymd, b: Ymd)
    requires a.Valid() && b.Valid()
    ensures a.Before(b) <==> DayNumber(a) < DayNumber(b)
    ensures a == b <==> DayNumber(a) == DayNumber(b)
  {
    if a.Before(b) { EarlierIsSmaller(a, b); }
    if b.Before(a) { EarlierIsSmaller(b, a); }
  }

  lemma EarlierIsSmaller(a: Ymd, b: Ymd)
    requires a.Valid() && b.Valid() && a.Before(b)
    ensures DayNumber(a) < DayNumber(b)
  {
    if a.y < b.y {
      YearsGrow(a.y, b.y);
      MonthsFillYear(a.y);
      MonthsGrow(a.y, a.m, 13);
    } else if a.m < b.m {
      MonthsGrow(a.y, a.m, b.m);
    }
  }

  /** The two conversions are inverse both ways. */
  lemma DateRoundTrip(x: Ymd)
    requires x.Valid()
    ensures DayNumber(x) >= 0 && YmdOf(DayNumber(x)) == x
  {
    DayNumberIsMonotone(YmdOf(DayNumber(x)), x);
  }

  /** The usual closed form of the year count. */
  lemma {:induction false} YearStartClosed(y: nat)
    requires y >= EPOCH_YEAR
    ensures YearStart(y) == 365 * (y - 1970) + ((y - 1) / 4 - 492) - ((y - 1) / 100 - 19) + ((y - 1) / 400 - 4)
  {
    if y > EPOCH_YEAR {
      YearStartClosed(y - 1);
      LeapStep(y - 1);
    }
  }

  /** ... and of the whole day number, with the lengths of the months written out. */
  lemma DayNumberClosed(x: Ymd)
    requires x.Valid()
    ensures
      var leap := x.y % 4 == 0 && (x.y % 100 != 0 || x.y % 400 == 0);
      DayNumber(x) ==
        365 * (x.y - 1970) + ((x.y - 1) / 4 - 492) - ((x.y - 1) / 100 - 19) + ((x.y - 1) / 400 - 4)
        + [0, 31, 59, 90, 120, 151, 181, 212, 243, 273, 304, 334][x.m - 1] + (if leap && x.m > 2 then 1 else 0)
        + x.d - 1
    ensures x.d <= [31, 29, 31, 30, 31, 30, 31, 31, 30, 31, 30, 31][x.m - 1]
  {
    YearStartClosed(x.y);
    MonthStartIs(x.y, x.m);
  }

  lemma {:induction false} MonthStartIs(y: nat, m: nat)
    requires 1 <= m <= 12
    ensures MonthStart(y, m) ==
      [0, 31, 59, 90, 120, 151, 181, 212, 243, 273, 304, 334][m - 1] + (if IsLeap(y) && m > 2 then 1 else 0)
  {
    if m > 1 { MonthStartIs(y, m - 1); }
  }

  lemma LeapStep(y: nat)
    requires y >= EPOCH_YEAR
    ensures DaysInYear(y) - 365 == (y / 4 - (y - 1) / 4) - (y / 100 - (y - 1) / 100) + (y / 400 - (y - 1) / 400)
  {
    QuotientStep(y, 4);
    QuotientStep(y, 100);
    QuotientStep(y, 400);
  }

  lemma QuotientStep(y: int, k: int)
    requires y >= 1 && (k == 4 || k == 100 || k == 400)
    ensures y / k - (y - 1) / k == if y % k == 0 then 1 else 0
  {
  }
}
