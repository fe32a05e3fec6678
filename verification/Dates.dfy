/** Date input and output: absolute and relative forms in a local offset, the
    printer, and the bot's keywords. */
module Dates {
  import opened Tasks
  import opened Calendar

  const DAY: int := 86400
  const MAX_YEAR: nat := 9999
  const MAX_I64: int := 0x7FFF_FFFF_FFFF_FFFF

  datatype Kind = Due | Scheduled

  function TimeOfDay(k: Kind): (s: int)
    ensures 0 <= s < DAY
  {
    if k.Due? then 86399 else 0
  }

  datatype Parsed = BadDate | Cleared | At(utc: int)

  // ----- numbers ---------------------------------------------------------------------

  predicate IsDigit(c: char) { '0' <= c <= '9' }

  function Value(c: char): nat
    requires IsDigit(c)
  {
    c as int - '0' as int
  }

  function DigitChar(n: nat): (c: char)
    requires n < 10
    ensures IsDigit(c) && Value(c) == n
  {
    ('0' as int + n) as char
  }

  /** Digits with underscores between them, as Zig reads integers. */
  function ParseDigits(s: string): Option<nat> {
    if s == [] then Some(0)
    else
      var rest, c := ParseDigits(s[..|s| - 1]), s[|s| - 1];
      if rest.None? then None
      else if c == '_' then rest
      else if IsDigit(c) then Some(rest.value * 10 + Value(c))
      else None
  }

  function ParseUnsigned(s: string): Option<nat> {
    if s == [] || s[0] == '_' || s[|s| - 1] == '_' then None else ParseDigits(s)
  }

  /** A signed 64-bit integer. */
  function ParseInt(s: string): Option<int> {
    if s == [] then None
    else if s[0] == '-' then
      var n := ParseUnsigned(s[1..]);
      if n.None? || n.value > MAX_I64 + 1 then None
      else
        var v: int := n.value;
        Some(-v)
    else
      var n := ParseUnsigned(if s[0] == '+' then s[1..] else s);
      if n.Some? && n.value <= MAX_I64 then Some(n.value) else None
  }

  function Decimal(n: nat): (s: string)
    ensures |s| >= 1
  {
    if n < 10 then [DigitChar(n)] else Decimal(n / 10) + [DigitChar(n % 10)]
  }

  function Zeros(n: nat): (s: string)
    ensures |s| == n
  {
    if n == 0 then [] else Zeros(n - 1) + ['0']
  }

  function Pad(n: nat, width: nat): string {
    var d := Decimal(n);
    if |d| < width then Zeros(width - |d|) + d else d
  }

  function Printed(x: Ymd): string {
    Pad(x.y, 4) + "-" + Pad(x.m, 2) + "-" + Pad(x.d, 2)
  }

  /** The local date of an instant; before the epoch it clamps to the epoch. */
  function FormatDate(utc: int, offset: int): string {
    var local := utc + offset * 60;
    Printed(YmdOf((if local < 0 then 0 else local) / DAY))
  }

  // ----- parsing ---------------------------------------------------------------------

  function MaxSecs(): int { DayNumber(Ymd(MAX_YEAR, 12, 31)) * DAY + 86399 }

  function Bounded(utc: int): Parsed { if utc > MaxSecs() then BadDate else At(utc) }

  /** Seconds into the day that the tail of an absolute date names. */
  function ClockPart(s: string, k: Kind): (secs: Option<int>)
    requires |s| >= 10
    ensures secs.Some? ==> 0 <= secs.value < DAY
  {
    if |s| == 10 then Some(TimeOfDay(k))
    else if |s| != 16 || s[10] != 'T' || s[13] != ':' then None
    else
      var hh, mm := ParseUnsigned(s[11..13]), ParseUnsigned(s[14..16]);
      if hh.None? || mm.None? || hh.value > 23 || mm.value > 59 then None
      else Some(hh.value * 3600 + mm.value * 60)
  }

  function DatePart(s: string): (x: Option<Ymd>)
    ensures x.Some? ==> x.value.Valid()
  {
    if |s| < 10 || s[4] != '-' || s[7] != '-' then None
    else
      var y, m, d := ParseUnsigned(s[0..4]), ParseUnsigned(s[5..7]), ParseUnsigned(s[8..10]);
      if y.None? || m.None? || d.None? || !Ymd(y.value, m.value, d.value).Valid() then None
      else Some(Ymd(y.value, m.value, d.value))
  }

  function ParseAbsolute(s: string, k: Kind, offset: int): Parsed {
    var x := DatePart(s);
    if x.None? then BadDate
    else
      var clock := ClockPart(s, k);
      if clock.None? then BadDate
      else
        var utc := DayNumber(x.value) * DAY + clock.value - offset * 60;
        if utc < 0 then BadDate else Bounded(utc)
  }

  /** `n` months later, the day cut to the length of that month. */
  function AddMonths(x: Ymd, n: nat): (r: Ymd)
    requires x.Valid()
    ensures r.Valid()
  {
    var total := x.m - 1 + n;
    var y, m := x.y + total / 12, total % 12 + 1;
    Ymd(y, m, if x.d > DaysInMonth(y, m) then DaysInMonth(y, m) else x.d)
  }

  function Today(now: int, offset: int): int { (now + offset * 60) / DAY }

  function ParseRelative(s: string, now: int, k: Kind, offset: int): Parsed {
    if |s| < 2 then BadDate
    else
      var unit, n := s[|s| - 1], ParseInt(s[..|s| - 1]);
      if n.None? || n.value < 0 then BadDate
      else
        var today := Today(now, offset);
        if today < 0 then BadDate
        else
          var base := today * DAY + TimeOfDay(k) - offset * 60;
          if unit == 'd' then Bounded(base + n.value * DAY)
          else if unit == 'w' then Bounded(base + n.value * (7 * DAY))
          else if unit == 'm' then
            var r := AddMonths(YmdOf(today), n.value);
            if r.y > MAX_YEAR then BadDate
            else Bounded(DayNumber(r) * DAY + TimeOfDay(k) - offset * 60)
          else BadDate
  }

  function ParseDate(s: string, now: int, k: Kind, offset: int): Parsed {
    if s == "none" then Cleared
    else if |s| >= 1 && s[0] == '+' then ParseRelative(s[1..], now, k, offset)
    else ParseAbsolute(s, k, offset)
  }

  // ----- digits there and back ------------------------------------------------------------

  lemma ParseSnoc(s: string, c: char)
    requires IsDigit(c) && ParseDigits(s).Some?
    ensures ParseDigits(s + [c]) == Some(ParseDigits(s).value * 10 + Value(c))
  {
    assert (s + [c])[..|s|] == s;
  }

  lemma DecimalSnoc(q: nat, r: nat)
    requires q >= 1 && r < 10
    ensures Decimal(q * 10 + r) == Decimal(q) + [DigitChar(r)]
  {
    assert (q * 10 + r) / 10 == q && (q * 10 + r) % 10 == r;
  }

  lemma TwoChars(s: string)
    requires |s| == 2 && ParseUnsigned(s).Some?
    ensures IsDigit(s[0]) && IsDigit(s[1]) && ParseUnsigned(s).value == Value(s[0]) * 10 + Value(s[1])
  {
    var s1 := s[..1];
    assert s1 == [s[0]] && s1[..0] == [];
    assert ParseDigits(s1).Some?;
    assert ParseDigits(s1[..0]) == Some(0);
    assert s1[|s1| - 1] == s[0];
  }

  /** Two characters that parse are the two-digit print of their value. */
  lemma TwoDigits(s: string)
    requires |s| == 2 && ParseUnsigned(s).Some?
    ensures Pad(ParseUnsigned(s).value, 2) == s
  {
    TwoChars(s);
    var a, b := Value(s[0]), Value(s[1]);
    assert DigitChar(a) == s[0] && DigitChar(b) == s[1];
    TwoPrinted(a, b);
    assert s == [s[0], s[1]];
  }

  lemma TwoPrinted(a: nat, b: nat)
    requires a < 10 && b < 10
    ensures Pad(a * 10 + b, 2) == [DigitChar(a), DigitChar(b)]
  {
    assert Decimal(b) == [DigitChar(b)];
    if a == 0 {
      assert Zeros(1) == ['0'] && DigitChar(0) == '0';
    } else {
      DecimalSnoc(a, b);
      assert Decimal(a) == [DigitChar(a)];
    }
  }

  lemma {:induction false} ParseDigitsBound(s: string)
    ensures ParseDigits(s).Some? ==> ParseDigits(s).value < Ten(|s|)
  {
    if s != [] { ParseDigitsBound(s[..|s| - 1]); }
  }

  function Ten(n: nat): (t: nat)
    ensures t >= 1
  {
    if n == 0 then 1 else 10 * Ten(n - 1)
  }

  /** Four characters worth at least 1000 are four digits. */
  lemma FourDigits(s: string)
    requires |s| == 4 && ParseUnsigned(s).Some? && ParseUnsigned(s).value >= 1000
    ensures Pad(ParseUnsigned(s).value, 4) == s
  {
    hide ParseDigits, Pad, Ten;
    var s3, s2, s1 := s[..3], s[..2], s[..1];
    assert s3[..2] == s2 && s2[..1] == s1;
    assert ParseDigits(s) == ParseUnsigned(s);
    PowersOfTen();
    LastDigit(s, 4);
    LastDigit(s3, 3);
    LastDigit(s2, 2);
    LastDigit(s1, 1);
    assert s1[..0] == "";
    NoDigits();
    FourPrinted(Value(s[0]), Value(s[1]), Value(s[2]), Value(s[3]));
    assert s == [s[0], s[1], s[2], s[3]];
  }

  lemma PowersOfTen()
    ensures Ten(0) == 1 && Ten(1) == 10 && Ten(2) == 100 && Ten(3) == 1000
  {
  }

  lemma NoDigits()
    ensures ParseDigits("") == Some(0)
  {
  }

  /** A prefix worth at least 10^(n-1) ends in a digit. */
  lemma LastDigit(s: string, n: nat)
    requires 1 <= n == |s| && ParseDigits(s).Some? && ParseDigits(s).value >= Ten(n - 1)
    ensures IsDigit(s[n - 1]) && ParseDigits(s[..n - 1]).Some?
    ensures ParseDigits(s).value == ParseDigits(s[..n - 1]).value * 10 + Value(s[n - 1])
  {
    ParseDigitsBound(s[..n - 1]);
  }

  lemma FourPrinted(a: nat, b: nat, c: nat, d: nat)
    requires 1 <= a < 10 && b < 10 && c < 10 && d < 10
    ensures Pad(((a * 10 + b) * 10 + c) * 10 + d, 4) == [DigitChar(a), DigitChar(b), DigitChar(c), DigitChar(d)]
  {
    assert Decimal(a) == [DigitChar(a)];
    DecimalSnoc(a, b);
    DecimalSnoc(a * 10 + b, c);
    DecimalSnoc((a * 10 + b) * 10 + c, d);
  }

  lemma PrintTwo(n: nat)
    requires n < 100
    ensures |Pad(n, 2)| == 2 && ParseUnsigned(Pad(n, 2)) == Some(n)
  {
    var a, b := n / 10, n % 10;
    TwoPrinted(a, b);
    ParseSnoc([], DigitChar(a));
    ParseSnoc([DigitChar(a)], DigitChar(b));
    assert [] + [DigitChar(a)] == [DigitChar(a)];
    assert [DigitChar(a)] + [DigitChar(b)] == [DigitChar(a), DigitChar(b)];
  }

  lemma PrintFour(n: nat)
    requires 1000 <= n < 10000
    ensures |Pad(n, 4)| == 4 && ParseUnsigned(Pad(n, 4)) == Some(n) && IsDigit(Pad(n, 4)[0])
  {
    var q3, d := n / 10, n % 10;
    var q2, c := q3 / 10, q3 % 10;
    var a, b := q2 / 10, q2 % 10;
    assert n == ((a * 10 + b) * 10 + c) * 10 + d;
    FourPrinted(a, b, c, d);
    FourParsed(a, b, c, d);
  }

  lemma FourParsed(a: nat, b: nat, c: nat, d: nat)
    requires a < 10 && b < 10 && c < 10 && d < 10
    ensures ParseDigits([DigitChar(a), DigitChar(b), DigitChar(c), DigitChar(d)])
      == Some(((a * 10 + b) * 10 + c) * 10 + d)
  {
    var s1, s2, s3 := [DigitChar(a)], [DigitChar(a), DigitChar(b)], [DigitChar(a), DigitChar(b), DigitChar(c)];
    ParseSnoc([], DigitChar(a));
    assert [] + s1 == s1;
    ParseSnoc(s1, DigitChar(b));
    assert s1 + [DigitChar(b)] == s2;
    ParseSnoc(s2, DigitChar(c));
    assert s2 + [DigitChar(c)] == s3;
    ParseSnoc(s3, DigitChar(d));
    assert s3 + [DigitChar(d)] == [DigitChar(a), DigitChar(b), DigitChar(c), DigitChar(d)];
  }

  // ----- round trips --------------------------------------------------------------------

  lemma DatePartPrints(s: string)
    requires DatePart(s).Some?
    ensures Printed(DatePart(s).value) == s[..10]
  {
    var x := DatePart(s).value;
    FourDigits(s[0..4]);
    TwoDigits(s[5..7]);
    TwoDigits(s[8..10]);
    assert s[..10] == s[0..4] + "-" + s[5..7] + "-" + s[8..10];
  }

  lemma FormatOfLocal(day: nat, secs: int, offset: int)
    requires 0 <= secs < DAY
    ensures FormatDate(day * DAY + secs - offset * 60, offset) == Printed(YmdOf(day))
  {
    assert (day * DAY + secs) / DAY == day;
  }

  /** Whatever absolute date is accepted, at whatever offset, prints as the date
      that was typed. */
  lemma ParsedPrintsBack(s: string, k: Kind, offset: int)
    requires ParseAbsolute(s, k, offset).At?
    ensures FormatDate(ParseAbsolute(s, k, offset).utc, offset) == s[..10]
  {
    var x := DatePart(s).value;
    DateRoundTrip(x);
    FormatOfLocal(DayNumber(x), ClockPart(s, k).value, offset);
    DatePartPrints(s);
  }

  lemma PrintedParses(x: Ymd)
    requires x.Valid() && x.y <= MAX_YEAR
    ensures |Printed(x)| == 10 && DatePart(Printed(x)) == Some(x) && IsDigit(Printed(x)[0])
  {
    PrintFour(x.y);
    PrintTwo(x.m);
    PrintTwo(x.d);
    var s := Printed(x);
    assert s[0..4] == Pad(x.y, 4) && s[5..7] == Pad(x.m, 2) && s[8..10] == Pad(x.d, 2);
  }

  lemma {:induction false} LongYear(n: nat)
    requires n >= 10000
    ensures |Decimal(n)| >= 5 && forall i :: 0 <= i < |Decimal(n)| ==> IsDigit(Decimal(n)[i])
  {
    DecimalDigits(n);
    assert Ten(1) == 10 && Ten(2) == 100 && Ten(3) == 1000 && Ten(4) == 10000;
    DecimalLength(n, 5);
  }

  lemma {:induction false} DecimalDigits(n: nat)
    ensures forall i :: 0 <= i < |Decimal(n)| ==> IsDigit(Decimal(n)[i])
  {
    if n >= 10 { DecimalDigits(n / 10); }
  }

  lemma {:induction false} DecimalLength(n: nat, k: nat)
    requires k > 0 && n >= Ten(k - 1)
    ensures |Decimal(n)| >= k
  {
    if k > 1 {
      assert n / 10 >= Ten(k - 2);
      DecimalLength(n / 10, k - 1);
    }
  }

  /** A year of five digits no longer parses. */
  lemma LongYearIsUnreadable(x: Ymd, now: int, k: Kind, offset: int)
    requires x.y >= 10000
    ensures ParseDate(Printed(x), now, k, offset) == BadDate
    ensures Printed(x) != "" && IsDigit(Printed(x)[0])
  {
    LongYear(x.y);
    var s := Printed(x);
    assert s[0] == Decimal(x.y)[0] && s[4] == Decimal(x.y)[4];
  }

  /** Past 9999 the printed year has five digits. */
  lemma FarFutureIsUnreadable(utc: int, now: int, k: Kind, offset: int)
    requires utc + offset * 60 > MaxSecs()
    ensures ParseDate(FormatDate(utc, offset), now, k, offset) == BadDate
    ensures FormatDate(utc, offset) != "" && IsDigit(FormatDate(utc, offset)[0])
  {
    hide YmdOf, Printed, ParseDate, MaxSecs;
    LastSecond();
    var x := YmdOf((utc + offset * 60) / DAY);
    LastDay(x);
    LongYearIsUnreadable(x, now, k, offset);
  }

  /** What a printed date parses to: its own local day, at the time of day a bare
      date stands for. A local time before the epoch prints as the epoch's day;
      one past 9999 does not parse, nor does an instant out of range. */
  lemma PrintedParsesBack(utc: int, now: int, k: Kind, offset: int)
    ensures FormatDate(utc, offset) != "" && IsDigit(FormatDate(utc, offset)[0])
    ensures
      var local := utc + offset * 60;
      var back := (if local < 0 then 0 else local - local % DAY) + TimeOfDay(k) - offset * 60;
      ParseDate(FormatDate(utc, offset), now, k, offset)
        == if local > MaxSecs() || back < 0 then BadDate else Bounded(back)
  {
    hide FormatDate, ParseDate, MaxSecs, Printed, YmdOf, TimeOfDay, Bounded;
    LastSecond();
    var local := utc + offset * 60;
    if local > MaxSecs() {
      FarFutureIsUnreadable(utc, now, k, offset);
    } else {
      var shown := if local < 0 then 0 else local;
      DayBegins(shown);
      DayParsesBack(shown / DAY, now, k, offset);
      DayOfLocal(utc, offset);
    }
  }

  lemma DayBegins(local: nat)
    ensures local / DAY * DAY == local - local % DAY <= local
  {
  }

  lemma DayOfLocal(utc: int, offset: int)
    ensures var local := utc + offset * 60;
      FormatDate(utc, offset) == Printed(YmdOf((if local < 0 then 0 else local) / DAY))
  {
  }

  lemma DayParsesBack(day: nat, now: int, k: Kind, offset: int)
    requires day * DAY <= MaxSecs()
    ensures var back := day * DAY + TimeOfDay(k) - offset * 60;
      ParseDate(Printed(YmdOf(day)), now, k, offset) == if back < 0 then BadDate else Bounded(back)
    ensures Printed(YmdOf(day)) != "" && IsDigit(Printed(YmdOf(day))[0])
  {
    hide Printed, DatePart, YmdOf;
    LastDay(YmdOf(day));
    PrintedParses(YmdOf(day));
  }

  lemma LastDay(x: Ymd)
    requires x.Valid()
    ensures x.y <= MAX_YEAR <==> DayNumber(x) * DAY <= MaxSecs()
  {
    var end := Ymd(MAX_YEAR, 12, 31);
    DayNumberIsMonotone(x, end);
    DayNumberIsMonotone(end, x);
  }

  function Digit(n: nat): char
    requires n < 10
  {
    ['0', '1', '2', '3', '4', '5', '6', '7', '8', '9'][n]
  }

  /** Year, month and day, with all their digits. */
  lemma PrintedIs(x: Ymd)
    requires x.Valid() && x.y <= 9999
    ensures Printed(x) ==
      [Digit(x.y / 1000), Digit(x.y / 100 % 10), Digit(x.y / 10 % 10), Digit(x.y % 10), '-',
       Digit(x.m / 10), Digit(x.m % 10), '-', Digit(x.d / 10), Digit(x.d % 10)]
  {
    hide Pad, Digit;
    DigitsOfYear(x.y);
    TwoPrinted(x.m / 10, x.m % 10);
    TwoPrinted(x.d / 10, x.d % 10);
    forall n: nat | n < 10 ensures Digit(n) == DigitChar(n) { DigitIs(n); }
  }

  lemma DigitIs(n: nat)
    requires n < 10
    ensures Digit(n) == DigitChar(n)
  {
  }

  lemma DigitsOfYear(y: nat)
    requires 1000 <= y <= 9999
    ensures Pad(y, 4) ==
      [DigitChar(y / 1000), DigitChar(y / 100 % 10), DigitChar(y / 10 % 10), DigitChar(y % 10)]
  {
    hide Pad;
    var a, b, c, d := y / 1000, y / 100 % 10, y / 10 % 10, y % 10;
    assert y == ((a * 10 + b) * 10 + c) * 10 + d;
    FourPrinted(a, b, c, d);
  }

  // ----- the instants ------------------------------------------------------------------------

  /** The last second of 9999. */
  lemma LastSecond()
    ensures MaxSecs() == 253402300799
  {
    hide DayNumber;
    var x := Ymd(9999, 12, 31);
    DayNumberClosed(x);
    assert [0, 31, 59, 90, 120, 151, 181, 212, 243, 273, 304, 334][x.m - 1] == 334;
  }

  /** An instant is accepted from the epoch to the end of 9999. */
  predicate Accepted(utc: int) { 0 <= utc <= 253402300799 }

  /** A date typed with a time of day is that minute of that day, in the local offset. */
  lemma ClockIs(x: Ymd, hh: nat, mm: nat, now: int, k: Kind, offset: int)
    requires x.Valid() && x.y <= 9999 && hh < 100 && mm < 100
    ensures
      var utc := DayNumber(x) * 86400 + hh * 3600 + mm * 60 - offset * 60;
      ParseDate(Printed(x) + "T" + Pad(hh, 2) + ":" + Pad(mm, 2), now, k, offset)
        == if hh <= 23 && mm <= 59 && Accepted(utc) then At(utc) else BadDate
  {
    hide Printed, MaxSecs, Pad, DatePart, DayNumber;
    LastSecond();
    PrintedParses(x);
    PrintTwo(hh);
    PrintTwo(mm);
    var s := Printed(x) + "T" + Pad(hh, 2) + ":" + Pad(mm, 2);
    DatePartOfPrefix(Printed(x), s);
    assert s[11..13] == Pad(hh, 2) && s[14..16] == Pad(mm, 2) && s[0] == Printed(x)[0];
  }

  /** ... and a bare one is the last second of the day, or the first of a scheduled day. */
  lemma BareDateIs(x: Ymd, now: int, k: Kind, offset: int)
    requires x.Valid() && x.y <= 9999
    ensures
      var utc := DayNumber(x) * 86400 + (if k == Due then 86399 else 0) - offset * 60;
      ParseDate(Printed(x), now, k, offset) == if Accepted(utc) then At(utc) else BadDate
  {
    hide Printed, MaxSecs, DatePart, DayNumber;
    LastSecond();
    PrintedParses(x);
  }

  lemma DatePartOfPrefix(p: string, s: string)
    requires |p| == 10 && p <= s && DatePart(p).Some?
    ensures DatePart(s) == DatePart(p)
  {
    assert s[0..4] == p[0..4] && s[5..7] == p[5..7] && s[8..10] == p[8..10];
  }

  lemma {:induction false} DecimalReads(n: nat)
    ensures ParseDigits(Decimal(n)) == Some(n) && forall i :: 0 <= i < |Decimal(n)| ==> IsDigit(Decimal(n)[i])
  {
    DecimalDigits(n);
    if n < 10 {
      ParseSnoc([], DigitChar(n));
      assert [] + [DigitChar(n)] == [DigitChar(n)];
    } else {
      DecimalReads(n / 10);
      ParseSnoc(Decimal(n / 10), DigitChar(n % 10));
    }
  }

  /** `+` and a number of days or weeks is that many days after today, and of months
      that many months, at the time of day of a bare date. */
  lemma RelativeIs(n: nat, unit: char, now: int, k: Kind, offset: int)
    requires n <= MAX_I64 && unit in {'d', 'w', 'm'}
    ensures
      var today := (now + offset * 60) / 86400;
      ParseDate("+" + Decimal(n) + [unit], now, k, offset) ==
        if today < 0 then BadDate
        else
          var landed := AddMonths(YmdOf(today), n);
          var day := if unit == 'd' then today + n else if unit == 'w' then today + 7 * n else DayNumber(landed);
          var utc := day * 86400 + (if k == Due then 86399 else 0) - offset * 60;
          if utc <= 253402300799 && (unit == 'm' ==> landed.y <= 9999) then At(utc) else BadDate
  {
    hide MaxSecs, AddMonths, YmdOf, DayNumber, Decimal, ParseRelative;
    var s := Decimal(n) + [unit];
    assert ("+" + Decimal(n) + [unit])[1..] == s && s[..|s| - 1] == Decimal(n);
    DecimalReads(n);
    PlainNumber(Decimal(n), n);
    RelativeAt(s, n, now, k, offset);
  }

  lemma RelativeAt(s: string, n: nat, now: int, k: Kind, offset: int)
    requires |s| >= 2 && s[|s| - 1] in {'d', 'w', 'm'} && ParseInt(s[..|s| - 1]) == Some(n)
    ensures
      var today, unit := (now + offset * 60) / 86400, s[|s| - 1];
      ParseRelative(s, now, k, offset) ==
        if today < 0 then BadDate
        else
          var landed := AddMonths(YmdOf(today), n);
          var day := if unit == 'd' then today + n else if unit == 'w' then today + 7 * n else DayNumber(landed);
          var utc := day * 86400 + (if k == Due then 86399 else 0) - offset * 60;
          if utc <= 253402300799 && (unit == 'm' ==> landed.y <= 9999) then At(utc) else BadDate
  {
    hide MaxSecs, AddMonths, YmdOf, DayNumber, ParseInt;
    LastSecond();
  }

  lemma PlainNumber(s: string, n: nat)
    requires s != "" && ParseDigits(s) == Some(n) && n <= MAX_I64 && forall i :: 0 <= i < |s| ==> IsDigit(s[i])
    ensures ParseInt(s) == Some(n)
  {
    hide ParseDigits;
  }

  // ----- relative dates ----------------------------------------------------------------------

  function MonthIndex(x: Ymd): int { x.y * 12 + x.m - 1 }

  /** Exactly `n` months on, on the same day or the last one of a shorter month. */
  lemma AddMonthsLands(x: Ymd, n: nat)
    requires x.Valid()
    ensures MonthIndex(AddMonths(x, n)) == MonthIndex(x) + n
    ensures var r := AddMonths(x, n);
      r.d == x.d || (r.d < x.d && r.d == DaysInMonth(r.y, r.m))
  {
  }

  /** More months, later date. */
  lemma AddMonthsIncreases(x: Ymd, a: nat, b: nat)
    requires x.Valid() && a < b
    ensures DayNumber(AddMonths(x, a)) < DayNumber(AddMonths(x, b))
  {
    AddMonthsLands(x, a);
    AddMonthsLands(x, b);
    EarlierIsSmaller(AddMonths(x, a), AddMonths(x, b));
  }

  /** What a relative date prints as: `n` days, weeks or months after today. */
  lemma RelativeLands(s: string, now: int, k: Kind, offset: int)
    requires ParseRelative(s, now, k, offset).At?
    ensures Today(now, offset) >= 0 && ParseInt(s[..|s| - 1]).Some? && ParseInt(s[..|s| - 1]).value >= 0
    ensures FormatDate(ParseRelative(s, now, k, offset).utc, offset)
         == Printed(Later(YmdOf(Today(now, offset)), ParseInt(s[..|s| - 1]).value, s[|s| - 1]))
  {
    hide ParseInt, Printed, YmdOf, FormatDate;
    var n := ParseInt(s[..|s| - 1]).value;
    var today := Today(now, offset);
    DateRoundTrip(YmdOf(today));
    if s[|s| - 1] == 'd' {
      DaysLand(today, n, k, offset);
    } else if s[|s| - 1] == 'w' {
      DaysLand(today, 7 * n, k, offset);
    } else {
      MonthsLand(AddMonths(YmdOf(today), n), k, offset);
    }
  }

  /** `n` units after a date. */
  function Later(x: Ymd, n: nat, unit: char): Ymd
    requires x.Valid()
  {
    DateRoundTrip(x);
    if unit == 'd' then YmdOf(DayNumber(x) + n)
    else if unit == 'w' then YmdOf(DayNumber(x) + 7 * n)
    else AddMonths(x, n)
  }

  lemma MonthsLand(r: Ymd, k: Kind, offset: int)
    requires r.Valid()
    ensures FormatDate(DayNumber(r) * DAY + TimeOfDay(k) - offset * 60, offset) == Printed(r)
  {
    DateRoundTrip(r);
    FormatOfLocal(DayNumber(r), TimeOfDay(k), offset);
  }

  lemma DaysLand(today: nat, n: nat, k: Kind, offset: int)
    ensures FormatDate(today * DAY + TimeOfDay(k) - offset * 60 + n * DAY, offset) == Printed(YmdOf(today + n))
  {
    hide FormatDate, Printed, YmdOf;
    FormatOfLocal(today + n, TimeOfDay(k), offset);
    assert (today + n) * DAY == today * DAY + n * DAY;
  }

  // ----- the bot's keywords ---------------------------------------------------------------------

  /** Go's division, which truncates toward zero. */
  function TruncDiv(a: int, b: int): int
    requires b != 0
  {
    if a >= 0 then a / b else -((-a) / b)
  }

  function TruncMod(a: int, b: int): int
    requires b != 0
  {
    a - TruncDiv(a, b) * b
  }

  function FloorDiv(a: int, b: int): int
    requires b != 0
  {
    var q := TruncDiv(a, b);
    if TruncMod(a, b) != 0 && (a < 0) != (b < 0) then q - 1 else q
  }

  lemma FloorDivRoundsDown(a: int)
    ensures FloorDiv(a, DAY) == a / DAY
  {
    if a < 0 {
      var q, r := (-a) / DAY, (-a) % DAY;
      assert -a == q * DAY + r && 0 <= r < DAY;
      assert TruncMod(a, DAY) == -r;
    }
  }

  datatype Keyword = ClearKw | TodayKw | TomorrowKw | In3Days | In1Week

  function AddDays(kw: Keyword): int {
    match kw case TomorrowKw => 1 case In3Days => 3 case In1Week => 7 case _ => 0
  }

  function DueFromKeyword(kw: Keyword, now: int, offset: int): Parsed {
    if kw.ClearKw? then Cleared
    else
      var off := offset * 60;
      var local := now + off;
      var start := FloorDiv(local, DAY) * DAY;
      At(start + AddDays(kw) * DAY + 86399 - off)
  }

  /** The same words at the command line. */
  function Typed(kw: Keyword): string {
    match kw
    case ClearKw => "none"
    case TodayKw => "+0d"
    case TomorrowKw => "+1d"
    case In3Days => "+3d"
    case In1Week => "+1w"
  }

  /** A keyword is the last second of today, or of the day it says. */
  lemma KeywordIs(kw: Keyword, now: int, offset: int)
    requires kw != ClearKw
    ensures
      var days := match kw case TomorrowKw => 1 case In3Days => 3 case In1Week => 7 case _ => 0;
      DueFromKeyword(kw, now, offset)
        == At(((now + offset * 60) / 86400 + days) * 86400 + 86399 - offset * 60)
  {
    FloorDivRoundsDown(now + offset * 60);
  }

  /** The bot and the command line agree on every keyword, except where the
      command line refuses: before the epoch's first local day, and past 9999. */
  lemma KeywordsAgree(kw: Keyword, now: int, offset: int)
    ensures var bot := DueFromKeyword(kw, now, offset);
      ParseDate(Typed(kw), now, Due, offset)
      == if bot.At? && (Today(now, offset) < 0 || bot.utc > MaxSecs()) then BadDate else bot
  {
    hide MaxSecs;
    FloorDivRoundsDown(now + offset * 60);
    if !kw.ClearKw? {
      var s := Typed(kw)[1..];
      OneDigit(s[0]);
      assert s[..1] == [s[0]];
    }
  }

  lemma OneDigit(c: char)
    requires IsDigit(c)
    ensures ParseInt([c]) == Some(Value(c))
  {
    ParseSnoc([], c);
    assert [] + [c] == [c];
  }
}
