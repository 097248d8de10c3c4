/**
 Times and their text. A time is a whole number of nanoseconds since
 0000-01-01T00:00:00Z, so that years 0-9999 are the numbers below RANGE_END seconds.
 The store writes RFC 3339 text in UTC and reads it back; SQLite compares that text byte
 by byte (section 5.1 of RFC 3339).
 */
module Timestamps {
  import opened Text
  import opened Model

  const NANOS := 1_000_000_000
  const DAY := 86_400
  /** The first second of year 1, Go's zero time. */
  const ZERO_SECOND := 366 * DAY
  const ZERO_TIME: Time := ZERO_SECOND * NANOS
  /** The first second of year 10000. */
  const RANGE_END := 3_652_425 * DAY
  /** The first second of 1970. */
  const EPOCH := 719_528 * DAY
  const HOUR: Time := 3_600 * NANOS

  /** The whole second a time lies in; formatting drops the rest. */
  function SecondOf(t: Time): int {
    t / NANOS
  }

  predicate IsZero(t: Time) {
    t == ZERO_TIME
  }

  /** A second in years 0-9999, the years RFC 3339 can write. */
  predicate InRange(second: int) {
    0 <= second < RANGE_END
  }

  // ---------- the proleptic Gregorian calendar ----------

  predicate IsLeap(year: int) {
    year % 4 == 0 && (year % 100 != 0 || year % 400 == 0)
  }

  function YearLength(year: int): int {
    if IsLeap(year) then 366 else 365
  }

  /** Days from 0000-01-01 to the first day of a year, negative before year 0. */
  function DaysBeforeYear(year: int): int
    decreases if year < 0 then -year else year
  {
    if year == 0 then 0
    else if year > 0 then DaysBeforeYear(year - 1) + YearLength(year - 1)
    else DaysBeforeYear(year + 1) - YearLength(year)
  }

  lemma YearStep(year: int)
    ensures DaysBeforeYear(year + 1) == DaysBeforeYear(year) + YearLength(year)
  {
  }

  function ClosedForm(year: int): int {
    365 * year + (year + 3) / 4 - (year + 99) / 100 + (year + 399) / 400
  }

  lemma FourStep(year: int)
    ensures (year + 4) / 4 - (year + 3) / 4 == if year % 4 == 0 then 1 else 0
  {
  }

  lemma HundredStep(year: int)
    ensures (year + 100) / 100 - (year + 99) / 100 == if year % 100 == 0 then 1 else 0
  {
  }

  lemma FourHundredStep(year: int)
    ensures (year + 400) / 400 - (year + 399) / 400 == if year % 400 == 0 then 1 else 0
  {
  }

  lemma CenturiesAreFourths(year: int)
    ensures (year % 400 == 0 ==> year % 100 == 0) && (year % 100 == 0 ==> year % 4 == 0)
  {
  }

  lemma ClosedFormStep(year: int)
    ensures ClosedForm(year + 1) == ClosedForm(year) + YearLength(year)
  {
    FourStep(year);
    HundredStep(year);
    FourHundredStep(year);
    CenturiesAreFourths(year);
  }

  lemma {:induction false} DaysClosedForm(year: int)
    requires year >= 0
    ensures DaysBeforeYear(year) == ClosedForm(year)
  {
    if year == 0 {
    } else {
      DaysClosedForm(year - 1);
      YearStep(year - 1);
      ClosedFormStep(year - 1);
    }
  }

  /** Ten thousand years have 3652425 days. */
  lemma DaysInRange(end: int)
    requires end == 10000
    ensures DaysBeforeYear(end) * DAY == RANGE_END
  {
    DaysClosedForm(end);
  }

  lemma {:induction false} YearsOrdered(a: int, b: int)
    requires a <= b
    ensures DaysBeforeYear(a) + 365 * (b - a) <= DaysBeforeYear(b)
    decreases b - a
  {
    if a == b {
    } else {
      YearsOrdered(a, b - 1);
      YearStep(b - 1);
    }
  }

  /** The year a day lies in, searched from a starting guess. */
  function YearFrom(day: int, guess: int): (year: int)
    ensures DaysBeforeYear(year) <= day < DaysBeforeYear(year) + YearLength(year)
    decreases if day < DaysBeforeYear(guess) then DaysBeforeYear(guess) - day + 366 else day - DaysBeforeYear(guess)
  {
    YearStep(guess);
    YearStep(guess - 1);
    if day < DaysBeforeYear(guess) then YearFrom(day, guess - 1)
    else if day >= DaysBeforeYear(guess) + YearLength(guess) then YearFrom(day, guess + 1)
    else guess
  }

  function DaysBeforeMonth(leap: bool, month: int): int
    requires 1 <= month <= 13
  {
    var extra := if leap then 1 else 0;
    match month
    case 1 => 0
    case 2 => 31
    case 3 => 59 + extra
    case 4 => 90 + extra
    case 5 => 120 + extra
    case 6 => 151 + extra
    case 7 => 181 + extra
    case 8 => 212 + extra
    case 9 => 243 + extra
    case 10 => 273 + extra
    case 11 => 304 + extra
    case 12 => 334 + extra
    case 13 => 365 + extra
  }

  function MonthFrom(leap: bool, dayOfYear: int, month: int): (m: int)
    requires 1 <= month <= 12 && DaysBeforeMonth(leap, month) <= dayOfYear < DaysBeforeMonth(leap, 13)
    ensures 1 <= m <= 12 && DaysBeforeMonth(leap, m) <= dayOfYear < DaysBeforeMonth(leap, m + 1)
    decreases 12 - month
  {
    if dayOfYear < DaysBeforeMonth(leap, month + 1) then month else MonthFrom(leap, dayOfYear, month + 1)
  }

  datatype Civil = Civil(year: int, month: int, day: int, hour: int, minute: int, second: int) {
    predicate Valid() {
      && 1 <= month <= 12
      && 1 <= day <= DaysBeforeMonth(IsLeap(year), month + 1) - DaysBeforeMonth(IsLeap(year), month)
      && 0 <= hour < 24 && 0 <= minute < 60 && 0 <= second < 60
    }

    function Day(): int
      requires 1 <= month <= 12
    {
      DaysBeforeYear(year) + DaysBeforeMonth(IsLeap(year), month) + day - 1
    }

    /** Seconds since 0000-01-01T00:00:00Z. */
    function ToSecond(): int
      requires 1 <= month <= 12
    {
      Day() * DAY + hour * 3600 + minute * 60 + second
    }

    /** Field by field, most significant first. */
    predicate Before(c: Civil) {
      || year < c.year
      || (year == c.year && month < c.month)
      || (year == c.year && month == c.month && day < c.day)
      || (year == c.year && month == c.month && day == c.day && ClockBefore(c))
    }

    predicate ClockBefore(c: Civil) {
      || hour < c.hour
      || (hour == c.hour && minute < c.minute)
      || (hour == c.hour && minute == c.minute && second < c.second)
    }
  }

  /** The calendar day with a given number, at midnight. */
  function DateOf(day: int): (c: Civil)
    ensures c.Valid() && c.Day() == day && c.hour == c.minute == c.second == 0
  {
    var year := YearFrom(day, 0);
    var dayOfYear := day - DaysBeforeYear(year);
    var leap := IsLeap(year);
    var month := MonthFrom(leap, dayOfYear, 1);
    Civil(year, month, dayOfYear - DaysBeforeMonth(leap, month) + 1, 0, 0, 0)
  }

  /** Hour, minute and second of a second within a day. */
  function ClockOf(clock: int): (c: (int, int, int))
    requires 0 <= clock < DAY
    ensures 0 <= c.0 < 24 && 0 <= c.1 < 60 && 0 <= c.2 < 60
    ensures c.0 * 3600 + c.1 * 60 + c.2 == clock
  {
    var minutes := clock / 60;
    (minutes / 60, minutes % 60, clock % 60)
  }

  function ToCivil(second: int): (c: Civil)
    ensures c.Valid() && c.ToSecond() == second
  {
    var date, clock := DateOf(second / DAY), ClockOf(second % DAY);
    date.(hour := clock.0, minute := clock.1, second := clock.2)
  }

  lemma MonthsOrdered(leap: bool, a: int, b: int)
    requires 1 <= a < b <= 13
    ensures DaysBeforeMonth(leap, a + 1) <= DaysBeforeMonth(leap, b)
  {
  }

  lemma DaysOrdered(a: Civil, b: Civil)
    requires a.Valid() && b.Valid()
    requires a.year < b.year || (a.year == b.year && (a.month < b.month || (a.month == b.month && a.day < b.day)))
    ensures a.Day() < b.Day()
  {
    if a.year < b.year {
      YearsOrdered(a.year + 1, b.year);
      YearStep(a.year);
      if a.month < 12 { MonthsOrdered(IsLeap(a.year), a.month, 13); }
    } else if a.month < b.month {
      MonthsOrdered(IsLeap(a.year), a.month, b.month);
    }
  }

  lemma CivilOrder(a: Civil, b: Civil)
    requires a.Valid() && b.Valid() && a.Before(b)
    ensures a.ToSecond() < b.ToSecond()
  {
    if a.year != b.year || a.month != b.month || a.day != b.day {
      DaysOrdered(a, b);
    } else {
      assert a.Day() == b.Day();
    }
  }

  lemma CivilOrderConverse(a: Civil, b: Civil)
    requires a.Valid() && b.Valid() && a.ToSecond() < b.ToSecond()
    ensures a.Before(b)
  {
    if !a.Before(b) && a != b {
      CivilOrder(b, a);
    }
  }

  lemma YearBounds(c: Civil)
    requires c.Valid()
    ensures DaysBeforeYear(c.year) <= c.Day() < DaysBeforeYear(c.year + 1)
  {
    YearStep(c.year);
    if c.month < 12 { MonthsOrdered(IsLeap(c.year), c.month, 13); }
  }

  lemma YearOfCivil(c: Civil, second: int)
    requires c.Valid() && c.ToSecond() == second
    ensures InRange(second) <==> 0 <= c.year <= 9999
  {
    YearBounds(c);
    YearRange(c.year, c.Day(), 10000);
  }

  lemma YearInRange(second: int)
    ensures InRange(second) <==> 0 <= ToCivil(second).year <= 9999
  {
    YearOfCivil(ToCivil(second), second);
  }

  lemma YearRange(year: int, day: int, end: int)
    requires DaysBeforeYear(year) <= day < DaysBeforeYear(year + 1) && end == 10000
    ensures 0 <= year < end <==> 0 <= day * DAY && (day + 1) * DAY <= RANGE_END
  {
    DaysInRange(end);
    if year < 0 { YearsOrdered(year + 1, 0); }
    if 0 <= year < end { YearsOrdered(0, year); YearsOrdered(year + 1, end); }
    if year >= end { YearsOrdered(end, year); }
  }

  // ---------- the calendar as a clock that ticks ----------

  /** Thirty days have September, April, June and November. */
  function MonthLength(year: int, month: int): int {
    if month in {4, 6, 9, 11} then 30
    else if month != 2 then 31
    else if year % 4 == 0 && (year % 100 != 0 || year % 400 == 0) then 29
    else 28
  }

  /** The day after, by carrying. */
  function NextDay(c: Civil): Civil {
    if c.day < MonthLength(c.year, c.month) then Civil(c.year, c.month, c.day + 1, 0, 0, 0)
    else if c.month < 12 then Civil(c.year, c.month + 1, 1, 0, 0, 0)
    else Civil(c.year + 1, 1, 1, 0, 0, 0)
  }

  /** The second after, by carrying. */
  function Tick(c: Civil): Civil {
    if c.second < 59 then c.(second := c.second + 1)
    else if c.minute < 59 then c.(minute := c.minute + 1, second := 0)
    else if c.hour < 23 then c.(hour := c.hour + 1, minute := 0, second := 0)
    else NextDay(c)
  }

  lemma ValidExactly(c: Civil)
    ensures c.Valid() <==> && 1 <= c.month <= 12 && 1 <= c.day <= MonthLength(c.year, c.month)
                           && 0 <= c.hour < 24 && 0 <= c.minute < 60 && 0 <= c.second < 60
  {
  }

  lemma CivilUnique(c: Civil, second: int)
    requires c.Valid() && c.ToSecond() == second
    ensures ToCivil(second) == c
  {
    if ToCivil(second).Before(c) { CivilOrder(ToCivil(second), c); }
    if c.Before(ToCivil(second)) { CivilOrder(c, ToCivil(second)); }
  }

  lemma MonthLengthOk(year: int, month: int)
    requires 1 <= month <= 12
    ensures MonthLength(year, month) == DaysBeforeMonth(IsLeap(year), month + 1) - DaysBeforeMonth(IsLeap(year), month)
    ensures MonthLength(year, month) >= 28
  {
  }

  lemma DaysOfYear(year: int)
    ensures DaysBeforeMonth(IsLeap(year), 12) + MonthLength(year, 12) == YearLength(year)
    ensures DaysBeforeMonth(IsLeap(year), 1) == 0
  {
  }

  lemma NextDayIsNext(c: Civil)
    requires c.Valid()
    ensures NextDay(c).Valid() && NextDay(c).Day() == c.Day() + 1
  {
    MonthLengthOk(c.year, c.month);
    if c.day == MonthLength(c.year, c.month) {
      if c.month < 12 {
        MonthLengthOk(c.year, c.month + 1);
      } else {
        MonthLengthOk(c.year + 1, 1);
        DaysOfYear(c.year);
        DaysOfYear(c.year + 1);
        YearStep(c.year);
      }
    }
  }

  lemma TickIsNext(c: Civil)
    requires c.Valid()
    ensures Tick(c).Valid() && Tick(c).ToSecond() == c.ToSecond() + 1
  {
    if c.second < 59 || c.minute < 59 || c.hour < 23 {
      assert Tick(c).Day() == c.Day();
    } else {
      NextDayIsNext(c);
      assert Tick(c) == NextDay(c);
    }
  }

  /** Second by second the calendar goes as people count it. */
  lemma ClockTicks(second: int)
    ensures ToCivil(second + 1) == Tick(ToCivil(second))
  {
    TickIsNext(ToCivil(second));
    CivilUnique(Tick(ToCivil(second)), second + 1);
  }

  lemma NewYear(year: int)
    requires year >= 0
    ensures Civil(year, 1, 1, 0, 0, 0).Valid() && Civil(year, 1, 1, 0, 0, 0).ToSecond() == ClosedForm(year) * DAY
  {
    DaysClosedForm(year);
  }

  /** Where each year begins. */
  lemma AtNewYear(year: int, second: int)
    requires year >= 0 && second == ClosedForm(year) * DAY
    ensures ToCivil(second) == Civil(year, 1, 1, 0, 0, 0)
  {
    NewYear(year);
    CivilUnique(Civil(year, 1, 1, 0, 0, 0), second);
  }

  /** Where the count starts, Go's zero time, and the Unix epoch. */
  lemma Landmarks()
    ensures ClosedForm(0) == 0 && ClosedForm(1) * DAY == ZERO_SECOND && ClosedForm(1970) * DAY == EPOCH
  {
  }

  // ---------- RFC 3339 text ----------

  /** Go pads a year to four digits and writes more when it needs them. */
  function YearText(year: int): (s: string)
    ensures '|' !in s && 'T' !in s
    ensures 0 <= year <= 9999 <==> |s| == 4 && AllDigits(s)
    ensures |s| >= 4 && (year > 9999 ==> |s| >= 5 && AllDigits(s))
  {
    if year < 0 then
      var n := -year;
      ['-'] + if n <= 9999 then Pad4(n) else Decimal(n)
    else if year <= 9999 then Pad4(year)
    else Decimal(year)
  }

  function MonthDayText(c: Civil): (s: string)
    requires c.Valid()
    ensures |s| == 5
  {
    Pad2(c.month) + ("-" + Pad2(c.day))
  }

  function DateText(c: Civil): string
    requires c.Valid()
  {
    YearText(c.year) + ("-" + MonthDayText(c))
  }

  function ClockText(c: Civil): string
    requires c.Valid()
  {
    Pad2(c.hour) + (":" + (Pad2(c.minute) + (":" + (Pad2(c.second) + "Z"))))
  }

  function CivilText(c: Civil): string
    requires c.Valid()
  {
    DateText(c) + "T" + ClockText(c)
  }

  function StampText(second: int): (s: string)
    ensures |s| >= 20
  {
    CivilText(ToCivil(second))
  }

  function StampLength(second: int): nat {
    if InRange(second) then 20 else |StampText(second)|
  }

  lemma StampLengthOk(second: int)
    ensures StampLength(second) == |StampText(second)|
  {
    YearInRange(second);
  }

  /**
   time.Format(time.RFC3339) of a UTC time in the given second, byte by byte; Rendered gives
   the whole.
   */
  function Rfc3339(second: int): (s: string)
    ensures |s| >= 20
  {
    seq(StampLength(second), i requires 0 <= i < StampLength(second) => StampByte(second, i))
  }

  function StampByte(second: int, i: nat): char
    requires i < StampLength(second)
  {
    StampLengthOk(second);
    StampText(second)[i]
  }

  lemma Rendered(second: int)
    ensures Rfc3339(second) == CivilText(ToCivil(second))
  {
    StampLengthOk(second);
    var s, t := Rfc3339(second), StampText(second);
    assert |s| == |t|;
    assert forall i :: 0 <= i < |s| ==> s[i] == t[i];
  }

  function Format(t: Time): string {
    Rfc3339(SecondOf(t))
  }

  predicate TwoDigits(s: string) {
    |s| == 2 && AllDigits(s)
  }

  /**
   time.Parse(time.RFC3339) on text of the shape the store writes. Go reads exactly four
   year digits, so a longer or a negative year does not parse.
   */
  function ParseSecond(s: string): Option<int> {
    if && |s| == 20 && AllDigits(s[..4]) && s[4] == '-' && TwoDigits(s[5..7]) && s[7] == '-' && TwoDigits(s[8..10])
       && s[10] == 'T' && TwoDigits(s[11..13]) && s[13] == ':' && TwoDigits(s[14..16]) && s[16] == ':'
       && TwoDigits(s[17..19]) && s[19] == 'Z'
    then
      CivilSecond(Civil(Number(s[..4]), Number(s[5..7]), Number(s[8..10]),
                        Number(s[11..13]), Number(s[14..16]), Number(s[17..19])))
    else None
  }

  function CivilSecond(c: Civil): Option<int> {
    if c.Valid() then Some(c.ToSecond()) else None
  }

  /** What a scan of a stored column yields: the parse error is dropped, leaving the zero time. */
  function ParseOrZero(s: string): Time {
    OrZero(ParseSecond(s))
  }

  lemma SliceOfFirst(a: string, b: string, i: nat, j: nat)
    requires i <= j <= |a|
    ensures (a + b)[i..j] == a[i..j]
  {
  }

  lemma SliceOfSecond(a: string, b: string, i: nat, j: nat)
    requires i <= j <= |b|
    ensures (a + b)[|a| + i..|a| + j] == b[i..j]
  {
  }

  lemma DateFields(c: Civil, s: string)
    requires c.Valid() && 0 <= c.year <= 9999 && s == DateText(c)
    ensures |s| == 10 && s[..4] == Pad4(c.year) && s[4] == s[7] == '-'
    ensures s[5..7] == Pad2(c.month) && s[8..10] == Pad2(c.day)
  {
    var y, m := Pad4(c.year), "-" + MonthDayText(c);
    assert s == y + m && m == "-" + (Pad2(c.month) + ("-" + Pad2(c.day)));
    SliceOfFirst(y, m, 0, 4);
    SliceOfSecond(y, m, 1, 3);
    SliceOfSecond(y, m, 4, 6);
  }

  lemma ClockFields(c: Civil, s: string)
    requires c.Valid() && s == ClockText(c)
    ensures |s| == 9 && s[..2] == Pad2(c.hour) && s[2] == s[5] == ':' && s[8] == 'Z'
    ensures s[3..5] == Pad2(c.minute) && s[6..8] == Pad2(c.second)
  {
  }

  lemma FieldsOf(c: Civil, s: string)
    requires c.Valid() && 0 <= c.year <= 9999 && s == CivilText(c)
    ensures |s| == 20 && s[..4] == Pad4(c.year) && s[5..7] == Pad2(c.month) && s[8..10] == Pad2(c.day)
    ensures s[11..13] == Pad2(c.hour) && s[14..16] == Pad2(c.minute) && s[17..19] == Pad2(c.second)
    ensures s[4] == s[7] == '-' && s[10] == 'T' && s[13] == s[16] == ':' && s[19] == 'Z'
  {
    var date, clock := DateText(c), ClockText(c);
    DateFields(c, date);
    ClockFields(c, clock);
    JoinedFields(date, clock, s);
  }

  /** The fields of a date and of a time of day, where they stand in the whole. */
  lemma JoinedFields(date: string, clock: string, s: string)
    requires |date| == 10 && |clock| == 9 && s == date + "T" + clock
    ensures |s| == 20 && s[..4] == date[..4] && s[5..7] == date[5..7] && s[8..10] == date[8..10]
    ensures s[11..13] == clock[..2] && s[14..16] == clock[3..5] && s[17..19] == clock[6..8]
    ensures s[4] == date[4] && s[7] == date[7] && s[10] == 'T'
    ensures s[13] == clock[2] && s[16] == clock[5] && s[19] == clock[8]
  {
    var front := date + "T";
    assert front[..4] == date[..4] && front[5..7] == date[5..7] && front[8..10] == date[8..10];
    SliceOfFirst(front, clock, 0, 4);
    SliceOfFirst(front, clock, 5, 7);
    SliceOfFirst(front, clock, 8, 10);
    SliceOfSecond(front, clock, 0, 2);
    SliceOfSecond(front, clock, 3, 5);
    SliceOfSecond(front, clock, 6, 8);
  }

  lemma ParseCivilText(c: Civil)
    requires c.Valid() && 0 <= c.year <= 9999
    ensures ParseSecond(CivilText(c)) == CivilSecond(c)
  {
    FieldsOf(c, CivilText(c));
    NumberPad4(c.year);
    NumberPad2(c.month);
    NumberPad2(c.day);
    NumberPad2(c.hour);
    NumberPad2(c.minute);
    NumberPad2(c.second);
  }

  /** Reading back what was written gives the second, exactly for the years RFC 3339 can write. */
  lemma ParseFormat(second: int)
    ensures ParseSecond(Rfc3339(second)) == if InRange(second) then Some(second) else None
  {
    Rendered(second);
    ParseStampText(second, Rfc3339(second));
  }

  lemma ParseStampText(second: int, s: string)
    requires s == CivilText(ToCivil(second))
    ensures ParseSecond(s) == if InRange(second) then Some(second) else None
  {
    var c := ToCivil(second);
    YearInRange(second);
    if InRange(second) {
      ParseCivilText(c);
    } else {
      var y := YearText(c.year);
      assert s == y + (("-" + MonthDayText(c)) + "T" + ClockText(c));
      assert if c.year < 0 then s[..4][0] == '-' else s[4] == y[4];
    }
  }

  lemma PairOrder(a: int, b: int, sep: string, p: string, q: string)
    requires 0 <= a < 100 && 0 <= b < 100 && (a < b || (a == b && TextLt(p, q)))
    ensures TextLt(Pad2(a) + (sep + p), Pad2(b) + (sep + q))
  {
    if a < b {
      Pad2Order(a, b);
      TextLtExtend(Pad2(a), Pad2(b), sep + p, sep + q);
    } else {
      TextLtAfter(sep, p, q);
      TextLtAfter(Pad2(a), sep + p, sep + q);
    }
  }

  lemma DateOrder(a: Civil, b: Civil)
    requires a.Valid() && b.Valid() && 0 <= a.year <= 9999 && 0 <= b.year <= 9999
    requires a.year < b.year || (a.year == b.year && (a.month < b.month || (a.month == b.month && a.day < b.day)))
    ensures TextLt(DateText(a), DateText(b)) && |DateText(a)| == |DateText(b)|
  {
    var ma, mb := "-" + MonthDayText(a), "-" + MonthDayText(b);
    if a.year < b.year {
      Pad4Order(a.year, b.year);
      TextLtExtend(Pad4(a.year), Pad4(b.year), ma, mb);
    } else {
      if a.month == b.month { Pad2Order(a.day, b.day); }
      PairOrder(a.month, b.month, "-", Pad2(a.day), Pad2(b.day));
      TextLtAfter("-", MonthDayText(a), MonthDayText(b));
      TextLtAfter(Pad4(a.year), ma, mb);
    }
  }

  lemma ClockOrder(a: Civil, b: Civil)
    requires a.Valid() && b.Valid() && a.ClockBefore(b)
    ensures TextLt(ClockText(a), ClockText(b))
  {
    var sa, sb := Pad2(a.second) + "Z", Pad2(b.second) + "Z";
    if a.second < b.second {
      Pad2Order(a.second, b.second);
      TextLtExtend(Pad2(a.second), Pad2(b.second), "Z", "Z");
    }
    var ma, mb := Pad2(a.minute) + (":" + sa), Pad2(b.minute) + (":" + sb);
    if a.hour == b.hour {
      PairOrder(a.minute, b.minute, ":", sa, sb);
    }
    PairOrder(a.hour, b.hour, ":", ma, mb);
  }

  lemma TextOrderStrict(a: int, b: int)
    requires InRange(a) && InRange(b) && a < b
    ensures TextLt(Rfc3339(a), Rfc3339(b))
  {
    var ca, cb := ToCivil(a), ToCivil(b);
    YearInRange(a);
    YearInRange(b);
    CivilOrderConverse(ca, cb);
    CivilTextOrder(ca, cb);
    Rendered(a);
    Rendered(b);
  }

  lemma CivilTextOrder(ca: Civil, cb: Civil)
    requires ca.Valid() && cb.Valid() && 0 <= ca.year <= 9999 && 0 <= cb.year <= 9999 && ca.Before(cb)
    ensures TextLt(CivilText(ca), CivilText(cb))
  {
    var da, db := DateText(ca), DateText(cb);
    var ta, tb := "T" + ClockText(ca), "T" + ClockText(cb);
    assert CivilText(ca) == da + ta && CivilText(cb) == db + tb;
    if ca.year == cb.year && ca.month == cb.month && ca.day == cb.day {
      ClockOrder(ca, cb);
      TextLtAfter("T", ClockText(ca), ClockText(cb));
      TextLtAfter(da, ta, tb);
    } else {
      DateOrder(ca, cb);
      TextLtExtend(da, db, ta, tb);
    }
  }

  /** Text order is time order for every pair of seconds in years 0-9999. */
  lemma TextOrderIsTimeOrder(a: int, b: int)
    requires InRange(a) && InRange(b)
    ensures TextLe(Rfc3339(a), Rfc3339(b)) <==> a <= b
    ensures Rfc3339(a) == Rfc3339(b) <==> a == b
  {
    if a < b {
      TextOrderStrict(a, b);
      TextLtAsymmetric(Rfc3339(a), Rfc3339(b));
    } else if b < a {
      TextOrderStrict(b, a);
      TextLtAsymmetric(Rfc3339(b), Rfc3339(a));
    }
  }

  ghost predicate IsStamp(s: string) {
    exists second :: InRange(second) && s == Rfc3339(second)
  }

  function OrZero(parsed: Option<int>): Time {
    match parsed
    case Some(second) => second * NANOS
    case None => ZERO_TIME
  }

  lemma ReadBack(second: int, s: string)
    requires s == Rfc3339(second)
    ensures ParseOrZero(s) == if InRange(second) then second * NANOS else ZERO_TIME
  {
    ParseFormat(second);
  }

  /** A time without its fraction, which is what a stored column keeps of it. */
  function WholeSecond(t: Time): Time {
    SecondOf(t) * NANOS
  }

  lemma FormatReadBack(t: Time)
    requires InRange(SecondOf(t))
    ensures ParseOrZero(Format(t)) == WholeSecond(t) && ParseSecond(Format(t)).Some?
  {
    ParseFormat(SecondOf(t));
    ReadBack(SecondOf(t), Format(t));
  }

  lemma StampSecond(s: string) returns (second: int)
    requires IsStamp(s)
    ensures InRange(second) && s == Rfc3339(second)
  {
    second :| InRange(second) && s == Rfc3339(second);
  }

  lemma StampValue(s: string) returns (second: int)
    requires IsStamp(s)
    ensures InRange(second) && s == Rfc3339(second) && ParseOrZero(s) == second * NANOS
  {
    second := StampSecond(s);
    ReadBack(second, s);
  }

  /** Comparing two stored stamps as text is comparing the times they are read back as. */
  lemma StampOrder(p: string, q: string)
    requires IsStamp(p) && IsStamp(q)
    ensures TextLe(p, q) <==> ParseOrZero(p) <= ParseOrZero(q)
  {
    var s := StampValue(p);
    var t := StampValue(q);
    TextOrderIsTimeOrder(s, t);
  }

  /** Comparing a stored stamp with a clock reading compares seconds; the fraction does not matter. */
  lemma StampAfter(p: string, t: Time)
    requires IsStamp(p) && InRange(SecondOf(t))
    ensures TextLe(Format(t), p) <==> SecondOf(ParseOrZero(p)) >= SecondOf(t)
    ensures TextLe(p, Format(t)) <==> ParseOrZero(p) <= t
  {
    var s := StampValue(p);
    TextOrderIsTimeOrder(SecondOf(t), s);
    TextOrderIsTimeOrder(s, SecondOf(t));
  }

  lemma FiveDigitYear()
    ensures YearText(10000) == "10000"
  {
    assert Decimal(10) == "10" && Decimal(100) == "100" && Decimal(1000) == "1000";
    assert Decimal(10000) == Decimal(1000) + "0";
  }

  /** The range is needed: every second of year 10000 sorts before every second of years 2000-9999. */
  lemma TextOrderFailsBeyondRange(early: int, late: int)
    requires 2000 <= ToCivil(early).year <= 9999 && ToCivil(late).year == 10000
    ensures early < late && TextLt(Rfc3339(late), Rfc3339(early))
  {
    CivilOrder(ToCivil(early), ToCivil(late));
    FiveDigitYear();
    Rendered(early);
    Rendered(late);
    var year := ToCivil(early).year;
    assert Rfc3339(late)[0] == YearText(10000)[0] == '1';
    assert Rfc3339(early)[0] == YearText(year)[0] == Digit(year / 1000) by {
      assert year / 100 / 10 == year / 1000;
    }
  }

  // ---------- exactly which seconds the text order is right about ----------

  /** Compared as text with any second of years 0-9999, the second comes out on the right side. */
  ghost predicate SortsRight(b: int) {
    forall a :: InRange(a) ==> (TextLe(Rfc3339(a), Rfc3339(b)) <==> a <= b)
  }

  /** The year of a second from 10000 on has five digits or more; these are the first four. */
  function YearHead(second: int): (s: string)
    ensures |s| == 4
  {
    YearText(ToCivil(second).year)[..4]
  }

  lemma YearSign(second: int)
    ensures second < 0 <==> ToCivil(second).year < 0
  {
    var c := ToCivil(second);
    YearBounds(c);
    if c.year < 0 { YearsOrdered(c.year + 1, 0); } else { YearsOrdered(0, c.year); }
  }

  lemma YearAtLeast(second: int, year: int)
    requires DaysBeforeYear(year) * DAY <= second
    ensures ToCivil(second).year >= year
  {
    var c := ToCivil(second);
    YearBounds(c);
    if c.year < year { YearsOrdered(c.year + 1, year); }
  }

  lemma LastYear(end: int) returns (second: int)
    requires end == 10000
    ensures InRange(second) && ToCivil(second).year == end - 1
  {
    second := RANGE_END - 1;
    DaysInRange(end);
    YearStep(end - 1);
    YearAtLeast(second, end - 1);
    YearInRange(second);
  }

  /** The text of a second begins with its year, and a dash follows. */
  lemma YearFirst(second: int) returns (rest: string)
    ensures Rfc3339(second) == YearText(ToCivil(second).year) + rest && rest != "" && rest[0] == '-'
  {
    Rendered(second);
    var c := ToCivil(second);
    rest := ("-" + MonthDayText(c)) + ("T" + ClockText(c));
    assert CivilText(c) == YearText(c.year) + rest;
  }

  lemma TwoOf(p: string) returns (n: int)
    requires TwoDigits(p)
    ensures 0 <= n < 100 && p == Pad2(n)
  {
    n := DigitValue(p[0]) * 10 + DigitValue(p[1]);
  }

  lemma FourDigits(p: string) returns (n: int)
    requires |p| == 4 && AllDigits(p)
    ensures 0 <= n < 10000 && p == Pad4(n)
  {
    var a := TwoOf(p[..2]);
    var b := TwoOf(p[2..]);
    n := a * 100 + b;
    assert n / 100 == a && n % 100 == b && p == p[..2] + p[2..];
  }

  const LAST_HEAD := "9999"

  lemma HeadOf(year: int)
    requires year + 1 == 10000
    ensures YearText(year)[..4] == LAST_HEAD
  {
    assert LAST_HEAD == Pad4(9999);
  }

  lemma HeadIs(second: int, year: int)
    requires ToCivil(second).year == year
    ensures YearHead(second) == YearText(year)[..4]
  {
  }

  lemma LastYearHead(end: int) returns (second: int)
    requires end == 10000
    ensures InRange(second) && YearHead(second) == LAST_HEAD
  {
    second := LastYear(end);
    HeadIs(second, end - 1);
    HeadOf(end - 1);
  }

  lemma BeforeLastHead(p: string)
    requires |p| == 4 && AllDigits(p) && p != LAST_HEAD
    ensures TextLt(p, LAST_HEAD)
  {
    var n := FourDigits(p);
    assert LAST_HEAD == Pad4(9999);
    Pad4Order(n, 9999);
  }

  lemma NegativeSortsRight(a: int, b: int)
    requires InRange(a) && b < 0
    ensures TextLt(Rfc3339(b), Rfc3339(a))
  {
    YearSign(b);
    YearInRange(a);
    var ra := YearFirst(a);
    var rb := YearFirst(b);
    assert Rfc3339(b)[0] == '-' && IsDigit(Rfc3339(a)[0]);
  }

  /** A text whose first four digits are not 9999 sorts before year 9999. */
  lemma HeadBefore(y: string, rest: string, other: string)
    requires |y| >= 4 && AllDigits(y) && y[..4] != LAST_HEAD
    ensures TextLt(y + rest, LAST_HEAD + other)
  {
    BeforeLastHead(y[..4]);
    TextLtExtend(y[..4], LAST_HEAD, y[4..] + rest, other);
    assert y + rest == y[..4] + (y[4..] + rest);
  }

  /** Four digits and a dash sort before 9999 and another digit. */
  lemma HeadAfter(q: string, rest: string, y: string, other: string)
    requires |q| == 4 && AllDigits(q) && rest != "" && rest[0] == '-'
    requires |y| >= 5 && AllDigits(y) && y[..4] == LAST_HEAD
    ensures TextLt(q + rest, y + other)
  {
    var tail := y[4..] + other;
    assert y + other == LAST_HEAD + tail && IsDigit(y[4]) && tail[0] == y[4];
    if q == LAST_HEAD {
      TextLtAfter(q, rest, tail);
    } else {
      BeforeLastHead(q);
      TextLtExtend(q, LAST_HEAD, rest, tail);
    }
  }

  /** A later year that begins with 9999 sorts behind all of years 0-9999. */
  lemma LastHeadSortsRight(a: int, b: int)
    requires InRange(a) && b >= RANGE_END && YearHead(b) == LAST_HEAD
    ensures TextLt(Rfc3339(a), Rfc3339(b))
  {
    YearSign(b);
    YearInRange(a);
    YearInRange(b);
    var ra := YearFirst(a);
    var rb := YearFirst(b);
    HeadAfter(YearText(ToCivil(a).year), ra, YearText(ToCivil(b).year), rb);
  }

  /** Any other later year sorts before year 9999. */
  lemma OtherHeadSortsWrong(a: int, b: int)
    requires InRange(a) && YearHead(a) == LAST_HEAD && b >= RANGE_END && YearHead(b) != LAST_HEAD
    ensures TextLt(Rfc3339(b), Rfc3339(a))
  {
    YearSign(b);
    YearInRange(a);
    YearInRange(b);
    var ra := YearFirst(a);
    var rb := YearFirst(b);
    var y := YearText(ToCivil(a).year);
    assert y == y[..4];
    HeadBefore(YearText(ToCivil(b).year), rb, ra);
  }

  /**
   A second sorts on the right side of every second of years 0-9999 exactly when it lies
   before them, among them, or in a later year whose first four digits are 9999.
   */
  lemma TextOrderExactly(b: int)
    ensures SortsRight(b) <==> b < 0 || InRange(b) || YearHead(b) == LAST_HEAD
  {
    if b < 0 {
      forall a | InRange(a) ensures !TextLe(Rfc3339(a), Rfc3339(b)) {
        NegativeSortsRight(a, b);
        TextLtAsymmetric(Rfc3339(b), Rfc3339(a));
      }
    } else if InRange(b) {
      forall a | InRange(a) ensures TextLe(Rfc3339(a), Rfc3339(b)) <==> a <= b { TextOrderIsTimeOrder(a, b); }
    } else if YearHead(b) == LAST_HEAD {
      forall a | InRange(a) ensures TextLe(Rfc3339(a), Rfc3339(b)) { LastHeadSortsRight(a, b); }
    } else {
      var a := LastYearHead(10000);
      OtherHeadSortsWrong(a, b);
      TextLtAsymmetric(Rfc3339(b), Rfc3339(a));
      assert a <= b && !TextLe(Rfc3339(a), Rfc3339(b));
    }
  }

  // ---------- exactly which texts parse ----------

  lemma TwoReadBack(p: string)
    requires TwoDigits(p)
    ensures 0 <= Number(p) < 100 && p == Pad2(Number(p))
  {
    var n := TwoOf(p);
    NumberPad2(n);
  }

  lemma FourReadBack(p: string)
    requires |p| == 4 && AllDigits(p)
    ensures 0 <= Number(p) < 10000 && p == Pad4(Number(p))
  {
    var n := FourDigits(p);
    NumberPad4(n);
  }

  lemma DateRebuilt(c: Civil, d: string)
    requires c.Valid() && 0 <= c.year <= 9999 && |d| == 10 && d[4] == d[7] == '-'
    requires d[..4] == Pad4(c.year) && d[5..7] == Pad2(c.month) && d[8..10] == Pad2(c.day)
    ensures d == DateText(c)
  {
    assert d == d[..4] + (['-'] + (d[5..7] + (['-'] + d[8..10])));
  }

  lemma ClockRebuilt(c: Civil, k: string)
    requires c.Valid() && |k| == 9 && k[2] == k[5] == ':' && k[8] == 'Z'
    requires k[..2] == Pad2(c.hour) && k[3..5] == Pad2(c.minute) && k[6..8] == Pad2(c.second)
    ensures k == ClockText(c)
  {
    assert k == k[..2] + ([':'] + (k[3..5] + ([':'] + (k[6..8] + ['Z']))));
  }

  lemma SlicesOf(s: string)
    requires |s| == 20
    ensures var d, k := s[..10], s[11..];
            && s == d + [s[10]] + k && d[..4] == s[..4] && d[5..7] == s[5..7] && d[8..10] == s[8..10]
            && k[..2] == s[11..13] && k[3..5] == s[14..16] && k[6..8] == s[17..19]
            && d[4] == s[4] && d[7] == s[7] && k[2] == s[13] && k[5] == s[16] && k[8] == s[19]
  {
  }

  /** The fields that a text of the right shape has. */
  function FieldsIn(s: string): Civil
    requires |s| == 20 && AllDigits(s[..4]) && TwoDigits(s[5..7]) && TwoDigits(s[8..10])
    requires TwoDigits(s[11..13]) && TwoDigits(s[14..16]) && TwoDigits(s[17..19])
  {
    Civil(Number(s[..4]), Number(s[5..7]), Number(s[8..10]), Number(s[11..13]), Number(s[14..16]), Number(s[17..19]))
  }

  /** A text that parses is what its fields are written as. */
  lemma ParsedText(s: string)
    requires ParseSecond(s).Some?
    ensures |s| == 20 && FieldsIn(s).Valid() && 0 <= FieldsIn(s).year <= 9999 && s == CivilText(FieldsIn(s))
    ensures FieldsIn(s).ToSecond() == ParseSecond(s).value
  {
    var c := FieldsIn(s);
    FourReadBack(s[..4]);
    TwoReadBack(s[5..7]);
    TwoReadBack(s[8..10]);
    TwoReadBack(s[11..13]);
    TwoReadBack(s[14..16]);
    TwoReadBack(s[17..19]);
    SlicesOf(s);
    DateRebuilt(c, s[..10]);
    ClockRebuilt(c, s[11..]);
  }

  /** The store reads exactly the texts that it writes for years 0-9999, and each as its second. */
  lemma ParsesExactly(s: string, second: int)
    ensures ParseSecond(s) == Some(second) <==> InRange(second) && s == Rfc3339(second)
  {
    if ParseSecond(s) == Some(second) {
      ParsedText(s);
      CivilUnique(FieldsIn(s), second);
      YearInRange(second);
      Rendered(second);
    }
    ParseFormat(second);
  }

  lemma ParsesStamps(s: string)
    ensures ParseSecond(s).Some? <==> IsStamp(s)
  {
    if ParseSecond(s).Some? {
      ParsesExactly(s, ParseSecond(s).value);
    } else if IsStamp(s) {
      var second := StampSecond(s);
      ParsesExactly(s, second);
    }
  }

  // ---------- exactly which texts read back ----------

  lemma NumberBelow(s: string)
    requires |s| == 4 && AllDigits(s)
    ensures Number(s) < 10000
  {
    var n := FourDigits(s);
    NumberPad4(n);
  }

  /** What parses lies in years 0-9999. */
  lemma ParsedInRange(s: string)
    requires ParseSecond(s).Some?
    ensures InRange(ParseSecond(s).value)
  {
    NumberBelow(s[..4]);
    var c := Civil(Number(s[..4]), Number(s[5..7]), Number(s[8..10]), Number(s[11..13]), Number(s[14..16]),
        Number(s[17..19]));
    CivilInRange(c, 10000);
  }

  lemma CivilInRange(c: Civil, end: int)
    requires c.Valid() && end == 10000 && 0 <= c.year < end
    ensures InRange(c.ToSecond())
  {
    YearBounds(c);
    YearRange(c.year, c.Day(), end);
  }

  /** A text is a stamp exactly when reading it and writing the time again gives the text. */
  lemma StampExactly(s: string)
    ensures IsStamp(s) <==> Format(ParseOrZero(s)) == s
  {
    if IsStamp(s) {
      var second := StampValue(s);
      assert SecondOf(second * NANOS) == second;
    } else if Format(ParseOrZero(s)) == s {
      if ParseSecond(s).Some? { ParsedInRange(s); }
      assert InRange(SecondOf(ParseOrZero(s)));
    }
  }
}
