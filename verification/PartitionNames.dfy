/** Daily partition names: the civil calendar, the name of a day and the day of a name. */
module PartitionNames {
  import opened Times
  import opened Wrappers

  // ---- The calendar ------------------------------------------------------

  predicate IsLeap(y: int) { y % 4 == 0 && (y % 100 != 0 || y % 400 == 0) }

  function DaysIn(y: int, m: nat): nat
    requires 1 <= m <= 12
  {
    if m == 2 then (if IsLeap(y) then 29 else 28) else if m in {4, 6, 9, 11} then 30 else 31
  }

  function YearLength(y: int): nat { if IsLeap(y) then 366 else 365 }

  datatype Date = Date(year: int, month: nat, day: nat)

  predicate IsDate(d: Date) { 1 <= d.month <= 12 && 1 <= d.day <= DaysIn(d.year, d.month) }

  /** Days from 1 January of year 0 to 1 January of year `y`. */
  function DaysBeforeYear(y: int): int { 365 * y + (y + 3) / 4 - (y + 99) / 100 + (y + 399) / 400 }

  function DaysBeforeMonth(y: int, m: nat): nat
    requires 1 <= m <= 13
  {
    if m == 1 then 0 else DaysBeforeMonth(y, m - 1) + DaysIn(y, m - 1)
  }

  /** A UTC day as a count of days. */
  function DayOf(d: Date): int
    requires IsDate(d)
  {
    DaysBeforeYear(d.year) + DaysBeforeMonth(d.year, d.month) + d.day - 1
  }

  function YearFrom(y: int, day: int): int
    requires DaysBeforeYear(y) <= day
    ensures DaysBeforeYear(YearFrom(y, day)) <= day < DaysBeforeYear(YearFrom(y, day) + 1)
    decreases day - DaysBeforeYear(y)
  {
    NextYear(y);
    if day < DaysBeforeYear(y + 1) then y else YearFrom(y + 1, day)
  }

  function MonthFrom(y: int, m: nat, k: nat): (nat, nat)
    requires 1 <= m <= 12 && k < DaysBeforeMonth(y, 13) - DaysBeforeMonth(y, m)
    ensures var (month, day) := MonthFrom(y, m, k);
      m <= month <= 12 && 1 <= day <= DaysIn(y, month) && DaysBeforeMonth(y, month) + day - 1 == DaysBeforeMonth(y, m) + k
    decreases 12 - m
  {
    if k < DaysIn(y, m) then (m, k + 1)
    else
      assert DaysBeforeMonth(y, m + 1) == DaysBeforeMonth(y, m) + DaysIn(y, m);
      MonthFrom(y, m + 1, k - DaysIn(y, m))
  }

  lemma NextFourth(y: int)
    ensures (y + 4) / 4 == (y + 3) / 4 + if y % 4 == 0 then 1 else 0
  {}

  lemma NextHundredth(y: int)
    ensures (y + 100) / 100 == (y + 99) / 100 + if y % 100 == 0 then 1 else 0
  {}

  lemma NextFourHundredth(y: int)
    ensures (y + 400) / 400 == (y + 399) / 400 + if y % 400 == 0 then 1 else 0
  {}

  lemma CenturiesAreFourths(y: int)
    ensures y % 100 == 0 ==> y % 4 == 0
    ensures y % 400 == 0 ==> y % 100 == 0
  {
    assert y == 100 * (y / 100) + y % 100 == 4 * (25 * (y / 100)) + y % 100;
    assert y == 400 * (y / 400) + y % 400 == 100 * (4 * (y / 400)) + y % 400;
  }

  lemma NextYear(y: int)
    ensures DaysBeforeYear(y + 1) == DaysBeforeYear(y) + YearLength(y)
  {
    NextFourth(y);
    NextHundredth(y);
    NextFourHundredth(y);
    CenturiesAreFourths(y);
  }

  lemma MonthsFillYear(y: int)
    ensures DaysBeforeMonth(y, 13) == YearLength(y)
  {
    assert DaysBeforeMonth(y, 2) == 31;
    assert DaysBeforeMonth(y, 3) == 31 + DaysIn(y, 2);
    assert DaysBeforeMonth(y, 5) == DaysBeforeMonth(y, 3) + 61;
    assert DaysBeforeMonth(y, 7) == DaysBeforeMonth(y, 5) + 61;
    assert DaysBeforeMonth(y, 9) == DaysBeforeMonth(y, 7) + 62;
    assert DaysBeforeMonth(y, 11) == DaysBeforeMonth(y, 9) + 61;
  }

  /** The civil date of a UTC day. */
  function DateOf(day: int): (d: Date)
    ensures IsDate(d) && DayOf(d) == day
  {
    var guess := if day >= 0 then day / 366 - 1 else day / 365 - 1;
    EarlyGuess(day);
    var y := YearFrom(guess, day);
    NextYear(y);
    MonthsFillYear(y);
    var (m, k) := MonthFrom(y, 1, day - DaysBeforeYear(y));
    Date(y, m, k)
  }

  lemma EarlyGuess(day: int)
    ensures DaysBeforeYear(if day >= 0 then day / 366 - 1 else day / 365 - 1) <= day
  {
    if day >= 0 {
      var y := day / 366 - 1;
      assert 366 * (y + 1) <= day;
      assert (y + 3) / 4 <= y + 3 && (y + 399) / 400 - (y + 99) / 100 <= 1;
    } else {
      var y := day / 365 - 1;
      assert 365 * (y + 1) <= day;
      assert y < 0;
      assert (y + 3) / 4 <= (y + 99) / 100 && (y + 399) / 400 <= 0;
    }
  }

  lemma {:induction false} YearsInOrder(a: int, b: int)
    requires a <= b
    ensures DaysBeforeYear(a) <= DaysBeforeYear(b)
    decreases b - a
  {
    if a < b {
      NextYear(a);
      YearsInOrder(a + 1, b);
    }
  }

  lemma {:induction false} MonthsInOrder(y: int, a: nat, b: nat)
    requires 1 <= a <= b <= 13
    ensures DaysBeforeMonth(y, a) <= DaysBeforeMonth(y, b)
    decreases b
  {
    if a < b {
      MonthsInOrder(y, a, b - 1);
    }
  }

  lemma WithinYear(d: Date)
    requires IsDate(d)
    ensures DaysBeforeYear(d.year) <= DayOf(d) < DaysBeforeYear(d.year + 1)
  {
    MonthsInOrder(d.year, d.month + 1, 13);
    MonthsFillYear(d.year);
    NextYear(d.year);
  }

  lemma WithinMonth(d: Date)
    requires IsDate(d)
    ensures DaysBeforeMonth(d.year, d.month) <= DayOf(d) - DaysBeforeYear(d.year) < DaysBeforeMonth(d.year, d.month + 1)
  {}

  predicate Sooner(a: Date, b: Date) {
    a.year < b.year || (a.year == b.year && (a.month < b.month || (a.month == b.month && a.day < b.day)))
  }

  /** Later dates are later days. */
  lemma DaysInOrder(a: Date, b: Date)
    requires IsDate(a) && IsDate(b) && Sooner(a, b)
    ensures DayOf(a) < DayOf(b)
  {
    if a.year < b.year {
      WithinYear(a);
      WithinYear(b);
      YearsInOrder(a.year + 1, b.year);
    } else if a.month < b.month {
      WithinMonth(a);
      WithinMonth(b);
      MonthsInOrder(a.year, a.month + 1, b.month);
    }
  }

  /** Each date is the date of its own day. */
  lemma DatesRoundTrip(d: Date)
    requires IsDate(d)
    ensures DateOf(DayOf(d)) == d
  {
    var e := DateOf(DayOf(d));
    if Sooner(d, e) {
      DaysInOrder(d, e);
    } else if Sooner(e, d) {
      DaysInOrder(e, d);
    }
  }

  /** The date after another, by the lengths of the months and the Gregorian leap days. */
  function DateAfter(d: Date): Date {
    var lengths := [31, 28, 31, 30, 31, 30, 31, 31, 30, 31, 30, 31];
    var leap := d.year % 400 == 0 || (d.year % 4 == 0 && d.year % 100 != 0);
    if !(1 <= d.month <= 12) then d
    else if d.day < lengths[d.month - 1] + (if d.month == 2 && leap then 1 else 0) then Date(d.year, d.month, d.day + 1)
    else if d.month < 12 then Date(d.year, d.month + 1, 1)
    else Date(d.year + 1, 1, 1)
  }

  lemma MonthLengths(y: int, m: nat)
    requires 1 <= m <= 12
    ensures DaysIn(y, m) == [31, 28, 31, 30, 31, 30, 31, 31, 30, 31, 30, 31][m - 1]
                            + if m == 2 && (y % 400 == 0 || (y % 4 == 0 && y % 100 != 0)) then 1 else 0
  {
    CenturiesAreFourths(y);
  }

  /** Days count on date by date, and the Unix epoch is the first of January 1970. */
  lemma DaysCountOn(d: Date)
    requires IsDate(d)
    ensures IsDate(DateAfter(d)) && DayOf(DateAfter(d)) == DayOf(d) + 1
    ensures DayOf(Date(1970, 1, 1)) == 719528
  {
    MonthLengths(d.year, d.month);
    if d.day == DaysIn(d.year, d.month) {
      if d.month < 12 {
        assert DaysBeforeMonth(d.year, d.month + 1) == DaysBeforeMonth(d.year, d.month) + d.day;
      } else {
        NextYear(d.year);
        MonthsFillYear(d.year);
        assert DaysBeforeMonth(d.year, 13) == DaysBeforeMonth(d.year, 12) + d.day;
      }
    }
  }

  lemma YearsOfDays(day: int, y: int)
    requires DaysBeforeYear(y) <= day < DaysBeforeYear(y + 1)
    ensures 0 <= day < 3652425 <==> 0 <= y <= 9999
  {
    assert DaysBeforeYear(0) == 0 && DaysBeforeYear(10000) == 3652425;
    if y < 0 { YearsInOrder(y + 1, 0); } else { YearsInOrder(0, y); }
    if y <= 9999 { YearsInOrder(y + 1, 10000); } else { YearsInOrder(10000, y); }
  }

  lemma WritableDays(t: int)
    ensures InFourDigitYears(t) <==> 0 <= t / DAY < 3652425
  {}

  lemma YearWritable(day: int)
    ensures 0 <= day < 3652425 <==> 0 <= DateOf(day).year <= 9999
  {
    WithinYear(DateOf(day));
    YearsOfDays(day, DateOf(day).year);
  }

  /** The years four digits can write are 0 to 9999. */
  lemma FourDigitYears(t: int)
    ensures InFourDigitYears(t) <==> 0 <= DateOf(t / DAY).year <= 9999
  {
    WritableDays(t);
    YearWritable(t / DAY);
  }

  /** The zero time begins year 1. */
  lemma ZeroTimeBeginsYearOne()
    ensures DayBounds(ZERO_TIME).0 == ZERO_TIME && ZERO_TIME / DAY == DayOf(Date(1, 1, 1))
  {
    assert DaysBeforeYear(1) == 366;
  }

  // ---- Digits ------------------------------------------------------------

  function Digit(n: nat): char
    requires n < 10
  {
    ('0' as int + n) as char
  }

  predicate IsDigit(c: char) { '0' <= c <= '9' }

  predicate AllDigits(s: string) { forall i :: 0 <= i < |s| ==> IsDigit(s[i]) }

  /** Decimal digits, padded with zeros to a width. */
  function Decimal(n: nat, width: nat): (s: string)
    ensures s != ""
    decreases n, width
  {
    if n < 10 then Zeros(if width <= 1 then 0 else width - 1) + [Digit(n)]
    else Decimal(n / 10, if width == 0 then 0 else width - 1) + [Digit(n % 10)]
  }

  function Zeros(n: nat): (s: string)
    ensures |s| == n && forall i :: 0 <= i < n ==> s[i] == '0'
  {
    if n == 0 then "" else "0" + Zeros(n - 1)
  }

  function Number(s: string): nat
    requires AllDigits(s)
  {
    if s == "" then 0 else 10 * Number(s[..|s| - 1]) + (s[|s| - 1] as int - '0' as int)
  }

  lemma {:induction false} ZerosAreZero(n: nat)
    ensures Number(Zeros(n)) == 0
  {
    if n == 0 {
    } else {
      assert Zeros(n)[..n - 1] == Zeros(n - 1);
      ZerosAreZero(n - 1);
    }
  }

  lemma OneMoreDigit(s: string, d: nat)
    requires AllDigits(s) && d < 10
    ensures AllDigits(s + [Digit(d)]) && Number(s + [Digit(d)]) == 10 * Number(s) + d
  {
    assert (s + [Digit(d)])[..|s|] == s;
  }

  lemma {:induction false} DecimalReads(n: nat, width: nat)
    ensures AllDigits(Decimal(n, width)) && Number(Decimal(n, width)) == n
    decreases n, width
  {
    if n < 10 {
      var zeros := Zeros(if width <= 1 then 0 else width - 1);
      ZerosAreZero(|zeros|);
      OneMoreDigit(zeros, n);
    } else {
      var w := if width == 0 then 0 else width - 1;
      DecimalReads(n / 10, w);
      OneMoreDigit(Decimal(n / 10, w), n % 10);
    }
  }

  function Pow10(n: nat): (p: nat)
    ensures p >= 1
  {
    if n == 0 then 1 else 10 * Pow10(n - 1)
  }

  /** Padding reaches the width exactly for numbers that fit it. */
  lemma {:induction false} DecimalWidth(n: nat, width: nat)
    requires width >= 1
    ensures n < Pow10(width) ==> |Decimal(n, width)| == width
    ensures n >= Pow10(width) ==> |Decimal(n, width)| > width
    decreases n
  {
    assert Pow10(width) == 10 * Pow10(width - 1);
    if n >= 10 && width >= 2 {
      DecimalWidth(n / 10, width - 1);
    }
  }

  lemma DecimalStep(n: nat, d: nat, width: nat)
    requires d < 10 && width >= 2
    ensures Decimal(10 * n + d, width) == Decimal(n, width - 1) + [Digit(d)]
  {
    if n == 0 {
      assert Zeros(width - 2) + ['0'] == Zeros(width - 1);
    } else {
      assert (10 * n + d) / 10 == n && (10 * n + d) % 10 == d;
    }
  }

  lemma LastDigit(s: string) returns (front: string, d: nat)
    requires AllDigits(s) && s != ""
    ensures d < 10 && AllDigits(front) && s == front + [Digit(d)] && Number(s) == 10 * Number(front) + d
  {
    front, d := s[..|s| - 1], s[|s| - 1] as int - '0' as int;
    assert IsDigit(s[|s| - 1]) && Digit(d) == s[|s| - 1];
    assert forall i :: 0 <= i < |front| ==> front[i] == s[i];
  }

  /** Digits are determined by the number they spell and how many there are. */
  lemma {:induction false} SameDigits(s: string, width: nat)
    requires AllDigits(s) && |s| == width >= 1
    ensures Decimal(Number(s), width) == s
    decreases width
  {
    var front, d := LastDigit(s);
    if width == 1 {
      assert front == "" && Zeros(0) + [Digit(d)] == s;
    } else {
      SameDigits(front, width - 1);
      DecimalStep(Number(front), d, width);
    }
  }

  // ---- Names -------------------------------------------------------------

  const PARTITION_PREFIX := "telemetry_events_"
  const DEFAULT_PARTITION := "telemetry_events_default"

  /** A year written four digits wide at least, with a sign when it is negative. */
  function YearText(y: int): string { if y < 0 then "-" + Decimal(-y, 4) else Decimal(y, 4) }

  /** The day as YYYYMMDD. */
  function DayText(d: Date): string { YearText(d.year) + Decimal(d.month, 2) + Decimal(d.day, 2) }

  function PartitionName(day: int): string { PARTITION_PREFIX + DayText(DateOf(day)) }

  /** Reads YYYYMMDD: eight digits naming a date that exists. */
  function ParseDay(s: string): Option<int> {
    if |s| != 8 || !AllDigits(s) then None
    else
      var d := Date(Number(s[..4]), Number(s[4..6]), Number(s[6..]));
      if IsDate(d) then Some(DayOf(d)) else None
  }

  function PartitionDay(name: string): Option<int> {
    if |name| != |PARTITION_PREFIX| + 8 then None
    else if name[..|PARTITION_PREFIX|] != PARTITION_PREFIX then None
    else ParseDay(name[|PARTITION_PREFIX|..])
  }

  lemma MonthAndDayFit(d: Date)
    requires IsDate(d)
    ensures |Decimal(d.month, 2)| == 2 && |Decimal(d.day, 2)| == 2
  {
    assert Pow10(2) == 100 by { assert Pow10(1) == 10; }
    DecimalWidth(d.month, 2);
    DecimalWidth(d.day, 2);
  }

  lemma FourDigits(n: nat)
    ensures n < 10000 ==> |Decimal(n, 4)| == 4
    ensures n >= 10000 ==> |Decimal(n, 4)| > 4
  {
    assert Pow10(2) == 100;
    assert Pow10(4) == 10000;
    DecimalWidth(n, 4);
  }

  lemma YearFits(y: int)
    ensures |YearText(y)| == 4 <==> 0 <= y <= 9999
    ensures 0 <= y ==> AllDigits(YearText(y)) && Number(YearText(y)) == y
  {
    FourDigits(if y < 0 then -y else y);
    if y >= 0 {
      DecimalReads(y, 4);
    }
  }

  /** The name of a day leads back to it exactly for the years four digits can write. */
  lemma NamesRoundTrip(day: int)
    ensures PartitionDay(PartitionName(day)) == Some(day) <==> 0 <= DateOf(day).year <= 9999
    ensures !(0 <= DateOf(day).year <= 9999) ==> PartitionDay(PartitionName(day)) == None
  {
    var d := DateOf(day);
    var text, name := DayText(d), PartitionName(day);
    MonthAndDayFit(d);
    YearFits(d.year);
    assert name[..|PARTITION_PREFIX|] == PARTITION_PREFIX && name[|PARTITION_PREFIX|..] == text;
    if 0 <= d.year <= 9999 {
      DecimalReads(d.month, 2);
      DecimalReads(d.day, 2);
      assert text[..4] == YearText(d.year) && text[4..6] == Decimal(d.month, 2) && text[6..] == Decimal(d.day, 2);
      assert Date(Number(text[..4]), Number(text[4..6]), Number(text[6..])) == d;
    }
  }

  /** Four digits are how their number is written as a year. */
  lemma YearReads(s: string)
    requires AllDigits(s) && |s| == 4
    ensures 0 <= Number(s) <= 9999 && YearText(Number(s)) == s
  {
    SameDigits(s, 4);
    YearFits(Number(s));
  }

  lemma ReadText(text: string)
    requires |text| == 8 && AllDigits(text)
    ensures var d := Date(Number(text[..4]), Number(text[4..6]), Number(text[6..]));
      DayText(d) == text && 0 <= d.year <= 9999
  {
    YearReads(text[..4]);
    SameDigits(text[4..6], 2);
    SameDigits(text[6..], 2);
    assert text == text[..4] + text[4..6] + text[6..];
  }

  lemma ParsedDay(text: string)
    requires ParseDay(text).Some?
    ensures var d := DateOf(ParseDay(text).value); DayText(d) == text && 0 <= d.year <= 9999
  {
    ReadText(text);
    DatesRoundTrip(Date(Number(text[..4]), Number(text[4..6]), Number(text[6..])));
  }

  /** Any name taken for a daily partition is the name of the day returned. */
  lemma AcceptedNameIsTheDaysName(name: string)
    requires PartitionDay(name).Some?
    ensures PartitionName(PartitionDay(name).value) == name
    ensures 0 <= DateOf(PartitionDay(name).value).year <= 9999
  {
    ParsedDay(name[|PARTITION_PREFIX|..]);
    assert name == name[..|PARTITION_PREFIX|] + name[|PARTITION_PREFIX|..];
  }

  /** Different days have different names, whatever their years. */
  lemma NamesDiffer(a: int, b: int)
    ensures PartitionName(a) == PartitionName(b) ==> a == b
  {
    if PartitionName(a) == PartitionName(b) {
      var d, e := DateOf(a), DateOf(b);
      MonthAndDayFit(d);
      MonthAndDayFit(e);
      assert DayText(d) == PartitionName(a)[|PARTITION_PREFIX|..] == PartitionName(b)[|PARTITION_PREFIX|..] == DayText(e);
      Ends(YearText(d.year), Decimal(d.month, 2), Decimal(d.day, 2), YearText(e.year), Decimal(e.month, 2), Decimal(e.day, 2));
      DecimalReads(d.month, 2);
      DecimalReads(e.month, 2);
      DecimalReads(d.day, 2);
      DecimalReads(e.day, 2);
      YearsDiffer(d.year, e.year);
    }
  }

  lemma Ends(a: string, b: string, c: string, x: string, y: string, z: string)
    requires |b| == |y| && |c| == |z| && a + b + c == x + y + z
    ensures a == x && b == y && c == z
  {
    var s := a + b + c;
    assert a == s[..|a|] && b == s[|a|..|a| + |b|] && c == s[|a| + |b|..];
    assert x == s[..|a|] && y == s[|a|..|a| + |b|] && z == s[|a| + |b|..];
  }

  lemma YearsDiffer(a: int, b: int)
    requires YearText(a) == YearText(b)
    ensures a == b
  {
    var m, n := if a < 0 then -a else a, if b < 0 then -b else b;
    DecimalReads(m, 4);
    DecimalReads(n, 4);
    DecimalWidth(m, 4);
    DecimalWidth(n, 4);
    assert IsDigit(Decimal(m, 4)[0]) && IsDigit(Decimal(n, 4)[0]);
    if a < 0 {
      assert YearText(a)[0] == '-' && YearText(a)[1..] == Decimal(m, 4);
      assert b < 0;
      assert YearText(b)[1..] == Decimal(n, 4);
    } else {
      assert YearText(a) == Decimal(m, 4);
      assert b >= 0;
    }
  }

  /** The default partition has no day. */
  lemma DefaultHasNoDay()
    ensures PartitionDay(DEFAULT_PARTITION) == None
  {
    assert DEFAULT_PARTITION[|PARTITION_PREFIX|..] == "default";
  }

  // ---- Bounds ------------------------------------------------------------

  /** The instants a day's partition holds: from the lower bound up to, not including, the upper. */
  function DayBounds(t: int): (int, int) {
    var lower := t / DAY * DAY;
    (lower, lower + DAY)
  }

  /** A moment's day is the one whose span it lies in. */
  lemma DayHolds(t: int, day: int)
    ensures t / DAY == day <==> day * DAY <= t < day * DAY + DAY
  {
    var q := t / DAY;
    assert q * DAY <= t < q * DAY + DAY;
    if q < day {
      assert q * DAY + DAY <= day * DAY;
    } else if day < q {
      assert day * DAY + DAY <= q * DAY;
    }
  }

  /** The bounds of the day of `t` hold exactly the instants of that day, and the next
      day's begin where they end. */
  lemma BoundsTile(t: int, u: int)
    ensures var (lower, upper) := DayBounds(t);
      && lower <= t < upper
      && (lower <= u < upper <==> u / DAY == t / DAY)
      && DayBounds(upper) == (upper, upper + DAY)
      && upper / DAY == t / DAY + 1
  {
    var day := t / DAY;
    DayHolds(t, day);
    DayHolds(u, day);
    DayHolds((day + 1) * DAY, day + 1);
    assert DayBounds(t) == (day * DAY, (day + 1) * DAY);
  }
}
