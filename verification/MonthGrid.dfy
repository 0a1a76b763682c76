/** The month grid of frontend/src/features/orders/ArrivalPage.tsx, with the dates of section 21.4.1 of ECMA-262. */
module MonthGrid {
  import opened Wrappers
  import Decimal

  // ---------- dates ----------

  predicate LeapYear(y: int) {
    y % 4 == 0 && (y % 100 != 0 || y % 400 == 0)
  }

  function DaysInYear(y: int): int {
    if LeapYear(y) then 366 else 365
  }

  /** The number of the first day of a year; day 0 is 1 January 1970. */
  function DayFromYear(y: int): int {
    365 * (y - 1970) + (y - 1969) / 4 - (y - 1901) / 100 + (y - 1601) / 400
  }

  /** The number within its year of the first day of a month. */
  function DayWithinYear(month: nat, leap: bool): int
    requires month < 12
  {
    var l := if leap then 1 else 0;
    [0, 31, 59 + l, 90 + l, 120 + l, 151 + l, 181 + l, 212 + l, 243 + l, 273 + l, 304 + l, 334 + l][month]
  }

  /** Months may run over the year; the day may be any number. */
  function MakeDay(year: int, month: int, date: int): int {
    var y, m := year + month / 12, month % 12;
    DayFromYear(y) + DayWithinYear(m, LeapYear(y)) + date - 1
  }

  /** 0 is Sunday. */
  function WeekDay(day: int): int {
    (day + 4) % 7
  }

  /** The date in its month of the day before the first of the next month. */
  function DaysInMonth(year: int, month: nat): int
    requires month < 12
  {
    MakeDay(year, month + 1, 0) - MakeDay(year, month, 1) + 1
  }

  /** Consecutive years are as far apart as the first one is long, over all leap-year rules. */
  lemma YearsAdjoin(y: int)
    ensures DayFromYear(y + 1) == DayFromYear(y) + DaysInYear(y)
  {
    QuotientSteps(y - 1969, 4);
    QuotientSteps(y - 1901, 100);
    QuotientSteps(y - 1601, 400);
    Shifted(y, 4, 492);
    Shifted(y, 100, 19);
    Shifted(y, 400, 4);
    Multiples(y);
  }

  lemma Shifted(y: int, m: nat, k: nat)
    requires m > 0
    ensures (y - m * k) % m == y % m
  {
    assert y - m * k == (y / m - k) * m + y % m;
    Quotient(y - m * k, m, y / m - k, y % m);
  }

  lemma Multiples(y: int)
    ensures y % 400 == 0 ==> y % 100 == 0
    ensures y % 100 == 0 ==> y % 4 == 0
  {
  }

  lemma QuotientSteps(x: int, m: nat)
    requires m > 0
    ensures (x + 1) / m - x / m == if (x + 1) % m == 0 then 1 else 0
  {
    var q, r := x / m, x % m;
    assert x + 1 == q * m + (r + 1);
    if r + 1 == m {
      assert x + 1 == (q + 1) * m;
      Quotient(x + 1, m, q + 1, 0);
    } else {
      Quotient(x + 1, m, q, r + 1);
    }
  }

  lemma Quotient(x: int, m: nat, q: int, r: nat)
    requires r < m && x == q * m + r
    ensures x / m == q && x % m == r
  {
    var d := x / m - q;
    assert d * m == r - x % m;
    assert d >= 1 ==> d * m >= m;
    assert d <= -1 ==> d * m <= -1 * m;
  }

  /** The days of a month within its year; the year runs on from December. */
  lemma MonthWithinYear(year: int, month: nat)
    requires month < 12
    ensures DaysInMonth(year, month) ==
            (if month == 11 then DaysInYear(year) else DayWithinYear(month + 1, LeapYear(year)))
            - DayWithinYear(month, LeapYear(year))
  {
    InYear(year, month, 1);
    if month == 11 {
      YearsAdjoin(year);
      Overrun(year);
    } else {
      InYear(year, month + 1, 0);
    }
  }

  lemma InYear(year: int, month: nat, date: int)
    requires month < 12
    ensures MakeDay(year, month, date) == DayFromYear(year) + DayWithinYear(month, LeapYear(year)) + date - 1
  {
  }

  lemma Overrun(year: int)
    ensures MakeDay(year, 12, 0) == DayFromYear(year + 1) - 1
  {
    assert 12 / 12 == 1 && 12 % 12 == 0;
  }

  function DaysOf(month: nat, leap: bool): (n: int)
    requires month < 12
    ensures 28 <= n <= 31
  {
    if month == 1 then (if leap then 29 else 28)
    else if month == 3 || month == 5 || month == 8 || month == 10 then 30 else 31
  }

  /** The lengths of the months, with February by the leap-year rule. */
  lemma MonthLengths(year: int, month: nat)
    requires month < 12
    ensures DaysInMonth(year, month) == DaysOf(month, LeapYear(year))
  {
    MonthWithinYear(year, month);
    MonthGaps(month, LeapYear(year));
  }

  lemma MonthGaps(month: nat, leap: bool)
    requires month < 12
    ensures DaysOf(month, leap) ==
            (if month == 11 then (if leap then 366 else 365) else DayWithinYear(month + 1, leap)) - DayWithinYear(month, leap)
  {
  }

  // ---------- the grid ----------

  datatype Cell = Blank | Day(date: string)

  function Pad2(n: nat): string {
    var s := Decimal.OfNat(n);
    if |s| < 2 then "0" + s else s
  }

  function DateText(monthKey: string, day: nat): string {
    monthKey + "-" + Pad2(day)
  }

  /** Blanks up to the first day, the days in order, and blanks to the end of the week. */
  predicate Filled(cells: seq<Cell>, monthKey: string, offset: nat, days: nat) {
    && |cells| % 7 == 0 && offset + days <= |cells| < offset + days + 7
    && forall i :: 0 <= i < |cells| ==> cells[i] == Expected(monthKey, offset, days, i)
  }

  function Expected(monthKey: string, offset: nat, days: nat, i: int): Cell {
    if offset <= i < offset + days then Day(DateText(monthKey, i - offset + 1)) else Blank
  }

  /** The Date constructor takes the years 0 to 99 as those of the twentieth century. */
  function FullYear(year: nat): nat {
    if year <= 99 then 1900 + year else year
  }

  /** getDay of the first of the month. */
  function StartOffset(year: nat, month: nat): nat
    requires month < 12
  {
    WeekDay(MakeDay(FullYear(year), month, 1))
  }

  /** getDate of day zero of the next month. */
  function MonthLength(year: nat, month: nat): nat
    requires month < 12
  {
    DaysOf(month, LeapYear(FullYear(year)))
  }

  /**
   * Each day of the month once, in order, each in the column of its weekday; blanks elsewhere, and whole weeks.
   */
  method BuildMonthGrid(monthKey: string, year: nat, month: nat) returns (cells: seq<Cell>)
    requires month < 12
    ensures var offset, days := StartOffset(year, month), MonthLength(year, month);
            && Filled(cells, monthKey, offset, days)
            && (forall i :: offset <= i < offset + days ==>
                  i % 7 == WeekDay(MakeDay(FullYear(year), month, i - offset + 1)))
  {
    var full := FullYear(year);
    var startOffset := WeekDay(MakeDay(full, month, 1));
    var daysInMonth := DaysInMonth(full, month);
    MonthLengths(full, month);
    cells := FillGrid(monthKey, startOffset, daysInMonth);
    forall i | startOffset <= i < startOffset + daysInMonth
      ensures i % 7 == WeekDay(MakeDay(full, month, i - startOffset + 1))
    {
      DaysFollow(full, month, i - startOffset);
      ColumnIsWeekday(MakeDay(full, month, 1), i - startOffset);
    }
  }

  lemma DaysFollow(year: int, month: nat, k: int)
    ensures MakeDay(year, month, k + 1) == MakeDay(year, month, 1) + k
  {
  }

  method FillGrid(monthKey: string, startOffset: nat, daysInMonth: nat) returns (cells: seq<Cell>)
    ensures Filled(cells, monthKey, startOffset, daysInMonth)
  {
    cells := [];
    for index := 0 to startOffset
      invariant |cells| == index
      invariant forall i :: 0 <= i < |cells| ==> cells[i] == Blank
    {
      cells := cells + [Blank];
    }
    var day := 1;
    while day <= daysInMonth
      invariant 1 <= day <= daysInMonth + 1 && |cells| == startOffset + day - 1
      invariant forall i :: 0 <= i < |cells| ==> cells[i] == Expected(monthKey, startOffset, daysInMonth, i)
    {
      cells := cells + [Day(DateText(monthKey, day))];
      day := day + 1;
    }
    ghost var full := |cells|;
    while |cells| % 7 != 0
      invariant full <= |cells| <= full + (6 - (full + 6) % 7)
      invariant forall i :: 0 <= i < |cells| ==> cells[i] == Expected(monthKey, startOffset, daysInMonth, i)
      decreases full + 7 - |cells|
    {
      cells := cells + [Blank];
    }
  }

  lemma ColumnIsWeekday(first: int, k: int)
    ensures (WeekDay(first) + k) % 7 == WeekDay(first + k)
  {
  }

  /**
   * The next month's grid starts where this one's last day left off, also over the turn of the year, except at
   * the end of year 99: the Date constructor reads it as 1999, and the year after it as 100.
   */
  lemma NextMonthOffset(year: nat, month: nat)
    requires month < 12
    ensures var nextYear, nextMonth := if month == 11 then year + 1 else year, if month == 11 then 0 else month + 1;
            StartOffset(nextYear, nextMonth) == (StartOffset(year, month) + MonthLength(year, month)) % 7
            <==> !(month == 11 && year == 99)
  {
    if month == 11 && year == 99 {
      YearsApart();
    } else {
      NextOffset(FullYear(year), month);
    }
  }

  lemma NextOffset(year: int, month: nat)
    requires month < 12
    ensures var nextYear, nextMonth := if month == 11 then year + 1 else year, if month == 11 then 0 else month + 1;
            WeekDay(MakeDay(nextYear, nextMonth, 1)) == (WeekDay(MakeDay(year, month, 1)) + DaysOf(month, LeapYear(year))) % 7
  {
    NextMonthFirst(year, month);
    MonthLengths(year, month);
    ColumnIsWeekday(MakeDay(year, month, 1), DaysInMonth(year, month));
  }

  lemma YearsApart()
    ensures StartOffset(100, 0) == 5 && (StartOffset(99, 11) + MonthLength(99, 11)) % 7 == 6
  {
    InYear(100, 0, 1);
    InYear(1999, 11, 1);
    assert DayFromYear(100) == -683003 && DayFromYear(1999) == 10592;
  }

  lemma NextMonthFirst(year: int, month: nat)
    requires month < 12
    ensures var nextYear, nextMonth := if month == 11 then year + 1 else year, if month == 11 then 0 else month + 1;
            MakeDay(nextYear, nextMonth, 1) == MakeDay(year, month, 1) + DaysInMonth(year, month)
  {
    if month == 11 {
      Overrun(year);
      InYear(year + 1, 0, 1);
    }
  }

  lemma Pad2Injective(m: nat, n: nat)
    requires 1 <= m <= 31 && 1 <= n <= 31 && Pad2(m) == Pad2(n)
    ensures m == n
  {
    if |Decimal.OfNat(m)| >= 2 && |Decimal.OfNat(n)| >= 2 {
      Decimal.OfNatInjective(m, n);
    } else if |Decimal.OfNat(m)| < 2 && |Decimal.OfNat(n)| < 2 {
      assert Pad2(m)[1..] == Decimal.OfNat(m) && Pad2(n)[1..] == Decimal.OfNat(n);
      Decimal.OfNatInjective(m, n);
    } else {
      Decimal.NoLeadingZero(if |Decimal.OfNat(m)| < 2 then n else m);
    }
  }

  /** The date of a day is the month's key, a hyphen, and two digits that read as the day. */
  lemma DateReads(monthKey: string, day: nat)
    requires 1 <= day <= 31
    ensures var n, text := |monthKey|, DateText(monthKey, day);
            && |text| == n + 3 && text[..n] == monthKey && text[n] == '-'
            && Decimal.ReadInt(text[n + 1..]) == Some(day)
  {
    var text := DateText(monthKey, day);
    Pad2Reads(day);
    assert text == monthKey + "-" + Pad2(day);
    assert text[|monthKey| + 1..] == Pad2(day);
  }

  lemma Pad2Reads(day: nat)
    requires 1 <= day <= 31
    ensures |Pad2(day)| == 2 && Decimal.ReadInt(Pad2(day)) == Some(day)
  {
    var s := Decimal.OfNat(day);
    Decimal.OfIntReads(day);
    if day < 10 {
      Decimal.ZeroInFront(s);
    } else {
      assert day / 10 < 10 && |Decimal.OfNat(day / 10)| == 1;
      assert Decimal.AllDigits(s);
    }
  }

  /** Day 0 was a Thursday, the years 0 to 99 of the Date constructor lie in the twentieth century. */
  lemma Anchors(year: nat)
    ensures MakeDay(year, 0, 1) == DayFromYear(year) && DayFromYear(1970) == 0 && WeekDay(0) == 4
    ensures FullYear(year) == if year <= 99 then 19 * 100 + year else year
  {
    NewYear(year);
  }

  lemma NewYear(year: int)
    ensures MakeDay(year, 0, 1) == DayFromYear(year)
  {
    FirstOfYear(LeapYear(year));
  }

  lemma FirstOfYear(leap: bool)
    ensures DayWithinYear(0, leap) == 0
  {
  }

  /** No date text occurs twice. */
  lemma DatesDistinct(monthKey: string, m: nat, n: nat)
    requires 1 <= m <= 31 && 1 <= n <= 31 && DateText(monthKey, m) == DateText(monthKey, n)
    ensures m == n
  {
    var p := |monthKey| + 1;
    assert DateText(monthKey, m)[p..] == Pad2(m) && DateText(monthKey, n)[p..] == Pad2(n);
    Pad2Injective(m, n);
  }
}
