/**
 The proleptic Gregorian calendar that Python's `datetime` works on.

 A day is a number counted from 0001-01-01, which is day 0 and a Monday.  The calendar is
 defined by walking from one date to the next; `Ordinal` is the closed form `datetime` uses,
 and `OrdinalOfDate` and `DateOfOrdinal` say that the two agree.
 */
module Calendar {

  datatype Date = Date(year: nat, month: nat, day: nat)

  const FIRST := Date(1, 1, 1)

  predicate IsLeap(year: nat) {
    year % 4 == 0 && (year % 100 != 0 || year % 400 == 0)
  }

  function MonthLength(year: nat, month: nat): nat {
    if month == 2 then (if IsLeap(year) then 29 else 28)
    else if month == 4 || month == 6 || month == 9 || month == 11 then 30
    else 31
  }

  predicate Valid(d: Date) {
    1 <= d.year && 1 <= d.month <= 12 && 1 <= d.day <= MonthLength(d.year, d.month)
  }

  function Next(d: Date): Date {
    if d.day < MonthLength(d.year, d.month) then Date(d.year, d.month, d.day + 1)
    else if d.month < 12 then Date(d.year, d.month + 1, 1)
    else Date(d.year + 1, 1, 1)
  }

  function DateOf(n: nat): (d: Date)
    ensures Valid(d)
  {
    if n == 0 then FIRST else Next(DateOf(n - 1))
  }

  /** Monday is 0, as in `datetime.weekday`. */
  function Weekday(n: nat): nat {
    n % 7
  }

  // ------------------------------------------------------------ closed form

  function DaysBeforeYear(year: nat): nat
    requires 1 <= year
  {
    var y := year - 1;
    y * 365 + y / 4 - y / 100 + y / 400
  }

  function DaysBeforeMonth(year: nat, month: nat): nat
    requires 1 <= month <= 12
  {
    if month == 1 then 0 else DaysBeforeMonth(year, month - 1) + MonthLength(year, month - 1)
  }

  function Ordinal(d: Date): nat
    requires Valid(d)
  {
    DaysBeforeYear(d.year) + DaysBeforeMonth(d.year, d.month) + d.day - 1
  }

  lemma YearLength(year: nat)
    requires 1 <= year
    ensures DaysBeforeYear(year + 1) == DaysBeforeYear(year) + (if IsLeap(year) then 366 else 365)
  {
    Quotient4(year);
    Quotient100(year);
    Quotient400(year);
    LeapCenturies(year);
  }

  lemma Quotient4(year: nat)
    requires 1 <= year
    ensures year / 4 == (year - 1) / 4 + if year % 4 == 0 then 1 else 0
  {
  }

  lemma Quotient100(year: nat)
    requires 1 <= year
    ensures year / 100 == (year - 1) / 100 + if year % 100 == 0 then 1 else 0
  {
  }

  lemma Quotient400(year: nat)
    requires 1 <= year
    ensures year / 400 == (year - 1) / 400 + if year % 400 == 0 then 1 else 0
  {
  }

  lemma LeapCenturies(year: nat)
    ensures year % 400 == 0 ==> year % 100 == 0
    ensures year % 100 == 0 ==> year % 4 == 0
  {
    if year % 100 == 0 {
      var q := year / 100;
      assert year == 4 * (25 * q);
    }
    if year % 400 == 0 {
      var q := year / 400;
      assert year == 100 * (4 * q);
    }
  }

  lemma MonthsOfYear(year: nat)
    ensures DaysBeforeMonth(year, 12) + 31 == if IsLeap(year) then 366 else 365
  {
    assert DaysBeforeMonth(year, 4) == 90 + (if IsLeap(year) then 1 else 0) by {
      assert DaysBeforeMonth(year, 2) == 31;
    }
    assert DaysBeforeMonth(year, 8) == DaysBeforeMonth(year, 4) + 122 by {
      assert DaysBeforeMonth(year, 6) == DaysBeforeMonth(year, 4) + 61;
    }
    assert DaysBeforeMonth(year, 10) == DaysBeforeMonth(year, 8) + 61;
  }

  /** Moving to the next date moves the ordinal by exactly one: no day is skipped or repeated. */
  lemma OrdinalOfNext(d: Date)
    requires Valid(d)
    ensures Valid(Next(d)) && Ordinal(Next(d)) == Ordinal(d) + 1
  {
    if d.day == MonthLength(d.year, d.month) && d.month == 12 {
      YearLength(d.year);
      MonthsOfYear(d.year);
    }
  }

  lemma {:induction false} OrdinalOfDate(n: nat)
    ensures Ordinal(DateOf(n)) == n
  {
    if n > 0 {
      OrdinalOfDate(n - 1);
      OrdinalOfNext(DateOf(n - 1));
    }
  }

  function Previous(d: Date): Date
    requires Valid(d) && d != FIRST
  {
    if d.day > 1 then Date(d.year, d.month, d.day - 1)
    else if d.month > 1 then Date(d.year, d.month - 1, MonthLength(d.year, d.month - 1))
    else Date(d.year - 1, 12, 31)
  }

  lemma PreviousThenNext(d: Date)
    requires Valid(d) && d != FIRST
    ensures Valid(Previous(d)) && Next(Previous(d)) == d
  {
  }

  lemma {:induction false} DateOfOrdinal(d: Date)
    requires Valid(d)
    ensures DateOf(Ordinal(d)) == d
    decreases Ordinal(d)
  {
    if d == FIRST {
      assert Ordinal(d) == 0;
    } else {
      var p := Previous(d);
      PreviousThenNext(d);
      OrdinalOfNext(p);
      DateOfOrdinal(p);
    }
  }

  // -------------------------------------------------- every day of the month comes round

  /** Within one month the date of a later day is found by adding to the day of the month. */
  lemma {:induction false} LaterInMonth(n: nat, k: nat)
    requires DateOf(n).day + k <= MonthLength(DateOf(n).year, DateOf(n).month)
    ensures DateOf(n + k) == DateOf(n).(day := DateOf(n).day + k)
    decreases k
  {
    if k > 0 {
      LaterInMonth(n, k - 1);
    }
  }

  /** Any 31 consecutive days contain every day of the month that all months have. */
  lemma DayOfMonthComesRound(n: nat, day: nat) returns (m: nat)
    requires 1 <= day <= 28
    ensures n <= m < n + 31 && DateOf(m).day == day
  {
    var d := DateOf(n);
    var length := MonthLength(d.year, d.month);
    if d.day <= day {
      LaterInMonth(n, day - d.day);
      m := n + (day - d.day);
    } else {
      LaterInMonth(n, length - d.day);
      var first := n + (length - d.day) + 1;
      assert DateOf(first).day == 1;
      LaterInMonth(first, day - 1);
      m := first + (day - 1);
    }
  }
}
