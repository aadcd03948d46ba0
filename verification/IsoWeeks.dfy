/**
 That `Retention.IsoWeek` is the week of ISO 8601: weeks run from Monday to Sunday, belong to the year of their
 Thursday, and count from the one that holds 4 January (`isocalendar`, as collectors/retention.py uses it).
 */
module IsoWeeks {
  import opened Calendar
  import opened Retention

  lemma DayThree(n: nat)
    ensures (n - n % 7 + 3) % 7 == 3 && (n - n % 7 + 3) / 7 == n / 7
  {
    var w := n / 7;
    assert n - n % 7 + 3 == 7 * w + 3;
  }

  lemma ThursdayOrdinal(d: Date)
    requires Valid(d)
    ensures Ordinal(Thursday(d)) == Ordinal(d) - Ordinal(d) % 7 + 3
  {
    OrdinalOfDate(Ordinal(d) - Ordinal(d) % 7 + 3);
  }

  /** The Thursday of a day's week is a Thursday between the Monday and the Sunday around it. */
  lemma ThursdayIsInWeek(d: Date)
    requires Valid(d)
    ensures Valid(Thursday(d)) && Weekday(Ordinal(Thursday(d))) == 3
    ensures Ordinal(Thursday(d)) / 7 == Ordinal(d) / 7
  {
    ThursdayOrdinal(d);
    DayThree(Ordinal(d));
  }

  /** The days from one Monday to the next Sunday share a week. */
  lemma WeekIsMondayToSunday(a: Date, b: Date)
    requires Valid(a) && Valid(b) && Ordinal(a) / 7 == Ordinal(b) / 7
    ensures IsoWeek(a) == IsoWeek(b)
  {
    var n, m := Ordinal(a), Ordinal(b);
    assert n == 7 * (n / 7) + n % 7 && m == 7 * (m / 7) + m % 7;
    assert n - n % 7 == m - m % 7;
  }

  /** A day's week belongs to the year of its Thursday, and a week later in the same year has the next number. */
  lemma WeeksCountUp(a: Date, b: Date)
    requires Valid(a) && Valid(b) && Ordinal(b) == Ordinal(a) + 7
    ensures IsoWeek(a).year == Thursday(a).year && IsoWeek(b).year == Thursday(b).year
    ensures Thursday(b).year == Thursday(a).year ==> IsoWeek(b).number == IsoWeek(a).number + 1
  {
    ThursdayIsInWeek(a);
    ThursdayIsInWeek(b);
    SevenApart(Ordinal(a), Ordinal(Thursday(a)), Ordinal(Thursday(b)));
    if Thursday(b).year == Thursday(a).year {
      SevenMore(Ordinal(Thursday(a)) - Ordinal(Date(Thursday(a).year, 1, 1)));
    }
  }

  lemma SevenApart(n: nat, t: nat, u: nat)
    requires t % 7 == 3 && t / 7 == n / 7 && u % 7 == 3 && u / 7 == (n + 7) / 7
    ensures u == t + 7
  {
    assert t == 7 * (n / 7) + 3 && u == 7 * ((n + 7) / 7) + 3;
  }

  lemma SevenMore(n: int)
    ensures (n + 7) / 7 == n / 7 + 1
  {
  }

  /** 4 January lies in the first week of its year. */
  lemma FourthOfJanuaryIsInWeekOne(year: nat)
    requires 1 <= year
    ensures IsoWeek(Date(year, 1, 4)) == Week(year, 1)
  {
    var d := Date(year, 1, 4);
    ThursdayIsInWeek(d);
    JanuaryDay(year, 4);
    var k := Ordinal(Thursday(d)) - Ordinal(Date(year, 1, 1));
    NearFourth(Ordinal(d), Ordinal(Thursday(d)));
    JanuaryDay(year, k + 1);
    SameOrdinal(Thursday(d), Date(year, 1, k + 1));
  }

  lemma NearFourth(n: nat, t: nat)
    requires n >= 3 && t % 7 == 3 && t / 7 == n / 7
    ensures n - 3 <= t <= n + 3
  {
    assert t == 7 * (n / 7) + 3 && n == 7 * (n / 7) + n % 7;
  }

  lemma JanuaryDay(year: nat, day: nat)
    requires 1 <= year && 1 <= day <= 31
    ensures Valid(Date(year, 1, day)) && Ordinal(Date(year, 1, day)) == Ordinal(Date(year, 1, 1)) + day - 1
  {
  }

  lemma SameOrdinal(a: Date, b: Date)
    requires Valid(a) && Valid(b) && Ordinal(a) == Ordinal(b)
    ensures a == b
  {
    DateOfOrdinal(a);
    DateOfOrdinal(b);
  }
}
