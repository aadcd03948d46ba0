/**
 What the digits of identifiers and time stamps stand for, read back (collectors/decisions.py,
 collectors/build_receipt.py).
 */
module StampFormat {
  import opened Results
  import opened Lexical
  import opened Receipts
  import Calendar

  /** The number a decimal digit stands for. */
  function DigitOf(c: char): int {
    c as int - '0' as int
  }

  /** The number a text of decimal digits stands for. */
  function Reading(s: string): int {
    if s == "" then 0 else 10 * Reading(s[..|s| - 1]) + DigitOf(s[|s| - 1])
  }

  lemma {:induction false} NumeralReads(value: nat, width: nat)
    requires Fits(Decimal, value, width)
    ensures Reading(Dec(value, width)) == value
    decreases width
  {
    if width > 0 {
      var s := Dec(value, width);
      NumeralReads(value / 10, width - 1);
      assert s[..|s| - 1] == Dec(value / 10, width - 1);
      DigitReads(value % 10);
    }
  }

  lemma DigitReads(d: nat)
    requires d < 10
    ensures DigitOf(Decimal.Symbol(d)) == d
  {
  }

  /** A time of day is written as two digits of the hour, of the minute and of the second, and a `Z`. */
  lemma ClockReads(second: nat)
    ensures var c := Clock(second);
            && |c| == 7 && c[6] == 'Z'
            && second % 86400 == 3600 * Reading(c[..2]) + 60 * Reading(c[2..4]) + Reading(c[4..6])
  {
    var h, m, s := second / 3600 % 24, second / 60 % 60, second % 60;
    ClockSlices(Dec(h, 2), Dec(m, 2), Dec(s, 2));
    DecimalFits(h);
    DecimalFits(m);
    DecimalFits(s);
    NumeralReads(h, 2);
    NumeralReads(m, 2);
    NumeralReads(s, 2);
    ClockSum(second);
  }

  lemma ClockSlices(h: string, m: string, s: string)
    requires |h| == |m| == |s| == 2
    ensures var c := h + (m + (s + "Z")); |c| == 7 && c[6] == 'Z' && c[..2] == h && c[2..4] == m && c[4..6] == s
  {
  }

  lemma ClockSum(second: nat)
    ensures second % 86400 == 3600 * (second / 3600 % 24) + 60 * (second / 60 % 60) + second % 60
  {
    var day, r := second / 86400, second % 86400;
    assert second == 86400 * day + r;
    SecondParts(second, day, r / 3600, r % 3600 / 60, r % 60);
  }

  /**
   A compact stamp reads back as its date, four digits of the year and two of the month and of the day, a `T`
   and its time of day.
   */
  lemma CompactReads(second: nat)
    requires FourDigitYear(second)
    ensures var c, d := Compact(second), Calendar.DateOf(second / 86400);
            && |c| == 16 && c[8] == 'T' && c[15] == 'Z'
            && Reading(c[..4]) == d.year && Reading(c[4..6]) == d.month && Reading(c[6..8]) == d.day
            && second % 86400 == 3600 * Reading(c[9..11]) + 60 * Reading(c[11..13]) + Reading(c[13..15])
  {
    var d := Calendar.DateOf(second / 86400);
    StampSlices(Dec(d.year, 4), Dec(d.month, 2), Dec(d.day, 2), Clock(second));
    DecimalFits(d.year);
    DecimalFits(d.month);
    DecimalFits(d.day);
    NumeralReads(d.year, 4);
    NumeralReads(d.month, 2);
    NumeralReads(d.day, 2);
    ClockReads(second);
  }

  lemma StampSlices(y: string, m: string, d: string, clock: string)
    requires |y| == 4 && |m| == |d| == 2 && |clock| == 7
    ensures var c := y + (m + (d + ("T" + clock)));
            && |c| == 16 && c[..4] == y && c[4..6] == m && c[6..8] == d && c[8] == 'T' && c[15] == clock[6]
            && c[9..11] == clock[..2] && c[11..13] == clock[2..4] && c[13..15] == clock[4..6]
  {
  }

  /** Crockford's 32 digits ascend from `0`, and are decimal digits or capital letters but I, L, O and U. */
  lemma CrockfordDigits(i: nat)
    requires i < |CROCKFORD|
    ensures |CROCKFORD| == 32 && (i > 0 ==> CROCKFORD[i - 1] < CROCKFORD[i])
    ensures '0' <= CROCKFORD[i] <= '9' || 'A' <= CROCKFORD[i] <= 'Z'
    ensures CROCKFORD[i] !in {'I', 'L', 'O', 'U'}
  {
  }

  /** The glob matches the names that end in the run and the extension, whatever they begin with. */
  lemma GlobIsSuffix(name: string, run: string)
    ensures GlobMatches(name, run) <==> exists start :: name == start + ("-" + run + ".json")
  {
    var end := "-" + run + ".json";
    if GlobMatches(name, run) {
      assert name == name[..|name| - |end|] + end;
    }
    if start :| name == start + end {
      assert name[|start|..] == end;
    }
  }
}
