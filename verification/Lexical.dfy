/**
 The order of strings, and why identifiers and file names sort by time: fixed-width numerals over
 an increasing alphabet compare as the numbers they denote (`_b32`, `ulid` in
 collectors/decisions.py; `_compact` in collectors/build_receipt.py).
 */
module Lexical {
  import Calendar

  predicate Less(a: string, b: string) {
    b != [] && (a == [] || a[0] < b[0] || (a[0] == b[0] && Less(a[1..], b[1..])))
  }

  lemma {:induction false} LessTotal(a: string, b: string)
    ensures a != b ==> Less(a, b) || Less(b, a)
    ensures !(Less(a, b) && Less(b, a))
    ensures !Less(a, a)
  {
    if a != [] && b != [] && a[0] == b[0] {
      LessTotal(a[1..], b[1..]);
      assert a == [a[0]] + a[1..] && b == [b[0]] + b[1..];
    }
    if a != [] {
      LessTotal(a[1..], a[1..]);
    }
  }

  lemma {:induction false} LessTransitive(a: string, b: string, c: string)
    requires Less(a, b) && Less(b, c)
    ensures Less(a, c)
  {
    if a != [] && a[0] == b[0] == c[0] {
      LessTransitive(a[1..], b[1..], c[1..]);
    }
  }

  /** Prefixes of equal length decide, and if they are equal the rest does. */
  lemma {:induction false} PrefixDecides(a: string, x: string, b: string, y: string)
    requires |a| == |b|
    ensures Less(a + x, b + y) <==> Less(a, b) || (a == b && Less(x, y))
  {
    if a == [] {
      assert a + x == x && b + y == y;
    } else {
      PrefixDecides(a[1..], x, b[1..], y);
      assert (a + x)[1..] == a[1..] + x && (b + y)[1..] == b[1..] + y;
      assert a == [a[0]] + a[1..] && b == [b[0]] + b[1..];
    }
  }

  // ------------------------------------------------------------------- numerals

  const CROCKFORD := "0123456789ABCDEFGHJKMNPQRSTVWXYZ"
  const DECIMAL := "0123456789"

  datatype Radix = Decimal | Crockford {
    function Size(): nat {
      match this case Decimal => 10 case Crockford => 32
    }

    function Quotient(value: nat): nat {
      match this case Decimal => value / 10 case Crockford => value / 32
    }

    function Digit(value: nat): (d: nat)
      ensures d < Size()
    {
      match this case Decimal => value % 10 case Crockford => value % 32
    }

    function Symbol(d: nat): char
      requires d < Size()
    {
      match this case Decimal => DECIMAL[d] case Crockford => CROCKFORD[d]
    }
  }

  lemma SymbolsIncrease(b: Radix, d: nat, e: nat)
    requires d < b.Size() && e < b.Size()
    ensures b.Symbol(d) < b.Symbol(e) <==> d < e
  {
    var s := CROCKFORD;
    assert forall i :: 0 <= i < 31 ==> s[i] < s[i + 1];
    Ascending(s, d, e);
    Ascending(s, e, d);
    assert forall i :: 0 <= i < 10 ==> DECIMAL[i] == s[i];
  }

  lemma {:induction false} Ascending(s: string, i: nat, j: nat)
    requires i < |s| && j < |s| && forall k :: 0 <= k < |s| - 1 ==> s[k] < s[k + 1]
    ensures i < j ==> s[i] < s[j]
    decreases j
  {
    if i < j {
      assert s[j - 1] < s[j - 1 + 1];
      Ascending(s, i, j - 1);
    }
  }

  function Numeral(b: Radix, value: nat, width: nat): (s: string)
    ensures |s| == width
  {
    if width == 0 then "" else Numeral(b, b.Quotient(value), width - 1) + [b.Symbol(b.Digit(value))]
  }

  /** `value` can be written with `width` digits. */
  predicate Fits(b: Radix, value: nat, width: nat) {
    if width == 0 then value == 0 else Fits(b, b.Quotient(value), width - 1)
  }

  lemma DivisionOrder(b: Radix, v: nat, w: nat)
    ensures v < w <==> b.Quotient(v) < b.Quotient(w) || (b.Quotient(v) == b.Quotient(w) && b.Digit(v) < b.Digit(w))
  {
  }

  lemma SnocEqual(a: string, c: char, b: string, d: char)
    requires |a| == |b|
    ensures a + [c] == b + [d] <==> a == b && c == d
  {
    if a + [c] == b + [d] {
      assert a == (a + [c])[..|a|] && b == (b + [d])[..|b|];
      assert (a + [c])[|a|] == c && (b + [d])[|b|] == d;
    }
  }

  lemma LastDigit(b: Radix, hi: string, d: nat, hi': string, e: nat)
    requires |hi| == |hi'| && d < b.Size() && e < b.Size()
    ensures Less(hi + [b.Symbol(d)], hi' + [b.Symbol(e)]) <==> Less(hi, hi') || (hi == hi' && d < e)
    ensures hi + [b.Symbol(d)] == hi' + [b.Symbol(e)] <==> hi == hi' && d == e
  {
    PrefixDecides(hi, [b.Symbol(d)], hi', [b.Symbol(e)]);
    SymbolsIncrease(b, d, e);
    SymbolsIncrease(b, e, d);
    SnocEqual(hi, b.Symbol(d), hi', b.Symbol(e));
  }

  /** Numbers that fit the width compare as their numerals do, and different numbers have different ones. */
  lemma {:induction false} NumeralOrder(b: Radix, v: nat, w: nat, width: nat)
    requires Fits(b, v, width) && Fits(b, w, width)
    ensures Less(Numeral(b, v, width), Numeral(b, w, width)) <==> v < w
    ensures Numeral(b, v, width) == Numeral(b, w, width) <==> v == w
    decreases width
  {
    if width > 0 {
      var p, q := b.Quotient(v), b.Quotient(w);
      NumeralOrder(b, p, q, width - 1);
      DivisionOrder(b, v, w);
      DivisionOrder(b, w, v);
      LastDigit(b, Numeral(b, p, width - 1), b.Digit(v), Numeral(b, q, width - 1), b.Digit(w));
    }
  }

  /** Numerals of one width decide a comparison, and if the numbers are equal the rest does. */
  lemma NumeralDecides(b: Radix, v: nat, w: nat, width: nat, x: string, y: string)
    requires Fits(b, v, width) && Fits(b, w, width)
    ensures Less(Numeral(b, v, width) + x, Numeral(b, w, width) + y) <==> v < w || (v == w && Less(x, y))
  {
    NumeralOrder(b, v, w, width);
    PrefixDecides(Numeral(b, v, width), x, Numeral(b, w, width), y);
  }

  // ------------------------------------------------------------------- identifiers

  function Reverse(s: string): (r: string)
    ensures |r| == |s|
  {
    if s == [] then [] else Reverse(s[1..]) + [s[0]]
  }

  lemma {:induction false} ReverseSnoc(s: string, c: char)
    ensures Reverse(s + [c]) == [c] + Reverse(s)
  {
    if s == [] {
      assert s + [c] == [c];
    } else {
      ReverseSnoc(s[1..], c);
      assert (s + [c])[1..] == s[1..] + [c];
    }
  }

  function B32Of(value: nat, length: nat): string {
    Numeral(Crockford, value, length)
  }

  method B32(value: nat, length: nat) returns (r: string)
    ensures r == B32Of(value, length)
  {
    var out: string := [];
    var v := value;
    for i := 0 to length
      invariant B32Of(value, length) == B32Of(v, length - i) + Reverse(out)
    {
      ReverseSnoc(out, CROCKFORD[v % 32]);
      out := out + [CROCKFORD[v % 32]];
      v := v / 32;
    }
    r := Reverse(out);
  }

  function Ulid(ms: nat, random: nat): string {
    B32Of(ms, 10) + B32Of(random, 16)
  }

  // Ten digits hold 50 bits of milliseconds, of which the clock needs 48; sixteen hold 80 random bits.
  predicate FitsUlid(ms: nat, random: nat) {
    Fits(Crockford, ms, 10) && Fits(Crockford, random, 16)
  }

  lemma UlidWidths(ms: nat, random: nat)
    ensures Fits(Crockford, ms, 10) <==> ms < 0x4_0000_0000_0000
    ensures Fits(Crockford, random, 16) <==> random < 0x1_0000_0000_0000_0000_0000
  {
    FitsBelow(ms, 10, 0x4_0000_0000_0000);
    FitsBelow(random, 16, 0x1_0000_0000_0000_0000_0000);
    assert Pow32(5) == 0x200_0000;
    assert Pow32(10) == 0x4_0000_0000_0000;
    assert Pow32(15) == 0x800_0000_0000_0000_0000;
  }

  function Pow32(n: nat): nat {
    if n == 0 then 1 else 32 * Pow32(n - 1)
  }

  lemma {:induction false} FitsBelow(value: nat, width: nat, bound: nat)
    ensures bound == Pow32(width) ==> (Fits(Crockford, value, width) <==> value < bound)
    decreases width
  {
    if width > 0 {
      FitsBelow(value / 32, width - 1, Pow32(width - 1));
    }
  }

  /** Identifiers sort by creation time; within one millisecond by their random bits. */
  lemma UlidOrder(ms: nat, random: nat, ms': nat, random': nat)
    requires FitsUlid(ms, random) && FitsUlid(ms', random')
    ensures Less(Ulid(ms, random), Ulid(ms', random')) <==> ms < ms' || (ms == ms' && random < random')
  {
    NumeralOrder(Crockford, random, random', 16);
    NumeralDecides(Crockford, ms, ms', 10, B32Of(random, 16), B32Of(random', 16));
  }

  // ------------------------------------------------------------------- time stamps

  function Dec(value: nat, width: nat): string {
    Numeral(Decimal, value, width)
  }

  /** `YYYYMMDDTHHMMSSZ` for a second counted from 0001-01-01 00:00 UTC. */
  function Compact(second: nat): string {
    var d := Calendar.DateOf(second / 86400);
    Dec(d.year, 4) + (Dec(d.month, 2) + (Dec(d.day, 2) + ("T" + Clock(second))))
  }

  predicate FourDigitYear(second: nat) {
    Calendar.DateOf(second / 86400).year < 10000
  }

  predicate DateLess(a: Calendar.Date, b: Calendar.Date) {
    a.year < b.year || (a.year == b.year && (a.month < b.month || (a.month == b.month && a.day < b.day)))
  }

  lemma {:induction false} DatesIncrease(m: nat, n: nat)
    requires m < n
    ensures DateLess(Calendar.DateOf(m), Calendar.DateOf(n))
    decreases n - m
  {
    if m + 1 < n {
      DatesIncrease(m, n - 1);
    }
  }

  lemma DateOrder(m: nat, n: nat)
    ensures m < n <==> DateLess(Calendar.DateOf(m), Calendar.DateOf(n))
  {
    if m < n {
      DatesIncrease(m, n);
    } else if n < m {
      DatesIncrease(n, m);
    }
  }

  predicate ClockLess(a: nat, b: nat) {
    var (h, h') := (a / 3600 % 24, b / 3600 % 24);
    var (m, m') := (a / 60 % 60, b / 60 % 60);
    h < h' || (h == h' && (m < m' || (m == m' && a % 60 < b % 60)))
  }

  lemma SecondParts(a: nat, day: nat, h: nat, m: nat, s: nat)
    requires a == 86400 * day + 3600 * h + 60 * m + s && h < 24 && m < 60 && s < 60
    ensures a / 86400 == day && a / 3600 % 24 == h && a / 60 % 60 == m && a % 60 == s
  {
    assert a / 60 == 1440 * day + 60 * h + m;
    assert a / 3600 == 24 * day + h;
  }

  lemma SecondsOrder(a: nat, b: nat)
    ensures a < b <==> a / 86400 < b / 86400 || (a / 86400 == b / 86400 && ClockLess(a, b))
  {
    var (r, r') := (a % 86400, b % 86400);
    SecondParts(a, a / 86400, r / 3600, r % 3600 / 60, r % 60);
    SecondParts(b, b / 86400, r' / 3600, r' % 3600 / 60, r' % 60);
  }

  /** Compact time stamps compare as the instants they name. */
  lemma CompactOrder(a: nat, b: nat, x: string, y: string)
    requires FourDigitYear(a) && FourDigitYear(b)
    ensures Less(Compact(a) + x, Compact(b) + y) <==> a < b || (a == b && Less(x, y))
  {
    PrefixDecides(Compact(a), x, Compact(b), y);
    CompactDecides(a, b);
    if Compact(a) == Compact(b) {
      CompactDecides(b, a);
      LessTotal(Compact(a), Compact(b));
    }
  }

  function Clock(second: nat): string {
    Dec(second / 3600 % 24, 2) + (Dec(second / 60 % 60, 2) + (Dec(second % 60, 2) + "Z"))
  }

  lemma DecimalFits(v: nat)
    ensures (v < 100 ==> Fits(Decimal, v, 2)) && (v < 10000 ==> Fits(Decimal, v, 4))
  {
    assert Fits(Decimal, v / 10 / 10, 0) == (v / 10 / 10 == 0);
    assert Fits(Decimal, v / 10 / 10, 2) == (v / 10 / 10 / 10 / 10 == 0) by {
      assert Fits(Decimal, v / 10 / 10 / 10, 1) == Fits(Decimal, v / 10 / 10 / 10 / 10, 0);
    }
  }

  lemma DecimalDecides(v: nat, w: nat, width: nat, x: string, y: string)
    requires (width == 2 && v < 100 && w < 100) || (width == 4 && v < 10000 && w < 10000)
    ensures Less(Dec(v, width) + x, Dec(w, width) + y) <==> v < w || (v == w && Less(x, y))
  {
    DecimalFits(v);
    DecimalFits(w);
    NumeralDecides(Decimal, v, w, width, x, y);
  }

  lemma ClockDecides(a: nat, b: nat)
    ensures Less(Clock(a), Clock(b)) <==> ClockLess(a, b)
  {
    var s, s' := Dec(a % 60, 2) + "Z", Dec(b % 60, 2) + "Z";
    var m, m' := Dec(a / 60 % 60, 2) + s, Dec(b / 60 % 60, 2) + s';
    LessTotal("Z", "Z");
    DecimalDecides(a % 60, b % 60, 2, "Z", "Z");
    DecimalDecides(a / 60 % 60, b / 60 % 60, 2, s, s');
    DecimalDecides(a / 3600 % 24, b / 3600 % 24, 2, m, m');
  }

  lemma DateDecides(d: Calendar.Date, e: Calendar.Date, x: string, y: string)
    requires Calendar.Valid(d) && Calendar.Valid(e) && d.year < 10000 && e.year < 10000
    ensures Less(Dec(d.year, 4) + (Dec(d.month, 2) + (Dec(d.day, 2) + x)),
                 Dec(e.year, 4) + (Dec(e.month, 2) + (Dec(e.day, 2) + y)))
       <==> DateLess(d, e) || (d == e && Less(x, y))
  {
    DecimalDecides(d.day, e.day, 2, x, y);
    DecimalDecides(d.month, e.month, 2, Dec(d.day, 2) + x, Dec(e.day, 2) + y);
    DecimalDecides(d.year, e.year, 4,
                   Dec(d.month, 2) + (Dec(d.day, 2) + x), Dec(e.month, 2) + (Dec(e.day, 2) + y));
  }

  lemma CompactDecides(a: nat, b: nat)
    requires FourDigitYear(a) && FourDigitYear(b)
    ensures Less(Compact(a), Compact(b)) <==> a < b
  {
    var d, e := Calendar.DateOf(a / 86400), Calendar.DateOf(b / 86400);
    ClockDecides(a, b);
    PrefixDecides("T", Clock(a), "T", Clock(b));
    LessTotal("T", "T");
    DateDecides(d, e, "T" + Clock(a), "T" + Clock(b));
    DateOrder(a / 86400, b / 86400);
    DateOrder(b / 86400, a / 86400);
    SecondsOrder(a, b);
  }
}
