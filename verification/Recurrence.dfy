/**
 Predicates on minutes that come true again and again, whatever makes them true: the latest and
 the earliest time in a range, the gaps between consecutive times, and what a fixed window shows
 of the gaps of a periodic predicate.
 */
module Recurrence {
  import opened Results

  /** The greatest time in [lo, hi]. */
  function Latest(f: nat -> bool, lo: nat, hi: int): (r: Option<nat>)
    ensures r.Some? ==> lo <= r.value <= hi && f(r.value)
    ensures r.Some? ==> forall m: nat :: r.value < m <= hi ==> !f(m)
    ensures r.None? ==> forall m: nat :: lo <= m <= hi ==> !f(m)
    decreases if hi < lo then 0 else hi - lo + 1
  {
    if hi < lo then None
    else if f(hi) then Some(hi)
    else Latest(f, lo, hi - 1)
  }

  /** The least time in [lo, hi]. */
  function Earliest(f: nat -> bool, lo: nat, hi: int): (r: Option<nat>)
    ensures r.Some? ==> lo <= r.value <= hi && f(r.value)
    ensures r.Some? ==> forall m: nat :: lo <= m < r.value ==> !f(m)
    ensures r.None? ==> forall m: nat :: lo <= m <= hi ==> !f(m)
    decreases if hi < lo then 0 else hi - lo + 1
  {
    if hi < lo then None
    else if f(lo) then Some(lo)
    else Earliest(f, lo + 1, hi)
  }

  /** The time `a` is followed by its next time after exactly `g` minutes. */
  ghost predicate GapAt(f: nat -> bool, a: nat, g: nat) {
    0 < g && f(a) && f(a + g) && forall m: nat :: a < m < a + g ==> !f(m)
  }

  /** `g` separates two consecutive times that both lie in [lo, hi). */
  ghost predicate GapWithin(f: nat -> bool, lo: nat, hi: nat, g: nat) {
    exists a: nat :: lo <= a && a + g < hi && GapAt(f, a, g)
  }

  /** `g` separates two consecutive times anywhere. */
  ghost predicate GapEver(f: nat -> bool, g: nat) {
    exists a: nat :: GapAt(f, a, g)
  }

  /** A range that grows by one minute gains at most the gap that ends there. */
  lemma GapExtends(f: nat -> bool, lo: nat, cur: nat, g: nat)
    requires lo <= cur
    ensures var prev := Latest(f, lo, cur - 1);
            GapWithin(f, lo, cur + 1, g) <==>
            GapWithin(f, lo, cur, g) || (f(cur) && prev.Some? && g == cur - prev.value)
  {
    var prev := Latest(f, lo, cur - 1);
    if GapWithin(f, lo, cur + 1, g) {
      var a: nat :| lo <= a && a + g < cur + 1 && GapAt(f, a, g);
      if a + g == cur {
        assert prev.Some? && a == prev.value;
      } else {
        assert GapWithin(f, lo, cur, g);
      }
    }
    if f(cur) && prev.Some? && g == cur - prev.value {
      assert GapAt(f, prev.value, g);
    }
  }

  /** The gaps of [lo, hi), in order. */
  function GapsIn(f: nat -> bool, lo: nat, hi: nat): seq<nat>
    requires lo <= hi
    decreases hi
  {
    if hi == lo then []
    else
      var prev := Latest(f, lo, hi - 2);
      GapsIn(f, lo, hi - 1) + if f(hi - 1) && prev.Some? then [hi - 1 - prev.value] else []
  }

  lemma {:induction false} GapsInMembers(f: nat -> bool, lo: nat, hi: nat)
    requires lo <= hi
    ensures forall g: nat :: g in GapsIn(f, lo, hi) <==> GapWithin(f, lo, hi, g)
    decreases hi
  {
    if lo < hi {
      GapsInMembers(f, lo, hi - 1);
      forall g: nat
        ensures g in GapsIn(f, lo, hi) <==> GapWithin(f, lo, hi, g)
      {
        GapExtends(f, lo, hi - 1, g);
      }
    }
  }

  // ------------------------------------------------------------------- periodic predicates

  ghost predicate Periodic(f: nat -> bool, period: nat) {
    0 < period && forall m: nat :: f(m) == f(m + period)
  }

  lemma ShiftUp(f: nat -> bool, period: nat, a: nat, g: nat)
    requires Periodic(f, period) && GapAt(f, a, g)
    ensures GapAt(f, a + period, g)
  {
    assert f(a + g) == f(a + g + period);
    forall m: nat | a + period < m < a + period + g
      ensures !f(m)
    {
      assert f(m - period) == f(m - period + period);
    }
  }

  lemma ShiftDown(f: nat -> bool, period: nat, a: nat, g: nat)
    requires Periodic(f, period) && GapAt(f, a + period, g)
    ensures GapAt(f, a, g)
  {
    assert f(a + g) == f(a + g + period);
    forall m: nat | a < m < a + g
      ensures !f(m)
    {
      assert f(m) == f(m + period);
    }
  }

  /** A gap can be moved into any given period. */
  lemma {:induction false} MoveInto(f: nat -> bool, period: nat, lo: nat, a: nat, g: nat) returns (a': nat)
    requires Periodic(f, period) && GapAt(f, a, g)
    ensures lo <= a' < lo + period && GapAt(f, a', g)
    decreases if a < lo then lo - a else a - lo
  {
    if a < lo {
      ShiftUp(f, period, a, g);
      if a + period < lo {
        a' := MoveInto(f, period, lo, a + period, g);
      } else {
        a' := a + period;
      }
    } else if a >= lo + period {
      ShiftDown(f, period, a - period, g);
      a' := MoveInto(f, period, lo, a - period, g);
    } else {
      a' := a;
    }
  }

  lemma NextWithinPeriod(f: nat -> bool, period: nat, a: nat) returns (g: nat)
    requires Periodic(f, period) && f(a)
    ensures GapAt(f, a, g) && g <= period
  {
    assert f(a + period);
    g := Earliest(f, a + 1, a + period).value - a;
  }

  /** A window of two periods shows exactly the gaps of all time. */
  lemma WindowIsExact(f: nat -> bool, period: nat, lo: nat, hi: nat, g: nat)
    requires Periodic(f, period) && lo + 2 * period <= hi
    ensures GapWithin(f, lo, hi, g) <==> GapEver(f, g)
  {
    if GapEver(f, g) {
      var a: nat :| GapAt(f, a, g);
      var g' := NextWithinPeriod(f, period, a);
      assert g' == g;
      var a' := MoveInto(f, period, lo, a, g);
      assert GapWithin(f, lo, hi, g);
    }
  }

  lemma FiresAtLeastGapApart(f: nat -> bool, floor: nat, a: nat, b: nat)
    requires forall g: nat :: GapEver(f, g) ==> floor <= g
    requires a < b && f(a) && f(b)
    ensures floor <= b - a
  {
    var g := Earliest(f, a + 1, b).value - a;
    assert GapAt(f, a, g);
    assert GapEver(f, g);
  }

  ghost predicate IsSmallestGap(f: nat -> bool, lo: nat, hi: nat, r: nat) {
    GapWithin(f, lo, hi, r) && forall g: nat :: GapWithin(f, lo, hi, g) ==> r <= g
  }

  ghost predicate IsLargestGap(f: nat -> bool, lo: nat, hi: nat, r: nat) {
    GapWithin(f, lo, hi, r) && forall g: nat :: GapWithin(f, lo, hi, g) ==> g <= r
  }

  ghost predicate AtLeastApart(f: nat -> bool, floor: nat) {
    forall a: nat, b: nat :: a < b && f(a) && f(b) ==> floor <= b - a
  }

  /** A floor is met by the window's smallest gap exactly when any two times, ever, are that far apart. */
  lemma SmallestGapHoldsForever(f: nat -> bool, period: nat, lo: nat, hi: nat, gap: nat, floor: nat)
    requires Periodic(f, period) && lo + 2 * period <= hi && IsSmallestGap(f, lo, hi, gap)
    ensures floor <= gap <==> AtLeastApart(f, floor)
  {
    if floor <= gap {
      forall g: nat | GapEver(f, g)
        ensures gap <= g
      {
        WindowIsExact(f, period, lo, hi, g);
      }
      forall a: nat, b: nat | a < b && f(a) && f(b)
        ensures floor <= b - a
      {
        FiresAtLeastGapApart(f, gap, a, b);
      }
    } else {
      var a: nat :| lo <= a && a + gap < hi && GapAt(f, a, gap);
      assert f(a) && f(a + gap);
    }
  }

  /** After any time the next comes within the window's largest gap. */
  lemma NextWithinLargestGap(f: nat -> bool, period: nat, lo: nat, hi: nat, gap: nat, a: nat) returns (g: nat)
    requires Periodic(f, period) && lo + 2 * period <= hi && IsLargestGap(f, lo, hi, gap) && f(a)
    ensures GapAt(f, a, g) && g <= gap
  {
    g := NextWithinPeriod(f, period, a);
    assert GapEver(f, g);
    WindowIsExact(f, period, lo, hi, g);
  }

  lemma SomeGap(f: nat -> bool, period: nat, lo: nat, hi: nat, a: nat) returns (g: nat)
    requires Periodic(f, period) && lo + 2 * period <= hi && f(a)
    ensures GapWithin(f, lo, hi, g)
  {
    g := NextWithinPeriod(f, period, a);
    assert GapEver(f, g);
    WindowIsExact(f, period, lo, hi, g);
  }
}
