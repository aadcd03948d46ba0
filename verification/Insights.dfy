/**
 Trends over the runs of one project and cadence (collectors/insights.py): changes of verdict, the
 current streak, the least-squares slope, and the signals drawn from them.
 */
module Insights {
  import opened Results

  datatype Entry = Entry(ended: Option<int>, verdict: string, status: string)

  /** A run in the window: when it ended, in seconds, and how bad it was: 0 green, 1 amber, 2 red. */
  datatype Run = Run(ended: int, bad: nat)

  function Ordinal(r: Entry): (o: nat)
    ensures o <= 2
  {
    if r.verdict == "green" then 0
    else if r.verdict == "amber" then 1
    else if r.verdict == "red" then 2
    else if r.status == "failed" || r.status == "timeout" then 2
    else 0
  }

  /** The runs that ended at the cutoff or later; a receipt without a readable end is passed over. */
  function Window(history: seq<Entry>, cutoff: int): (win: seq<Run>)
    ensures forall k :: 0 <= k < |win| ==> win[k].bad <= 2
  {
    if history == [] then []
    else
      var r := history[0];
      if r.ended.Some? && r.ended.value >= cutoff then [Run(r.ended.value, Ordinal(r))] + Window(history[1..], cutoff)
      else Window(history[1..], cutoff)
  }

  // ------------------------------------------------------------------- changes and streaks

  datatype Change = Change(was: nat, became: nat, when: int)

  /** The changes of verdict, oldest first. */
  function Changes(win: seq<Run>): seq<Change> {
    if |win| < 2 then []
    else
      var earlier, last, prev := Changes(win[..|win| - 1]), win[|win| - 1], win[|win| - 2];
      if last.bad != prev.bad then earlier + [Change(prev.bad, last.bad, last.ended)] else earlier
  }

  method Transitions(win: seq<Run>) returns (out: seq<Change>)
    ensures out == Changes(win)
  {
    out := [];
    var prev: Option<nat> := None;
    for k := 0 to |win|
      invariant out == Changes(win[..k])
      invariant prev == if k == 0 then None else Some(win[k - 1].bad)
    {
      assert win[..k + 1][..k] == win[..k];
      if prev.Some? && win[k].bad != prev.value {
        out := out + [Change(prev.value, win[k].bad, win[k].ended)];
      }
      prev := Some(win[k].bad);
    }
    assert win[..|win|] == win;
  }

  /** The last `n` runs share a verdict, and the one before them, if any, has another. */
  ghost predicate IsStreak(win: seq<Run>, n: nat) {
    && 0 < n <= |win|
    && (forall k :: |win| - n <= k < |win| ==> win[k].bad == win[|win| - 1].bad)
    && (n < |win| ==> win[|win| - n - 1].bad != win[|win| - 1].bad)
  }

  method CurrentStreak(win: seq<Run>) returns (tip: nat, n: nat, since: Option<int>)
    ensures win == [] ==> tip == 0 && n == 0 && since == None
    ensures win != [] ==> tip == win[|win| - 1].bad && IsStreak(win, n) && since == Some(win[|win| - n].ended)
  {
    if win == [] {
      return 0, 0, None;
    }
    tip := win[|win| - 1].bad;
    n, since := 0, Some(win[|win| - 1].ended);
    while n < |win| && win[|win| - 1 - n].bad == tip
      invariant n <= |win|
      invariant forall k :: |win| - n <= k < |win| ==> win[k].bad == tip
      invariant n > 0 ==> since == Some(win[|win| - n].ended)
    {
      since := Some(win[|win| - 1 - n].ended);
      n := n + 1;
    }
  }

  /**
   The last change is the start of the current streak: same verdict, same time; without a change the streak
   is everything.
   */
  lemma {:induction false} LastChangeStartsStreak(win: seq<Run>, n: nat)
    requires IsStreak(win, n)
    ensures Changes(win) == [] <==> n == |win|
    ensures n < |win| ==>
      var last := Changes(win)[|Changes(win)| - 1];
      last == Change(win[|win| - n - 1].bad, win[|win| - 1].bad, win[|win| - n].ended)
  {
    if |win| > 1 {
      var earlier := win[..|win| - 1];
      if n > 1 {
        LastChangeStartsStreak(earlier, n - 1);
      }
    }
  }

  // ------------------------------------------------------------------- sums

  function Sum(a: seq<real>): real {
    if a == [] then 0.0 else a[0] + Sum(a[1..])
  }

  function Dot(a: seq<real>, b: seq<real>): real
    requires |a| == |b|
  {
    if a == [] then 0.0 else a[0] * b[0] + Dot(a[1..], b[1..])
  }

  /** The sequence with `m` taken from each member. */
  function Shift(a: seq<real>, m: real): (r: seq<real>)
    ensures |r| == |a| && forall k :: 0 <= k < |a| ==> r[k] == a[k] - m
  {
    if a == [] then [] else [a[0] - m] + Shift(a[1..], m)
  }

  lemma {:induction false} SumOfShift(a: seq<real>, m: real)
    ensures Sum(Shift(a, m)) == Sum(a) - |a| as real * m
  {
    if a != [] {
      SumOfShift(a[1..], m);
      assert |a| as real * m == (|a| - 1) as real * m + m;
    }
  }

  lemma Distribute(u: real, y: real, c: real)
    ensures u * (y - c) == u * y - c * u
  {
  }

  lemma {:induction false} DotOfShift(a: seq<real>, b: seq<real>, c: real)
    requires |a| == |b|
    ensures Dot(a, Shift(b, c)) == Dot(a, b) - c * Sum(a)
  {
    if a != [] {
      DotOfShift(a[1..], b[1..], c);
      Distribute(a[0], b[0], c);
      assert Shift(b, c)[1..] == Shift(b[1..], c);
      assert c * Sum(a) == c * a[0] + c * Sum(a[1..]);
    }
  }

  lemma {:induction false} DotNonNegative(a: seq<real>, b: seq<real>)
    requires |a| == |b| && forall k :: 0 <= k < |a| ==> a[k] * b[k] >= 0.0
    ensures Dot(a, b) >= 0.0
  {
    if a != [] {
      assert a[0] * b[0] >= 0.0;
      forall k | 0 <= k < |a[1..]| ensures a[1..][k] * b[1..][k] >= 0.0 {
        assert a[1..][k] == a[k + 1] && b[1..][k] == b[k + 1];
      }
      DotNonNegative(a[1..], b[1..]);
    }
  }

  lemma SquareNonNegative(x: real)
    ensures x * x >= 0.0
  {
  }

  lemma ProductNonNegative(x: real, y: real)
    requires (x >= 0.0 && y >= 0.0) || (x <= 0.0 && y <= 0.0)
    ensures x * y >= 0.0
  {
  }

  // ------------------------------------------------------------------- the slope

  function Mean(a: seq<real>): real
    requires a != []
  {
    Sum(a) / |a| as real
  }

  /** Each member less the mean. */
  function Deviations(a: seq<real>): (r: seq<real>)
    requires a != []
    ensures |r| == |a|
  {
    Shift(a, Mean(a))
  }

  function Slope(xs: seq<real>, ys: seq<real>): real
    requires |xs| == |ys|
  {
    if |xs| < 2 then 0.0
    else
      var u, v := Deviations(xs), Deviations(ys);
      if Dot(u, u) == 0.0 then 0.0 else Dot(u, v) / Dot(u, u)
  }

  lemma DeviationsSumToZero(a: seq<real>)
    requires a != []
    ensures Sum(Deviations(a)) == 0.0
  {
    SumOfShift(a, Mean(a));
  }

  lemma DeviationsSquared(a: seq<real>)
    requires a != []
    ensures var u := Deviations(a); Dot(u, u) >= 0.0
  {
    var u := Deviations(a);
    forall k | 0 <= k < |u| ensures u[k] * u[k] >= 0.0 {
      SquareNonNegative(u[k]);
    }
    DotNonNegative(u, u);
  }

  predicate Ascending(a: seq<real>) {
    forall i, j :: 0 <= i < j < |a| ==> a[i] <= a[j]
  }

  predicate Descending(a: seq<real>) {
    forall i, j :: 0 <= i < j < |a| ==> a[i] >= a[j]
  }

  /** The first index whose member is not below the mean, or the last index. */
  lemma {:induction false} Crossing(a: seq<real>, m: real) returns (c: nat)
    requires a != [] && Ascending(a)
    ensures c < |a|
    ensures forall k :: 0 <= k < c ==> a[k] <= m
    ensures forall k :: c < k < |a| ==> a[k] >= m
  {
    c := 0;
    while c < |a| - 1 && a[c] < m
      invariant c < |a|
      invariant forall k :: 0 <= k < c ==> a[k] < m
    {
      c := c + 1;
    }
  }

  /** Products of deviations from the mean add up to the same about any other point. */
  lemma AboutAnyPoint(xs: seq<real>, ys: seq<real>, c: real)
    requires |xs| == |ys| && xs != []
    ensures Dot(Deviations(xs), Deviations(ys)) == Dot(Deviations(xs), Shift(ys, c))
  {
    var u := Deviations(xs);
    DeviationsSumToZero(xs);
    DotOfShift(u, ys, Mean(ys));
    DotOfShift(u, ys, c);
  }

  /**
   Values that never fall over time have a slope that is not negative, those that never rise one that is not
   positive.
   */
  lemma SlopeFollowsOrder(xs: seq<real>, ys: seq<real>)
    requires |xs| == |ys| && Ascending(xs)
    ensures Ascending(ys) ==> Slope(xs, ys) >= 0.0
    ensures Descending(ys) ==> Slope(xs, ys) <= 0.0
  {
    if |xs| >= 2 {
      var u, v := Deviations(xs), Deviations(ys);
      DeviationsSquared(xs);
      if Ascending(ys) {
        AscendingTogether(xs, ys);
        QuotientSign(Dot(u, v), Dot(u, u));
      }
      if Descending(ys) {
        DescendingApart(xs, ys);
        QuotientSign(Dot(u, v), Dot(u, u));
      }
    }
  }

  lemma QuotientSign(p: real, q: real)
    requires q >= 0.0
    ensures q != 0.0 && p >= 0.0 ==> p / q >= 0.0
    ensures q != 0.0 && p <= 0.0 ==> p / q <= 0.0
  {
  }

  lemma AscendingTogether(xs: seq<real>, ys: seq<real>)
    requires |xs| == |ys| && xs != [] && Ascending(xs) && Ascending(ys)
    ensures Dot(Deviations(xs), Deviations(ys)) >= 0.0
  {
    var c := Crossing(xs, Mean(xs));
    var u, w := Deviations(xs), Shift(ys, ys[c]);
    forall k | 0 <= k < |u| ensures u[k] * w[k] >= 0.0 {
      ProductNonNegative(u[k], w[k]);
    }
    DotNonNegative(u, w);
    AboutAnyPoint(xs, ys, ys[c]);
  }

  lemma DescendingApart(xs: seq<real>, ys: seq<real>)
    requires |xs| == |ys| && xs != [] && Ascending(xs) && Descending(ys)
    ensures Dot(Deviations(xs), Deviations(ys)) <= 0.0
  {
    var c := Crossing(xs, Mean(xs));
    var u, w := Deviations(xs), Shift(ys, ys[c]);
    forall k | 0 <= k < |u| ensures u[k] * w[k] <= 0.0 {
      ProductNonNegative(u[k], -w[k]);
      assert u[k] * w[k] == -(u[k] * -w[k]);
    }
    DotNonPositive(u, w);
    AboutAnyPoint(xs, ys, ys[c]);
  }

  lemma {:induction false} DotNonPositive(a: seq<real>, b: seq<real>)
    requires |a| == |b| && forall k :: 0 <= k < |a| ==> a[k] * b[k] <= 0.0
    ensures Dot(a, b) <= 0.0
  {
    if a != [] {
      assert a[0] * b[0] <= 0.0;
      forall k | 0 <= k < |a[1..]| ensures a[1..][k] * b[1..][k] <= 0.0 {
        assert a[1..][k] == a[k + 1] && b[1..][k] == b[k + 1];
      }
      DotNonPositive(a[1..], b[1..]);
    }
  }

  // ------------------------------------------------------------------- it is the least-squares slope

  /** How far each point lies above the line with height `a` at zero and slope `b`. */
  function Errors(xs: seq<real>, ys: seq<real>, a: real, b: real): (e: seq<real>)
    requires |xs| == |ys|
    ensures |e| == |xs|
  {
    if xs == [] then [] else [ys[0] - a - b * xs[0]] + Errors(xs[1..], ys[1..], a, b)
  }

  function SquaredError(xs: seq<real>, ys: seq<real>, a: real, b: real): real
    requires |xs| == |ys|
  {
    Dot(Errors(xs, ys, a, b), Errors(xs, ys, a, b))
  }

  /** Each member of the first sequence is made from those of the others. */
  ghost predicate Combined(e: seq<real>, v: seq<real>, s: real, u: seq<real>, k: real) {
    && |e| == |v| == |u|
    && (e != [] ==> e[0] == v[0] + s * u[0] + k && Combined(e[1..], v[1..], s, u[1..], k))
  }

  lemma {:induction false} SumOfCombined(e: seq<real>, v: seq<real>, s: real, u: seq<real>)
    requires Combined(e, v, s, u, 0.0)
    ensures Sum(e) == Sum(v) + s * Sum(u)
  {
    if e != [] {
      SumOfCombined(e[1..], v[1..], s, u[1..]);
      assert s * (u[0] + Sum(u[1..])) == s * u[0] + s * Sum(u[1..]);
    }
  }

  lemma {:induction false} DotOfCombined(e: seq<real>, v: seq<real>, s: real, u: seq<real>)
    requires Combined(e, v, s, u, 0.0)
    ensures Dot(e, u) == Dot(u, v) + s * Dot(u, u)
  {
    if e != [] {
      DotOfCombined(e[1..], v[1..], s, u[1..]);
      TimesOne(e[0], v[0], s, u[0], Dot(u[1..], u[1..]));
    }
  }

  lemma TimesOne(e: real, v: real, s: real, u: real, rest: real)
    requires e == v + s * u
    ensures e * u + s * rest == u * v + s * (u * u + rest)
  {
    assert (v + s * u) * u == u * v + s * (u * u);
    assert s * (u * u + rest) == s * (u * u) + s * rest;
  }

  ghost predicate AtLeast(error: real, e: seq<real>, u: seq<real>, d: real, k: real)
    requires |e| == |u|
  {
    error >= Dot(e, e) + 2.0 * d * Dot(e, u) + 2.0 * k * Sum(e)
  }

  /** Errors moved off by a line have at least this sum of squares. */
  lemma {:induction false} SquaresOfCombined(r: seq<real>, e: seq<real>, d: real, u: seq<real>, k: real)
    requires Combined(r, e, d, u, k)
    ensures AtLeast(Dot(r, r), e, u, d, k)
  {
    if r != [] {
      SquaresOfCombined(r[1..], e[1..], d, u[1..], k);
      SquareOfFirst(r, e, d, u, k);
      DotByFirst(r, r);
      OneMore(Dot(r[1..], r[1..]), e, u, d, k, r[0] * r[0], Dot(r, r));
    } else {
      Vanish(d, Dot(e, u));
      Vanish(k, Sum(e));
    }
  }

  lemma DotByFirst(a: seq<real>, b: seq<real>)
    requires |a| == |b| && a != []
    ensures Dot(a, b) == a[0] * b[0] + Dot(a[1..], b[1..])
  {
  }

  lemma SquareOfFirst(r: seq<real>, e: seq<real>, d: real, u: seq<real>, k: real)
    requires Combined(r, e, d, u, k) && r != []
    ensures r[0] * r[0] >= e[0] * e[0] + 2.0 * d * (e[0] * u[0]) + 2.0 * k * e[0]
  {
    SquareOfOne(r[0], e[0], d, u[0], k);
  }

  lemma OneMore(error: real, e: seq<real>, u: seq<real>, d: real, k: real, rr: real, total: real)
    requires |e| == |u| && e != [] && AtLeast(error, e[1..], u[1..], d, k)
    requires rr >= e[0] * e[0] + 2.0 * d * (e[0] * u[0]) + 2.0 * k * e[0] && total == rr + error
    ensures AtLeast(total, e, u, d, k)
  {
    var ee, eu, se := Dot(e[1..], e[1..]), Dot(e[1..], u[1..]), Sum(e[1..]);
    Gather(d, k, e[0] * e[0], e[0] * u[0], e[0], rr, ee, eu, se, error, Dot(e, u), Sum(e));
    assert Dot(e, e) == e[0] * e[0] + ee;
  }

  lemma Gather(d: real, k: real, pp: real, pu: real, p: real, rr: real, ee: real, eu: real, se: real, error: real,
               eus: real, ses: real)
    requires rr >= pp + 2.0 * d * pu + 2.0 * k * p && error >= ee + 2.0 * d * eu + 2.0 * k * se
    requires eus == pu + eu && ses == p + se
    ensures rr + error >= pp + ee + 2.0 * d * eus + 2.0 * k * ses
  {
    assert 2.0 * d * eus == 2.0 * d * pu + 2.0 * d * eu;
    assert 2.0 * k * ses == 2.0 * k * p + 2.0 * k * se;
  }

  lemma SquareOfOne(r: real, e: real, d: real, u: real, k: real)
    requires r == e + d * u + k
    ensures r * r >= e * e + 2.0 * d * (e * u) + 2.0 * k * e
  {
    var w := d * u + k;
    assert r * r == e * e + 2.0 * (e * w) + w * w;
    SquareNonNegative(w);
    assert e * w == d * (e * u) + k * e;
  }

  /** No line has a smaller sum of squared errors than the one with this slope through the means. */
  lemma SlopeIsLeastSquares(xs: seq<real>, ys: seq<real>, mx: real, my: real, s: real, a: real, b: real)
    requires |xs| == |ys| && xs != [] && Dot(Deviations(xs), Deviations(xs)) != 0.0
    requires mx == Mean(xs) && my == Mean(ys) && s == Slope(xs, ys)
    ensures SquaredError(xs, ys, my - s * mx, s) <= SquaredError(xs, ys, a, b)
  {
    DeviationsSumToZero(xs);
    DeviationsSumToZero(ys);
    SlopeOfMany(xs, ys);
    LeastAt(xs, ys, mx, my, s, a, b);
  }

  lemma LeastAt(xs: seq<real>, ys: seq<real>, mx: real, my: real, s: real, a: real, b: real)
    requires |xs| == |ys| && Sum(Shift(xs, mx)) == 0.0 && Sum(Shift(ys, my)) == 0.0
    requires var u := Shift(xs, mx); s * Dot(u, u) == Dot(u, Shift(ys, my))
    ensures SquaredError(xs, ys, my - s * mx, s) <= SquaredError(xs, ys, a, b)
  {
    var e, u := Errors(xs, ys, my - s * mx, s), Shift(xs, mx);
    Orthogonal(xs, ys, mx, my, s);
    LineMovedOff(xs, ys, mx, my, s, a, b);
    SquaresOfCombined(Errors(xs, ys, a, b), e, s - b, u, my - a - b * mx);
    Vanish(s - b, Dot(e, u));
    Vanish(my - a - b * mx, Sum(e));
  }

  lemma {:induction false} LineMovedOff(xs: seq<real>, ys: seq<real>, mx: real, my: real, s: real, a: real, b: real)
    requires |xs| == |ys|
    ensures Combined(Errors(xs, ys, a, b), Errors(xs, ys, my - s * mx, s), s - b, Shift(xs, mx), my - a - b * mx)
  {
    if xs != [] {
      LineMovedOff(xs[1..], ys[1..], mx, my, s, a, b);
      PointMovedOff(xs[0], ys[0], mx, my, s, a, b, xs[0] - mx);
      ErrorsRest(xs, ys, a, b);
      ErrorsRest(xs, ys, my - s * mx, s);
      assert Shift(xs, mx)[1..] == Shift(xs[1..], mx);
    }
  }

  lemma ErrorsRest(xs: seq<real>, ys: seq<real>, a: real, b: real)
    requires |xs| == |ys| && xs != []
    ensures Errors(xs, ys, a, b)[0] == ys[0] - a - b * xs[0]
    ensures Errors(xs, ys, a, b)[1..] == Errors(xs[1..], ys[1..], a, b)
  {
  }

  lemma PointMovedOff(x: real, y: real, mx: real, my: real, s: real, a: real, b: real, u: real)
    requires u == x - mx
    ensures y - a - b * x == (y - (my - s * mx) - s * x) + (s - b) * u + (my - a - b * mx)
  {
    assert (s - b) * (x - mx) == s * x - s * mx - b * x + b * mx;
  }

  lemma Vanish(d: real, z: real)
    requires z == 0.0
    ensures 2.0 * d * z == 0.0
  {
  }

  /** The errors of the least-squares line sum to zero, also when weighted by the deviations. */
  lemma Orthogonal(xs: seq<real>, ys: seq<real>, mx: real, my: real, s: real)
    requires |xs| == |ys| && Sum(Shift(xs, mx)) == 0.0 && Sum(Shift(ys, my)) == 0.0
    requires var u := Shift(xs, mx); s * Dot(u, u) == Dot(u, Shift(ys, my))
    ensures var e := Errors(xs, ys, my - s * mx, s);
            Sum(e) == 0.0 && Dot(e, Shift(xs, mx)) == 0.0
  {
    var e, u, v := Errors(xs, ys, my - s * mx, s), Shift(xs, mx), Shift(ys, my);
    ErrorsAboutMeans(xs, ys, mx, my, s);
    SumOfCombined(e, v, -s, u);
    DotOfCombined(e, v, -s, u);
    Opposite(s, Dot(u, u));
    assert (-s) * 0.0 == 0.0;
  }

  lemma Opposite(s: real, p: real)
    ensures (-s) * p == -(s * p)
  {
  }

  lemma {:induction false} ErrorsAboutMeans(xs: seq<real>, ys: seq<real>, mx: real, my: real, s: real)
    requires |xs| == |ys|
    ensures Combined(Errors(xs, ys, my - s * mx, s), Shift(ys, my), -s, Shift(xs, mx), 0.0)
  {
    if xs != [] {
      ErrorsAboutMeans(xs[1..], ys[1..], mx, my, s);
      PointAboutMeans(xs[0], ys[0], mx, my, s, xs[0] - mx);
      ErrorsRest(xs, ys, my - s * mx, s);
      assert Shift(xs, mx)[1..] == Shift(xs[1..], mx) && Shift(ys, my)[1..] == Shift(ys[1..], my);
    }
  }

  lemma PointAboutMeans(x: real, y: real, mx: real, my: real, s: real, u: real)
    requires u == x - mx
    ensures y - (my - s * mx) - s * x == (y - my) + (-s) * u + 0.0
  {
    assert (-s) * (x - mx) == s * mx - s * x;
  }

  lemma SlopeOfMany(xs: seq<real>, ys: seq<real>)
    requires |xs| == |ys| && xs != [] && Dot(Deviations(xs), Deviations(xs)) != 0.0
    ensures var u := Deviations(xs);
            Slope(xs, ys) * Dot(u, u) == Dot(u, Deviations(ys))
  {
    if |xs| == 1 {
      OneDeviation(xs);
    } else {
      Undivided(Dot(Deviations(xs), Deviations(ys)), Dot(Deviations(xs), Deviations(xs)));
    }
  }

  lemma OneDeviation(xs: seq<real>)
    requires |xs| == 1
    ensures Dot(Deviations(xs), Deviations(xs)) == 0.0
  {
    assert Sum(xs) == xs[0];
    assert Deviations(xs)[0] == 0.0;
  }

  lemma Undivided(p: real, q: real)
    requires q != 0.0
    ensures p / q * q == p
  {
  }

  // ------------------------------------------------------------------- signals

  datatype Signal =
    | Regression(was: nat, became: nat, when: int)
    | Chronic(bad: nat, runs: nat, since: int)
    | Degrading(slope: real)
    | Projected(days: real)
    | Flapping(changes: nat)
    | Recovering

  /** How long the current streak is. */
  function StreakLength(win: seq<Run>): (n: nat)
    ensures win != [] ==> IsStreak(win, n)
  {
    if win == [] then 0
    else if |win| > 1 && win[|win| - 2].bad == win[|win| - 1].bad then StreakLength(win[..|win| - 1]) + 1
    else 1
  }

  lemma StreakIsUnique(win: seq<Run>, n: nat)
    requires IsStreak(win, n)
    ensures n == StreakLength(win)
  {
    var m := StreakLength(win);
    if m < n {
    }
  }

  /** Times in days. */
  function Days(win: seq<Run>): (xs: seq<real>)
    ensures |xs| == |win| && forall k :: 0 <= k < |win| ==> xs[k] == win[k].ended as real / 86400.0
  {
    if win == [] then [] else [win[0].ended as real / 86400.0] + Days(win[1..])
  }

  function Levels(win: seq<Run>): (ys: seq<real>)
    ensures |ys| == |win| && forall k :: 0 <= k < |win| ==> ys[k] == win[k].bad as real
  {
    if win == [] then [] else [win[0].bad as real] + Levels(win[1..])
  }

  function Trend(win: seq<Run>): real {
    Slope(Days(win), Levels(win))
  }

  predicate Regressed(win: seq<Run>) {
    var changes := Changes(win);
    && changes != [] && changes[|changes| - 1].became > changes[|changes| - 1].was
    && win[|win| - 1].bad == changes[|changes| - 1].became
  }

  function Steady(win: seq<Run>, chronicRuns: nat): seq<Signal>
    requires win != []
  {
    var changes, n, tip := Changes(win), StreakLength(win), win[|win| - 1].bad;
    (if Regressed(win)
     then [Regression(changes[|changes| - 1].was, changes[|changes| - 1].became, changes[|changes| - 1].when)] else [])
    + (if tip >= 1 && n >= chronicRuns then [Chronic(tip, n, win[|win| - n].ended)] else [])
  }

  function Trending(win: seq<Run>, slope: real, horizon: int): seq<Signal>
    requires win != []
  {
    var tip := win[|win| - 1].bad;
    (if slope > 0.01 && tip < 2 && !Regressed(win) then [Degrading(slope)] else [])
    + (if slope > 0.01 && tip < 2 && (2 - tip) as real / slope <= horizon as real
       then [Projected((2 - tip) as real / slope)] else [])
  }

  function Settling(win: seq<Run>, slope: real): seq<Signal>
    requires win != []
  {
    (if |Changes(win)| >= 3 then [Flapping(|Changes(win)|)] else [])
    + (if slope < -0.01 && win[|win| - 1].bad == 0 && exists k :: 0 <= k < |win| - 1 && win[k].bad >= 1
       then [Recovering] else [])
  }

  function Signals(win: seq<Run>, horizon: int, chronicRuns: nat): seq<Signal> {
    if |win| < 2 then []
    else Steady(win, chronicRuns) + Trending(win, Trend(win), horizon) + Settling(win, Trend(win))
  }

  method AnalyzeHistory(history: seq<Entry>, now: int, windowDays: nat, horizon: int, chronicRuns: nat)
      returns (signals: seq<Signal>)
    ensures signals == Signals(Window(history, now - windowDays * 86400), horizon, chronicRuns)
  {
    var win := Window(history, now - windowDays * 86400);
    if |win| < 2 {
      return [];
    }
    var steady := SteadySignals(win, chronicRuns);
    var slope := Trend(win);
    var trending := TrendingSignals(win, slope, horizon, exists s :: s in steady && s.Regression?);
    var settling := SettlingSignals(win, slope);
    signals := steady + trending + settling;
  }

  method SteadySignals(win: seq<Run>, chronicRuns: nat) returns (signals: seq<Signal>)
    requires win != []
    ensures signals == Steady(win, chronicRuns)
    ensures (exists s :: s in signals && s.Regression?) <==> Regressed(win)
  {
    signals := [];
    var tip, n, since := CurrentStreak(win);
    StreakIsUnique(win, n);
    var changes := Transitions(win);
    if changes != [] {
      var last := changes[|changes| - 1];
      if last.became > last.was && tip == last.became {
        signals := signals + [Regression(last.was, last.became, last.when)];
        assert signals[0].Regression?;
      }
    }
    if tip >= 1 && n >= chronicRuns {
      signals := signals + [Chronic(tip, n, since.value)];
    }
  }

  method TrendingSignals(win: seq<Run>, slope: real, horizon: int, regressed: bool) returns (signals: seq<Signal>)
    requires win != [] && regressed == Regressed(win)
    ensures signals == Trending(win, slope, horizon)
  {
    signals := [];
    var tip := win[|win| - 1].bad;
    if slope > 0.01 && tip < 2 && !regressed {
      signals := signals + [Degrading(slope)];
    }
    if slope > 0.01 && tip < 2 {
      var days := (2 - tip) as real / slope;
      if days <= horizon as real {
        signals := signals + [Projected(days)];
      }
    }
  }

  method SettlingSignals(win: seq<Run>, slope: real) returns (signals: seq<Signal>)
    requires win != []
    ensures signals == Settling(win, slope)
  {
    signals := [];
    var changes := Transitions(win);
    if |changes| >= 3 {
      signals := signals + [Flapping(|changes|)];
    }
    if slope < -0.01 && win[|win| - 1].bad == 0 && exists k :: 0 <= k < |win| - 1 && win[k].bad >= 1 {
      signals := signals + [Recovering];
    }
  }

  // ------------------------------------------------------------------- what the signals can say

  predicate OldestFirst(win: seq<Run>) {
    forall i, j :: 0 <= i < j < |win| ==> win[i].ended <= win[j].ended
  }

  predicate NeverImproves(win: seq<Run>) {
    forall i, j :: 0 <= i < j < |win| ==> win[i].bad <= win[j].bad
  }

  predicate NeverWorsens(win: seq<Run>) {
    forall i, j :: 0 <= i < j < |win| ==> win[i].bad >= win[j].bad
  }

  lemma TrendFollowsVerdicts(win: seq<Run>)
    requires OldestFirst(win)
    ensures NeverImproves(win) ==> Trend(win) >= 0.0
    ensures NeverWorsens(win) ==> Trend(win) <= 0.0
  {
    DaysAscend(win);
    SlopeFollowsOrder(Days(win), Levels(win));
  }

  lemma DaysAscend(win: seq<Run>)
    requires OldestFirst(win)
    ensures Ascending(Days(win))
  {
    forall i, j | 0 <= i < j < |win| ensures Days(win)[i] <= Days(win)[j] {
      Quotient(win[i].ended, win[j].ended);
    }
  }

  lemma Quotient(a: int, b: int)
    requires a <= b
    ensures a as real / 86400.0 <= b as real / 86400.0
  {
  }

  /** With three verdicts, a window that only worsens or only improves changes at most twice. */
  lemma {:induction false} MonotoneChangesFew(win: seq<Run>)
    requires win != [] && forall k :: 0 <= k < |win| ==> win[k].bad <= 2
    ensures NeverImproves(win) ==> |Changes(win)| <= win[|win| - 1].bad
    ensures NeverWorsens(win) ==> |Changes(win)| <= 2 - win[|win| - 1].bad
  {
    if |win| > 1 {
      MonotoneChangesFew(win[..|win| - 1]);
    }
  }

  /** What each signal needs. */
  lemma SignalMeans(win: seq<Run>, horizon: int, chronicRuns: nat, s: Signal)
    requires s in Signals(win, horizon, chronicRuns)
    ensures |win| >= 2
    ensures s.Regression? ==> Regressed(win)
    ensures s.Degrading? || s.Projected? ==> Trend(win) > 0.01
    ensures s.Flapping? ==> |Changes(win)| >= 3
    ensures s.Recovering? ==> Trend(win) < -0.01
  {
    TrendingMeans(win, Trend(win), horizon, s);
    SettlingMeans(win, Trend(win), s);
  }

  lemma TrendingMeans(win: seq<Run>, slope: real, horizon: int, s: Signal)
    requires win != []
    ensures s in Trending(win, slope, horizon) ==> (s.Degrading? || s.Projected?) && slope > 0.01
  {
  }

  lemma SettlingMeans(win: seq<Run>, slope: real, s: Signal)
    requires win != []
    ensures s in Settling(win, slope) ==> (s.Flapping? && |Changes(win)| >= 3) || (s.Recovering? && slope < -0.01)
  {
  }

  /** A window that never improves is never called recovering, or flapping. */
  lemma NeverImprovingNeverRecovers(win: seq<Run>, horizon: int, chronicRuns: nat, s: Signal)
    requires OldestFirst(win) && NeverImproves(win) && forall k :: 0 <= k < |win| ==> win[k].bad <= 2
    requires s in Signals(win, horizon, chronicRuns)
    ensures !s.Recovering? && !s.Flapping?
  {
    SignalMeans(win, horizon, chronicRuns, s);
    TrendFollowsVerdicts(win);
    MonotoneChangesFew(win);
  }

  /** A window that never worsens is never called regressed, degrading, projected to go red, or flapping. */
  lemma NeverWorseningNeverAlarms(win: seq<Run>, horizon: int, chronicRuns: nat, s: Signal)
    requires OldestFirst(win) && NeverWorsens(win) && forall k :: 0 <= k < |win| ==> win[k].bad <= 2
    requires s in Signals(win, horizon, chronicRuns)
    ensures s.Chronic? || s.Recovering?
  {
    SignalMeans(win, horizon, chronicRuns, s);
    TrendFollowsVerdicts(win);
    MonotoneChangesFew(win);
    RegressedIffWorse(win);
  }

  /** A regression is signalled exactly when the run before the current streak was better. */
  lemma RegressedIffWorse(win: seq<Run>)
    requires win != []
    ensures var n := StreakLength(win);
            Regressed(win) <==> n < |win| && win[|win| - n - 1].bad < win[|win| - 1].bad
  {
    LastChangeStartsStreak(win, StreakLength(win));
  }
}
