/**
 Each signal said of the runs themselves (collectors/insights.py).
 */
module InsightSignals {
  import opened Results
  import opened Insights

  /** Green, amber and red are worse and worse; without a verdict a failed or timed-out run is as bad as red. */
  lemma VerdictsAscend(g: Entry, a: Entry, r: Entry, none: Entry)
    requires g.verdict == "green" && a.verdict == "amber" && r.verdict == "red"
    requires none.verdict != "green" && none.verdict != "amber" && none.verdict != "red"
    ensures Ordinal(g) < Ordinal(a) < Ordinal(r)
    ensures Ordinal(none) == if none.status == "failed" || none.status == "timeout" then Ordinal(r) else Ordinal(g)
  {
  }

  /** The window holds, in order, the runs with a readable end at the cutoff or later, and no others. */
  lemma {:induction false} WindowHolds(history: seq<Entry>, cutoff: int, run: Run)
    ensures run in Window(history, cutoff) <==>
      exists e :: e in history && e.ended == Some(run.ended) && cutoff <= run.ended && Ordinal(e) == run.bad
  {
    if history != [] {
      assert history == [history[0]] + history[1..];
      WindowHolds(history[1..], cutoff, run);
    }
  }

  lemma {:induction false} WindowOfMore(a: seq<Entry>, b: seq<Entry>, cutoff: int)
    ensures Window(a + b, cutoff) == Window(a, cutoff) + Window(b, cutoff)
  {
    if a == [] {
      assert a + b == b;
    } else {
      assert (a + b)[1..] == a[1..] + b;
      WindowOfMore(a[1..], b, cutoff);
    }
  }

  // ------------------------------------------------------------------- changes

  predicate ChangesAt(win: seq<Run>, k: int) {
    0 < k < |win| && win[k].bad != win[k - 1].bad
  }

  function ChangePlaces(win: seq<Run>): set<int> {
    set k | 0 < k < |win| && ChangesAt(win, k)
  }

  /** The number of changes is the number of runs whose verdict is not that of the run before. */
  lemma {:induction false} ChangesCount(win: seq<Run>)
    ensures |Changes(win)| == |ChangePlaces(win)|
  {
    if |win| >= 2 {
      var n := |win| - 1;
      var init := win[..n];
      ChangesCount(init);
      if ChangesAt(win, n) {
        assert ChangePlaces(win) == ChangePlaces(init) + {n};
      } else {
        assert ChangePlaces(win) == ChangePlaces(init);
      }
    }
  }

  // ------------------------------------------------------------------- the signals

  /** The current streak began at `k`, and is worse than what was before it. */
  ghost predicate WorsenedAt(win: seq<Run>, k: int) {
    && 0 < k < |win| && win[k - 1].bad < win[k].bad
    && forall j :: k <= j < |win| ==> win[j].bad == win[k].bad
  }

  lemma WorsenedIff(win: seq<Run>)
    requires win != []
    ensures Regressed(win) <==> exists k :: WorsenedAt(win, k)
    ensures forall k :: WorsenedAt(win, k) ==>
      var last := Changes(win)[|Changes(win)| - 1];
      Changes(win) != [] && last == Change(win[k - 1].bad, win[k].bad, win[k].ended)
  {
    var n := StreakLength(win);
    RegressedIffWorse(win);
    LastChangeStartsStreak(win, n);
    forall k | WorsenedAt(win, k)
      ensures k == |win| - n
    {
      assert IsStreak(win, |win| - k);
      StreakIsUnique(win, |win| - k);
    }
    assert n < |win| && win[|win| - n - 1].bad < win[|win| - 1].bad ==> WorsenedAt(win, |win| - n);
  }

  /** What each signal says of the runs in the window and of their slope. */
  ghost predicate IsCalledFor(win: seq<Run>, trend: real, horizon: int, chronicRuns: nat, s: Signal)
    requires win != []
  {
    var tip := win[|win| - 1].bad;
    match s
    case Regression(was, became, when) =>
      exists k :: WorsenedAt(win, k) && was == win[k - 1].bad && became == win[k].bad && when == win[k].ended
    case Chronic(bad, runs, since) =>
      1 <= bad == tip && chronicRuns <= runs && IsStreak(win, runs) && since == win[|win| - runs].ended
    case Degrading(slope) => slope == trend > 0.01 && tip < 2 && forall k :: !WorsenedAt(win, k)
    case Projected(days) =>
      trend > 0.01 && tip < 2 && days == (2 - tip) as real / trend <= horizon as real
    case Flapping(changes) => changes == |ChangePlaces(win)| >= 3
    case Recovering => trend < -0.01 && tip == 0 && exists k :: 0 <= k < |win| - 1 && win[k].bad >= 1
  }

  /** A window of at least two runs gives a signal exactly when the runs call for it. */
  lemma SignalIffCalledFor(win: seq<Run>, horizon: int, chronicRuns: nat, s: Signal)
    ensures s in Signals(win, horizon, chronicRuns) <==>
      |win| >= 2 && IsCalledFor(win, Trend(win), horizon, chronicRuns, s)
  {
    if |win| >= 2 {
      SteadyIff(win, Trend(win), horizon, chronicRuns, s);
      TrendingIff(win, Trend(win), horizon, chronicRuns, s);
      SettlingIff(win, Trend(win), horizon, chronicRuns, s);
    }
  }

  lemma RegressionIff(win: seq<Run>, trend: real, horizon: int, chronicRuns: nat, s: Signal)
    requires win != [] && s.Regression?
    ensures IsCalledFor(win, trend, horizon, chronicRuns, s) <==>
      Regressed(win) && Change(s.was, s.became, s.when) == Changes(win)[|Changes(win)| - 1]
  {
    WorsenedIff(win);
  }

  lemma ChronicIff(win: seq<Run>, trend: real, horizon: int, chronicRuns: nat, s: Signal)
    requires win != [] && s.Chronic?
    ensures IsCalledFor(win, trend, horizon, chronicRuns, s) <==>
      var n, tip := StreakLength(win), win[|win| - 1].bad;
      tip >= 1 && n >= chronicRuns && s == Chronic(tip, n, win[|win| - n].ended)
  {
    if IsCalledFor(win, trend, horizon, chronicRuns, s) {
      StreakIsUnique(win, s.runs);
    }
  }

  lemma SteadyIff(win: seq<Run>, trend: real, horizon: int, chronicRuns: nat, s: Signal)
    requires win != []
    ensures s in Steady(win, chronicRuns) <==>
      (s.Regression? || s.Chronic?) && IsCalledFor(win, trend, horizon, chronicRuns, s)
  {
    if s.Regression? {
      RegressionIff(win, trend, horizon, chronicRuns, s);
    } else if s.Chronic? {
      ChronicIff(win, trend, horizon, chronicRuns, s);
    }
  }

  lemma TrendingIff(win: seq<Run>, trend: real, horizon: int, chronicRuns: nat, s: Signal)
    requires win != []
    ensures s in Trending(win, trend, horizon) <==>
      (s.Degrading? || s.Projected?) && IsCalledFor(win, trend, horizon, chronicRuns, s)
  {
    WorsenedIff(win);
  }

  lemma SettlingIff(win: seq<Run>, trend: real, horizon: int, chronicRuns: nat, s: Signal)
    requires win != []
    ensures s in Settling(win, trend) <==>
      (s.Flapping? || s.Recovering?) && IsCalledFor(win, trend, horizon, chronicRuns, s)
  {
    ChangesCount(win);
  }
}
