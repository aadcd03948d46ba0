/**
 The state of one project and cadence, judged from its receipts: staleness, amber aging and the
 current streak (collectors/brief.py; `streak_start` in collectors/escalations.py).
 */
module Brief {
  import opened Results
  import opened Receipts
  import opened Cron
  import Recurrence

  /**
   What a cadence file says: the minutes until stale, or the error of reading its schedule, if it
   has one; and the days until amber is red.
   */
  datatype Meta = Meta(schedule: Option<Result<nat>>, amberLimit: Option<nat>) {
    predicate StalesAfter(minutes: nat) {
      schedule == Some(Success(minutes))
    }
  }

  datatype Effective = NoRuns | Stale | EffectivelyRed | EffectivelyAmber | EffectivelyGreen

  datatype Analysis = Analysis(effective: Effective, needsYou: bool)

  method StaleAfterMinutes(schedule: Option<Spec>) returns (r: Option<nat>)
    ensures r.Some? <==> schedule.Some? && Parse(schedule.value).Success?
    ensures r.Some? ==>
      exists longest: nat :: r.value == 2 * longest && IsMaxInterval(Parse(schedule.value).value, 40, longest)
  {
    if schedule.None? || Parse(schedule.value).Failure? {
      return None;
    }
    var longest := MaxInterval(Parse(schedule.value).value, 40);
    r := Some(2 * longest);
  }

  // ------------------------------------------------------------------- runs of receipts at the tip

  /** Where the unbroken run of receipts satisfying `p` that ends at the tip begins; the tip is always in it. */
  function RunStart(h: History, p: Receipt -> bool): (start: nat)
    requires h != []
    ensures start < |h|
    ensures forall i :: start <= i < |h| - 1 ==> p(h[i])
    ensures start > 0 ==> !p(h[start - 1])
  {
    if |h| == 1 || !p(h[|h| - 2]) then |h| - 1
    else RunStart(h[..|h| - 1], p)
  }

  function IsAmber(): Receipt -> bool {
    (r: Receipt) => r.verdict == Amber
  }

  function NotGreen(): Receipt -> bool {
    (r: Receipt) => r.verdict != Green && !r.status.Locked? && !r.status.Skipped?
  }

  method AmberRunStart(h: History) returns (start: Option<Receipt>)
    ensures start == if h == [] || h[|h| - 1].verdict != Amber then None else Some(h[RunStart(h, IsAmber())])
  {
    if h == [] || h[|h| - 1].verdict != Amber {
      return None;
    }
    var k := |h| - 1;
    while k > 0 && h[k - 1].verdict == Amber
      invariant 0 <= k < |h|
      invariant forall i :: k <= i < |h| ==> h[i].verdict == Amber
    {
      k := k - 1;
    }
    RunStartIsUnique(h, IsAmber(), k);
    start := Some(h[k]);
  }

  method StreakStart(h: History) returns (start: Receipt)
    requires h != []
    ensures start == h[RunStart(h, NotGreen())]
  {
    var k := |h| - 1;
    while k > 0 && h[k - 1].verdict != Green && !h[k - 1].status.Locked? && !h[k - 1].status.Skipped?
      invariant 0 <= k < |h|
      invariant forall i :: k <= i < |h| - 1 ==> NotGreen()(h[i])
    {
      k := k - 1;
    }
    RunStartIsUnique(h, NotGreen(), k);
    start := h[k];
  }

  lemma RunStartIsUnique(h: History, p: Receipt -> bool, k: nat)
    requires k < |h| && (forall i :: k <= i < |h| - 1 ==> p(h[i])) && (k > 0 ==> !p(h[k - 1]))
    ensures RunStart(h, p) == k
  {
    var start := RunStart(h, p);
  }

  /** One more receipt continues the run if the old tip belonged to it, and else starts a new one. */
  lemma RunStartOfMore(h: History, p: Receipt -> bool, r: Receipt)
    requires h != []
    ensures RunStart(h + [r], p) == if p(h[|h| - 1]) then RunStart(h, p) else |h|
  {
    assert (h + [r])[..|h|] == h;
  }

  /** Further receipts continue the run the old tip belonged to exactly when all of them but the last belong to it. */
  lemma RunStartOfMany(h: History, p: Receipt -> bool, more: History)
    requires h != [] && p(h[|h| - 1])
    ensures RunStart(h + more, p) == RunStart(h, p) <==> forall k :: 0 <= k < |more| - 1 ==> p(more[k])
    ensures RunStart(h + more, p) != RunStart(h, p) ==> RunStart(h + more, p) > |h|
  {
    var all, start := h + more, RunStart(h, p);
    forall k | 0 <= k < |more|
      ensures all[|h| + k] == more[k]
    {
    }
    if forall k :: 0 <= k < |more| - 1 ==> p(more[k]) {
      RunStartIsUnique(all, p, start);
    } else {
      var k :| 0 <= k < |more| - 1 && !p(more[k]);
      assert !p(all[|h| + k]) && RunStart(all, p) > |h| + k;
    }
  }

  // ------------------------------------------------------------------- judging a pair

  predicate IsStale(h: History, m: Meta, now: int)
    requires h != []
  {
    m.schedule.Some? && m.schedule.value.Success? && now - h[|h| - 1].ended > m.schedule.value.value * 60
  }

  /** Whole days, rounded down as `timedelta.days` does. */
  function WholeDays(seconds: int): int {
    seconds / 86400
  }

  function Analyze(h: History, m: Meta, now: int): Analysis {
    if h == [] then
      if m.schedule.None? then Analysis(NoRuns, false) else Analysis(Stale, true)
    else
      var tip := h[|h| - 1];
      if IsStale(h, m, now) then Analysis(Stale, true)
      else if tip.verdict == Red || tip.status.Failed? || tip.status.Timeout? then Analysis(EffectivelyRed, true)
      else if tip.verdict == Amber then
        var days := WholeDays(now - h[RunStart(h, IsAmber())].ended);
        if m.amberLimit.Some? && m.amberLimit.value < days then Analysis(EffectivelyRed, true)
        else if m.amberLimit.Some? && m.amberLimit.value == days then Analysis(EffectivelyAmber, true)
        else Analysis(EffectivelyAmber, false)
      else Analysis(EffectivelyGreen, false)
  }

  predicate IsEffectivelyRed(h: History, m: Meta, now: int) {
    Analyze(h, m, now).effective == EffectivelyRed
  }

  /** `k` begins the unbroken amber run that reaches the tip. */
  ghost predicate IsFirstAmber(h: History, k: int) {
    0 <= k < |h| && (forall i :: k <= i < |h| ==> h[i].verdict == Amber) && (k > 0 ==> h[k - 1].verdict != Amber)
  }

  /** The unbroken amber run at the tip began at least so many days ago. */
  ghost predicate AmberFor(h: History, now: int, days: int) {
    exists k :: IsFirstAmber(h, k) && IsAged(now - h[k].ended, days)
  }

  predicate IsAged(seconds: int, days: int) {
    seconds >= days * 86400
  }

  lemma AmberRunIsUnique(h: History, k: int)
    requires IsFirstAmber(h, k)
    ensures k == RunStart(h, IsAmber())
  {
    assert forall i :: k <= i < |h| - 1 ==> IsAmber()(h[i]);
    RunStartIsUnique(h, IsAmber(), k);
  }

  lemma RunStartIsFirstAmber(h: History)
    requires h != [] && h[|h| - 1].verdict == Amber
    ensures IsFirstAmber(h, RunStart(h, IsAmber()))
  {
    var k := RunStart(h, IsAmber());
    assert forall i :: k <= i < |h| - 1 ==> IsAmber()(h[i]);
    assert k > 0 ==> !IsAmber()(h[k - 1]);
  }

  lemma AmberForDays(h: History, now: int, days: int)
    requires h != [] && h[|h| - 1].verdict == Amber
    ensures AmberFor(h, now, days) <==> WholeDays(now - h[RunStart(h, IsAmber())].ended) >= days
  {
    var start := RunStart(h, IsAmber());
    RunStartIsFirstAmber(h);
    DaysReached(now - h[start].ended, days);
    if AmberFor(h, now, days) {
      var k :| IsFirstAmber(h, k) && IsAged(now - h[k].ended, days);
      AmberRunIsUnique(h, k);
    }
  }

  lemma DaysReached(seconds: int, days: int)
    ensures days <= WholeDays(seconds) <==> IsAged(seconds, days)
  {
  }

  /** The last receipt is older than the cadence's readable schedule allows. */
  ghost predicate IsLate(h: History, m: Meta, now: int)
    requires h != []
  {
    exists minutes: nat :: m.StalesAfter(minutes) && now > h[|h| - 1].ended + minutes * 60
  }

  /** The last receipt is red, failed or timed out, or an amber run has lasted longer than its limit of whole days. */
  ghost predicate HasGoneRed(h: History, m: Meta, now: int)
    requires h != []
  {
    var tip := h[|h| - 1];
    || tip.verdict == Red || tip.status == Failed || tip.status == Timeout
    || (tip.verdict == Amber && m.amberLimit.Some? && AmberFor(h, now, m.amberLimit.value + 1))
  }

  /** How a pair with receipts is judged, in terms of the receipts. */
  lemma JudgedFromReceipts(h: History, m: Meta, now: int)
    requires h != []
    ensures var tip, r := h[|h| - 1], Analyze(h, m, now);
            && (r.effective == Stale <==> IsLate(h, m, now))
            && (r.effective == EffectivelyRed <==> !IsLate(h, m, now) && HasGoneRed(h, m, now))
            && (r.effective == EffectivelyAmber <==>
                  !IsLate(h, m, now) && !HasGoneRed(h, m, now) && tip.verdict == Amber)
            && (r.effective == EffectivelyGreen <==>
                  !IsLate(h, m, now) && tip.verdict == Green && tip.status != Failed && tip.status != Timeout)
  {
    var tip := h[|h| - 1];
    LateIsStale(h, m, now);
    if tip.verdict == Amber && m.amberLimit.Some? {
      AmberForDays(h, now, m.amberLimit.value + 1);
    }
  }

  lemma LateIsStale(h: History, m: Meta, now: int)
    requires h != []
    ensures IsLate(h, m, now) <==> IsStale(h, m, now)
  {
    if IsStale(h, m, now) {
      assert m.StalesAfter(m.schedule.value.value);
    }
  }

  /** Who is called for: the operator, for a stale or red pair and on the day before an amber one turns red. */
  lemma NeedsOperatorIff(h: History, m: Meta, now: int)
    ensures h != [] ==>
      var r := Analyze(h, m, now);
      r.needsYou <==> IsLate(h, m, now) || HasGoneRed(h, m, now)
                      || (h[|h| - 1].verdict == Amber && m.amberLimit.Some? && AmberFor(h, now, m.amberLimit.value))
    ensures h == [] ==>
      Analyze(h, m, now) == if m.schedule.Some? then Analysis(Stale, true) else Analysis(NoRuns, false)
  {
    if h != [] {
      LateIsStale(h, m, now);
      if h[|h| - 1].verdict == Amber && m.amberLimit.Some? {
        AmberForDays(h, now, m.amberLimit.value);
        AmberForDays(h, now, m.amberLimit.value + 1);
      }
    }
  }

  /**
   Amber ages from the first amber of its unbroken run: a fresh amber tip that neither failed nor timed
   out counts as red exactly when that first receipt is at least one day more than the limit old.
   */
  lemma AmberAgesFromFirst(h: History, m: Meta, now: int)
    requires h != [] && h[|h| - 1].verdict == Amber && !IsLate(h, m, now)
    requires h[|h| - 1].status != Failed && h[|h| - 1].status != Timeout
    ensures IsEffectivelyRed(h, m, now) <==>
      m.amberLimit.Some? && exists k :: IsFirstAmber(h, k) && now - h[k].ended >= (m.amberLimit.value + 1) * 86400
  {
    JudgedFromReceipts(h, m, now);
    if m.amberLimit.Some? {
      forall k | IsFirstAmber(h, k)
        ensures IsAged(now - h[k].ended, m.amberLimit.value + 1) <==>
          now - h[k].ended >= (m.amberLimit.value + 1) * 86400
      {
      }
    }
  }

  // ------------------------------------------------------------------- staleness never cries wolf

  ghost predicate Sorted(h: History) {
    forall i, j :: 0 <= i < j < |h| ==> h[i].ended <= h[j].ended
  }

  /** Every fire from `first` on that lies `slack` minutes back has left a receipt within those minutes. */
  ghost predicate Answered(c: Cron, h: History, slack: nat, first: nat, now: int) {
    forall f: nat :: first <= f && Fires(c)(f) && (f + slack) * 60 <= now ==>
      exists i :: 0 <= i < |h| && f * 60 <= h[i].ended <= (f + slack) * 60
  }

  /** A pair whose receipts come within one longest gap of each fire since its first is never called stale. */
  lemma NeverStaleWhileAnswered(c: Cron, h: History, longest: nat, amberLimit: Option<nat>, first: nat, now: int)
    requires Weekly(c) && IsMaxInterval(c, 40, longest)
    requires Sorted(h) && Answered(c, h, longest, first, now)
    requires Fires(c)(first) && (first + longest) * 60 <= now
    ensures h != [] && !IsStale(h, Meta(Some(Success(2 * longest)), amberLimit), now)
  {
    var due := now / 60 - longest;
    var f := Recurrence.Latest(Fires(c), first, due).value;
    var gap := MaxIntervalBoundsEveryWait(c, longest, f);
    assert due < f + gap;
    var i :| 0 <= i < |h| && f * 60 <= h[i].ended <= (f + longest) * 60;
    assert h[i].ended <= h[|h| - 1].ended;
  }
}
