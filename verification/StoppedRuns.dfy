/**
 What the budget guard stops and what its receipts mean to the rest of the system (collectors/budget.py).
 */
module StoppedRuns {
  import opened Results
  import opened Receipts
  import opened Reaping
  import Brief
  import Remediation

  /** Of several breached limits the reason names the first: the clock, then tokens, then cost, then iterations. */
  lemma ReasonIsFirstBreached(l: Limits, u: Usage)
    ensures Exceeded(l, u) == Some(WallClock) <==> ClockIsUp(l, u)
    ensures Exceeded(l, u) == Some(Tokens) <==> !ClockIsUp(l, u) && TokensAreUp(l, u)
    ensures Exceeded(l, u) == Some(Cost) <==> !ClockIsUp(l, u) && !TokensAreUp(l, u) && CostIsUp(l, u)
    ensures Exceeded(l, u) == Some(Iterations) <==>
      !ClockIsUp(l, u) && !TokensAreUp(l, u) && !CostIsUp(l, u) && IterationsAreUp(l, u)
  {
  }

  predicate ClockIsUp(l: Limits, u: Usage) {
    match (l.minutes, u.minutes)
    case (Some(most), Some(used)) => used >= most as real
    case _ => false
  }

  predicate TokensAreUp(l: Limits, u: Usage) {
    match (l.tokens, u.tokens)
    case (Some(most), Some(used)) => used >= most
    case _ => false
  }

  predicate CostIsUp(l: Limits, u: Usage) {
    match (l.cost, u.cost)
    case (Some(most), Some(used)) => used >= most
    case _ => false
  }

  predicate IterationsAreUp(l: Limits, u: Usage) {
    match (l.iterations, u.iterations)
    case (Some(most), Some(used)) => used >= most
    case _ => false
  }

  /**
   A stopped run's receipt is amber.  As the last of its pair it is judged amber, or red once the amber run it
   belongs to has lasted too long, and never green; it moves no last green, so no streak ends with it; and it
   is no reason to remediate.
   */
  lemma StoppedRunIsAmber(h: History, lc: Launch, ended: nat, m: Brief.Meta, now: int)
    requires !Brief.IsLate(h + [StoppedReceipt(lc, ended)], m, now)
    ensures var r, after := StoppedReceipt(lc, ended), h + [StoppedReceipt(lc, ended)];
            var judged := Brief.Analyze(after, m, now).effective;
            && r.run == lc.run && r.ended == ended && r.status == Stopped
            && (judged == Brief.EffectivelyAmber || judged == Brief.EffectivelyRed)
            && (judged == Brief.EffectivelyRed <==>
                  m.amberLimit.Some? && Brief.AmberFor(after, now, m.amberLimit.value + 1))
            && Remediation.LastGreenEnded(after) == Remediation.LastGreenEnded(h)
            && !Remediation.IsRed(r) && Brief.NotGreen()(r)
  {
    var after := h + [StoppedReceipt(lc, ended)];
    Brief.JudgedFromReceipts(after, m, now);
    assert after[..|after| - 1] == h;
  }
}
