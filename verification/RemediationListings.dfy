/**
 What one scan does about a loop that a project lists several times (collectors/remediate.py): the plan is
 made before anything is enqueued, so every listing sees the same queue.
 */
module RemediationListings {
  import opened Results
  import opened Decisions
  import opened Receipts
  import opened Remediation
  import opened RemediationRuns

  /** How often the targets name the pair. */
  function Listings(targets: seq<Target>, p: Pair): nat {
    if targets == [] then 0
    else
      var n := |targets| - 1;
      Listings(targets[..n], p) + if targets[n].Pair() == p then 1 else 0
  }

  predicate Dispatches(a: Action, p: Pair) {
    a.move == Dispatch && a.target.Pair() == p
  }

  function DispatchesFor(actions: seq<Action>, p: Pair): nat {
    if actions == [] then 0
    else
      var n := |actions| - 1;
      DispatchesFor(actions[..n], p) + if Dispatches(actions[n], p) then 1 else 0
  }

  lemma DispatchesOfMore(actions: seq<Action>, more: seq<Action>, p: Pair)
    requires |more| <= 1
    ensures DispatchesFor(actions + more, p)
         == DispatchesFor(actions, p) + if more != [] && Dispatches(more[0], p) then 1 else 0
  {
    if more == [] {
      assert actions + more == actions;
    } else {
      assert (actions + more)[..|actions|] == actions;
    }
  }

  /** Below the cap and with nothing pending, every listing of a red loop plans a dispatch of its own. */
  lemma {:induction false} PlanDispatchesEachListing(q: Queue, corpus: Corpus, targets: seq<Target>, p: Pair, cap: nat)
    requires forall t :: t in targets && t.Pair() == p ==> t.plan.maxAttempts == cap
    requires var h := HistoryOf(corpus, p);
             && h != [] && IsRed(h[|h| - 1])
             && PendingAttempts(q, p, LastGreenEnded(h)) == {} && |Attempts(q, p, LastGreenEnded(h))| < cap
    ensures DispatchesFor(PlanOf(q, corpus, targets), p) == Listings(targets, p)
  {
    if targets != [] {
      var n := |targets| - 1;
      PlanDispatchesEachListing(q, corpus, targets[..n], p, cap);
      var more := ActionFor(q, HistoryOf(corpus, targets[n].Pair()), targets[n]);
      DispatchesOfMore(PlanOf(q, corpus, targets[..n]), more, p);
      assert targets[n] in targets;
    }
  }

  lemma ActedAttempts(q: Queue, a: Action, id: string, now: nat, p: Pair, since: Option<nat>)
    requires id !in q && NotLater(since, Some(now))
    ensures Attempts(Acted(q, a, id, now), p, since) == Attempts(q, p, since) + if Dispatches(a, p) then {id} else {}
  {
    var q' := Acted(q, a, id, now);
    forall i
      ensures i in Attempts(q', p, since) <==> i in Attempts(q, p, since) || (Dispatches(a, p) && i == id)
    {
      if a.move == Dispatch {
        assert IsFixFor(FixDecision(a, now), p) <==> a.target.Pair() == p;
      }
    }
  }

  lemma {:induction false} ActingAddsDispatches(q: Queue, actions: seq<Action>, ids: seq<string>, now: nat, p: Pair,
                                                since: Option<nat>)
    requires FreshIds(q, ids) && |actions| <= |ids| && NotLater(since, Some(now))
    ensures |Attempts(ActedAll(q, actions, ids, now), p, since)| == |Attempts(q, p, since)| + DispatchesFor(actions, p)
  {
    if actions != [] {
      var n := |actions| - 1;
      var before := ActedAll(q, actions[..n], ids, now);
      ActingAddsDispatches(q, actions[..n], ids, now, p, since);
      ActingGainsOnly(q, actions[..n], ids, now);
      ActedAttempts(before, actions[n], ids[n], now, p, since);
    }
  }

  /**
   One scan adds as many attempts to a red pair below its cap as the pair is listed, and so stays within the
   cap exactly if that many still fit.
   */
  lemma ScanAddsOnePerListing(q: Queue, corpus: Corpus, targets: seq<Target>, ids: seq<string>, now: nat, p: Pair,
                              cap: nat)
    requires FreshIds(q, ids) && |PlanOf(q, corpus, targets)| <= |ids|
    requires forall t :: t in targets && t.Pair() == p ==> t.plan.maxAttempts == cap
    requires var h := HistoryOf(corpus, p);
             && h != [] && IsRed(h[|h| - 1]) && NotLater(LastGreenEnded(h), Some(now))
             && PendingAttempts(q, p, LastGreenEnded(h)) == {} && |Attempts(q, p, LastGreenEnded(h))| < cap
    ensures var since := LastGreenEnded(HistoryOf(corpus, p));
            var after := ActedAll(q, PlanOf(q, corpus, targets), ids, now);
            && |Attempts(after, p, since)| == |Attempts(q, p, since)| + Listings(targets, p)
            && (|Attempts(after, p, since)| <= cap <==> |Attempts(q, p, since)| + Listings(targets, p) <= cap)
  {
    PlanDispatchesEachListing(q, corpus, targets, p, cap);
    ActingAddsDispatches(q, PlanOf(q, corpus, targets), ids, now, p, LastGreenEnded(HistoryOf(corpus, p)));
  }

  /** For one: a loop listed twice gets one fix more than its cap when one attempt is left. */
  lemma ListedTwiceBreaksCap(q: Queue, corpus: Corpus, t: Target, ids: seq<string>, now: nat)
    requires FreshIds(q, ids) && |PlanOf(q, corpus, [t, t])| <= |ids|
    requires var h := HistoryOf(corpus, t.Pair());
             && h != [] && IsRed(h[|h| - 1]) && NotLater(LastGreenEnded(h), Some(now))
             && PendingAttempts(q, t.Pair(), LastGreenEnded(h)) == {}
             && |Attempts(q, t.Pair(), LastGreenEnded(h))| + 1 == t.plan.maxAttempts
    ensures var since := LastGreenEnded(HistoryOf(corpus, t.Pair()));
            |Attempts(ActedAll(q, PlanOf(q, corpus, [t, t]), ids, now), t.Pair(), since)| == t.plan.maxAttempts + 1
  {
    assert [t, t][..1] == [t] && [t][..0] == [];
    assert Listings([t], t.Pair()) == 1;
    ScanAddsOnePerListing(q, corpus, [t, t], ids, now, t.Pair(), t.plan.maxAttempts);
  }
}
