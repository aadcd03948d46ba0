/**
 Whole runs of remediation: receipts arrive, scans dispatch fixes, and sessions, operators and
 garbage collection move the decisions (collectors/remediate.py).
 */
module RemediationRuns {
  import opened Results
  import opened Decisions
  import opened DecisionRuns
  import opened Remediation
  import opened Receipts

  /** The queue, the receipts, and every fix ever dispatched, as it was then. */
  datatype State = State(queue: Queue, corpus: Corpus, dispatched: map<string, Decision>)

  const START := State(map[], map[], map[])

  datatype Event =
    | Received(pair: Pair, place: nat, receipt: Receipt)
    | Scanned(targets: seq<Target>, ids: seq<string>, now: nat)
    | OtherEnqueued(id: string, d: Decision)
    | Moved(op: Op)

  function Filed(h: History, place: nat, r: Receipt): History
    requires place <= |h|
  {
    h[..place] + [r] + h[place..]
  }

  predicate DistinctTargets(targets: seq<Target>) {
    forall i, j :: 0 <= i < j < |targets| ==> targets[i].Pair() != targets[j].Pair()
  }

  /** Receipts are kept in order of `ended`; identifiers are fresh; only remediation tags its decisions. */
  predicate Enabled(s: State, e: Event, caps: map<Pair, nat>) {
    match e
    case Received(pair, place, r) =>
      place <= |HistoryOf(s.corpus, pair)| && InOrder(Filed(HistoryOf(s.corpus, pair), place, r))
    case Scanned(targets, ids, now) =>
      && DistinctTargets(targets)
      && (forall t :: t in targets ==> t.Pair() in caps && caps[t.Pair()] == t.plan.maxAttempts)
      && |PlanOf(s.queue, s.corpus, targets)| <= |ids|
      && FreshIds(s.queue, ids) && FreshIds(s.dispatched, ids)
    case OtherEnqueued(id, d) => id !in s.queue && id !in s.dispatched && d.payload.tag == Plain
    case Moved(op) => !op.Enqueued?
  }

  ghost function Step(s: State, e: Event, caps: map<Pair, nat>): State
    requires Enabled(s, e, caps)
  {
    match e
    case Received(pair, place, r) =>
      s.(corpus := s.corpus[pair := Filed(HistoryOf(s.corpus, pair), place, r)])
    case Scanned(targets, ids, now) =>
      var after := ActedAll(s.queue, PlanOf(s.queue, s.corpus, targets), ids, now);
      s.(queue := after,
         dispatched := s.dispatched + map id | id in after && id !in s.queue && after[id].payload.tag.Fix? :: after[id])
    case OtherEnqueued(id, d) => s.(queue := s.queue[id := d])
    case Moved(op) => s.(queue := Next(World(s.queue, [], map[]), op).queue)
  }

  ghost function Since(s: State, p: Pair): Option<nat> {
    LastGreenEnded(HistoryOf(s.corpus, p))
  }

  ghost function Live(s: State, p: Pair): set<string> {
    Attempts(s.queue, p, Since(s, p))
  }

  ghost function Waiting(s: State, p: Pair): set<string> {
    PendingAttempts(s.queue, p, Since(s, p))
  }

  /** The fixes dispatched in the current streak, whatever became of them. */
  ghost function DispatchedInStreak(s: State, p: Pair): set<string> {
    FixesSince(s.dispatched, p, Since(s, p))
  }

  predicate SameNote(c: Decision, d: Decision) {
    && c.kind == Note && d.kind == Note && c.project == d.project
    && c.payload.tag == d.payload.tag && c.payload.tag.Capped?
  }

  ghost predicate NotesUnique(q: Queue) {
    forall a, b :: a in q && b in q && SameNote(q[a], q[b]) ==> a == b
  }

  ghost predicate Bounded(s: State, caps: map<Pair, nat>, p: Pair) {
    if p in caps then |Live(s, p)| <= caps[p] && |Waiting(s, p)| <= 1
    else Live(s, p) == {} && Waiting(s, p) == {}
  }

  /** Every fix in the queue was dispatched, and is what was dispatched but for its status. */
  ghost predicate Recorded(s: State) {
    && (forall id :: id in s.queue && s.queue[id].payload.tag.Fix? ==> id in s.dispatched)
    && (forall id :: id in s.queue && id in s.dispatched ==> Core(s.queue[id]) == s.dispatched[id])
  }

  ghost predicate Ordered(s: State) {
    forall p :: p in s.corpus ==> InOrder(s.corpus[p])
  }

  ghost predicate Good(s: State, caps: map<Pair, nat>) {
    Ordered(s) && Recorded(s) && NotesUnique(s.queue) && forall p :: Bounded(s, caps, p)
  }

  // ------------------------------------------------------------------- receipts and moves

  lemma SmallerSet(a: set<string>, b: set<string>)
    requires a <= b
    ensures |a| <= |b|
    decreases |a|
  {
    if a != {} {
      var x := Any(a);
      SmallerSet(a - {x}, b - {x});
    }
  }

  lemma LaterStreakHasFewer(q: Queue, p: Pair, since: Option<nat>, since': Option<nat>)
    requires NotLater(since, since')
    ensures |Attempts(q, p, since')| <= |Attempts(q, p, since)|
    ensures |PendingAttempts(q, p, since')| <= |PendingAttempts(q, p, since)|
  {
    SmallerSet(Attempts(q, p, since'), Attempts(q, p, since));
    SmallerSet(PendingAttempts(q, p, since'), PendingAttempts(q, p, since));
  }

  lemma SettlingHasFewer(q: Queue, q': Queue, p: Pair, since: Option<nat>)
    requires OnlySettles(q, q')
    ensures |Attempts(q', p, since)| <= |Attempts(q, p, since)|
    ensures |PendingAttempts(q', p, since)| <= |PendingAttempts(q, p, since)|
  {
    forall id | id in q' {
      CoreSame(q[id], q'[id]);
    }
    SmallerSet(Attempts(q', p, since), Attempts(q, p, since));
    SmallerSet(PendingAttempts(q', p, since), PendingAttempts(q, p, since));
  }

  lemma ReceivedKeepsBound(s: State, e: Event, caps: map<Pair, nat>, p: Pair)
    requires Ordered(s) && Bounded(s, caps, p) && e.Received? && Enabled(s, e, caps)
    ensures Bounded(Step(s, e, caps), caps, p)
  {
    if p == e.pair {
      var s' := Step(s, e, caps);
      ReceiptNeverMovesGreenBack(HistoryOf(s.corpus, p), e.place, e.receipt);
      LaterStreakHasFewer(s.queue, p, Since(s, p), Since(s', p));
    }
  }

  lemma CoreSame(c: Decision, d: Decision)
    requires Core(c) == Core(d)
    ensures c.project == d.project && c.kind == d.kind && c.payload == d.payload && c.created == d.created
  {
    assert Core(c).payload == Core(d).payload && Core(c).kind == Core(d).kind;
    assert Core(c).project == Core(d).project && Core(c).created == Core(d).created;
  }

  lemma SettlingKeepsRecords(s: State, q': Queue)
    requires OnlySettles(s.queue, q') && Recorded(s) && NotesUnique(s.queue)
    ensures Recorded(s.(queue := q')) && NotesUnique(q')
  {
    forall id | id in q' {
      CoreSame(s.queue[id], q'[id]);
    }
  }

  lemma OtherEnqueuedKeepsBound(s: State, e: Event, caps: map<Pair, nat>, p: Pair)
    requires Bounded(s, caps, p) && e.OtherEnqueued? && Enabled(s, e, caps)
    ensures Bounded(Step(s, e, caps), caps, p)
  {
    var s' := Step(s, e, caps);
    assert Live(s', p) == Live(s, p) && Waiting(s', p) == Waiting(s, p);
  }

  // ------------------------------------------------------------------- scans

  predicate DistinctActions(actions: seq<Action>) {
    forall i, j :: 0 <= i < j < |actions| ==> actions[i].target.Pair() != actions[j].target.Pair()
  }

  predicate PlannedFor(a: Action, q: Queue, corpus: Corpus) {
    [a] == ActionFor(q, HistoryOf(corpus, a.target.Pair()), a.target)
  }

  lemma {:induction false} PlanIsDistinct(q: Queue, corpus: Corpus, targets: seq<Target>)
    requires DistinctTargets(targets)
    ensures DistinctActions(PlanOf(q, corpus, targets))
    ensures forall a :: a in PlanOf(q, corpus, targets) ==> a.target in targets && PlannedFor(a, q, corpus)
  {
    if targets != [] {
      var n := |targets| - 1;
      PlanIsDistinct(q, corpus, targets[..n]);
      assert targets == targets[..n] + [targets[n]];
      var before := PlanOf(q, corpus, targets[..n]);
      forall i | 0 <= i < |before|
        ensures before[i].target.Pair() != targets[n].Pair()
      {
        assert before[i] in before;
      }
    }
  }

  predicate EnqueuedBy(a: Action, d: Decision, now: nat) {
    (a.move == Dispatch && d == FixDecision(a, now)) || (a.move == AtCap && d == NoteDecision(a, now))
  }

  ghost predicate Explained(id: string, d: Decision, actions: seq<Action>, ids: seq<string>, now: nat) {
    exists k :: 0 <= k < |actions| && k < |ids| && id == ids[k] && EnqueuedBy(actions[k], d, now)
  }

  /** What acting on a plan leaves: every decision there was, and new ones that its actions explain. */
  ghost predicate GainsOnly(q: Queue, q': Queue, actions: seq<Action>, ids: seq<string>, now: nat) {
    && (forall id :: id in q ==> id in q' && q'[id] == q[id])
    && (forall id :: id in q' && id !in q ==> Explained(id, q'[id], actions, ids, now))
  }

  lemma ExplainedByMore(id: string, d: Decision, actions: seq<Action>, a: Action, ids: seq<string>, now: nat)
    requires Explained(id, d, actions, ids, now)
    ensures Explained(id, d, actions + [a], ids, now)
  {
    var k :| 0 <= k < |actions| && k < |ids| && id == ids[k] && EnqueuedBy(actions[k], d, now);
    assert (actions + [a])[k] == actions[k];
  }

  lemma {:induction false} ActingGainsOnly(q: Queue, actions: seq<Action>, ids: seq<string>, now: nat)
    requires FreshIds(q, ids) && |actions| <= |ids|
    ensures GainsOnly(q, ActedAll(q, actions, ids, now), actions, ids, now)
    ensures forall i :: |actions| <= i < |ids| ==> ids[i] !in ActedAll(q, actions, ids, now)
  {
    if actions == [] {
      assert forall i :: 0 <= i < |ids| ==> ids[i] in ids;
    } else {
      var n := |actions| - 1;
      var init, a := actions[..n], actions[n];
      assert actions == init + [a];
      ActingGainsOnly(q, init, ids, now);
      var before, after := ActedAll(q, init, ids, now), ActedAll(q, actions, ids, now);
      assert after == Acted(before, a, ids[n], now);
      forall id | id in after && id !in q
        ensures Explained(id, after[id], actions, ids, now)
      {
        if id in before {
          ExplainedByMore(id, before[id], init, a, ids, now);
        } else {
          assert EnqueuedBy(actions[n], after[id], now) && id == ids[n];
        }
      }
    }
  }

  lemma {:induction false} ActingKeepsNotesUnique(q: Queue, actions: seq<Action>, ids: seq<string>, now: nat)
    requires FreshIds(q, ids) && |actions| <= |ids| && NotesUnique(q)
    ensures NotesUnique(ActedAll(q, actions, ids, now))
  {
    if actions != [] {
      var n := |actions| - 1;
      ActingKeepsNotesUnique(q, actions[..n], ids, now);
      ActingGainsOnly(q, actions[..n], ids, now);
      ActedKeepsNotesUnique(ActedAll(q, actions[..n], ids, now), actions[n], ids[n], now);
    }
  }

  lemma ActedKeepsNotesUnique(q: Queue, a: Action, id: string, now: nat)
    requires NotesUnique(q) && id !in q
    ensures NotesUnique(Acted(q, a, id, now))
  {
    var q' := Acted(q, a, id, now);
    if a.move == AtCap && !NoteExists(q, a) {
      forall other | other in q
        ensures !SameNote(q'[id], q[other]) && !SameNote(q[other], q'[id])
      {
        assert !IsNoteFor(q[other], a.target.project, a.target.parent, a.sourceRun);
      }
    }
  }

  /** The planned dispatch for a pair, if there is one. */
  lemma DispatchFor(actions: seq<Action>, p: Pair) returns (k: Option<nat>)
    requires DistinctActions(actions)
    ensures k.Some? ==> k.value < |actions| && actions[k.value].move == Dispatch && actions[k.value].target.Pair() == p
    ensures forall i :: 0 <= i < |actions| && actions[i].move == Dispatch && actions[i].target.Pair() == p ==>
      k == Some(i)
  {
    if i :| 0 <= i < |actions| && actions[i].move == Dispatch && actions[i].target.Pair() == p {
      k := Some(i);
      forall j | 0 <= j < |actions| && actions[j].target.Pair() == p
        ensures j == i
      {
      }
    } else {
      k := None;
    }
  }

  lemma GainsAtMostOneFix(q: Queue, q': Queue, actions: seq<Action>, ids: seq<string>, now: nat, p: Pair,
                          since: Option<nat>, k: Option<nat>)
    requires GainsOnly(q, q', actions, ids, now) && |actions| <= |ids|
    requires k.Some? ==> k.value < |actions|
    requires forall i :: 0 <= i < |actions| && actions[i].move == Dispatch && actions[i].target.Pair() == p ==>
      k == Some(i)
    ensures var gained := if k.Some? then {ids[k.value]} else {};
            && Attempts(q', p, since) <= Attempts(q, p, since) + gained
            && PendingAttempts(q', p, since) <= PendingAttempts(q, p, since) + gained
  {
    var gained := if k.Some? then {ids[k.value]} else {};
    forall id | id in q' && IsFixFor(q'[id], p)
      ensures (id in q && q[id] == q'[id]) || id in gained
    {
      if id !in q {
        var i :| 0 <= i < |actions| && i < |ids| && id == ids[i] && EnqueuedBy(actions[i], q'[id], now);
        assert actions[i].move == Dispatch && actions[i].target.Pair() == p;
      }
    }
  }

  lemma ScanKeepsBound(s: State, e: Event, caps: map<Pair, nat>, p: Pair)
    requires Bounded(s, caps, p) && e.Scanned? && Enabled(s, e, caps)
    ensures Bounded(Step(s, e, caps), caps, p)
  {
    var s' := Step(s, e, caps);
    var actions := PlanOf(s.queue, s.corpus, e.targets);
    PlanIsDistinct(s.queue, s.corpus, e.targets);
    ActingGainsOnly(s.queue, actions, e.ids, e.now);
    var k := DispatchFor(actions, p);
    GainsAtMostOneFix(s.queue, s'.queue, actions, e.ids, e.now, p, Since(s, p), k);
    if k.Some? {
      var a := actions[k.value];
      assert a in actions && PlannedFor(a, s.queue, s.corpus);
      assert a == ActionFor(s.queue, HistoryOf(s.corpus, p), a.target)[0];
      assert Waiting(s, p) == {} && |Live(s, p)| < a.target.plan.maxAttempts;
      SmallerSet(Live(s', p), Live(s, p) + {e.ids[k.value]});
      SmallerSet(Waiting(s', p), {e.ids[k.value]});
    } else {
      SmallerSet(Live(s', p), Live(s, p));
      SmallerSet(Waiting(s', p), Waiting(s, p));
    }
  }

  lemma ScanKeepsRecorded(s: State, e: Event, caps: map<Pair, nat>)
    requires Recorded(s) && e.Scanned? && Enabled(s, e, caps)
    ensures Recorded(Step(s, e, caps))
  {
    var s' := Step(s, e, caps);
    var actions := PlanOf(s.queue, s.corpus, e.targets);
    ActingGainsOnly(s.queue, actions, e.ids, e.now);
    forall id | id in s'.queue && id !in s.queue
      ensures id !in s.dispatched && Core(s'.queue[id]) == s'.queue[id]
    {
      NewIsFresh(s, e, s'.queue, actions, id);
    }
  }

  lemma NewIsFresh(s: State, e: Event, q: Queue, actions: seq<Action>, id: string)
    requires e.Scanned? && FreshIds(s.dispatched, e.ids) && id in q
    requires Explained(id, q[id], actions, e.ids, e.now)
    ensures id !in s.dispatched && Core(q[id]) == q[id]
  {
    var k :| 0 <= k < |actions| && k < |e.ids| && id == e.ids[k] && EnqueuedBy(actions[k], q[id], e.now);
    assert e.ids[k] in e.ids;
  }

  // ------------------------------------------------------------------- whole runs

  ghost function Reached(events: seq<Event>, caps: map<Pair, nat>): Option<State> {
    if events == [] then Some(START)
    else
      var before := Reached(events[..|events| - 1], caps);
      var e := events[|events| - 1];
      if before.Some? && Enabled(before.value, e, caps) then Some(Step(before.value, e, caps)) else None
  }

  lemma {:induction false} RunsStayGood(events: seq<Event>, caps: map<Pair, nat>)
    requires Reached(events, caps).Some?
    ensures Good(Reached(events, caps).value, caps)
  {
    if events != [] {
      var before := Reached(events[..|events| - 1], caps).value;
      var e := events[|events| - 1];
      RunsStayGood(events[..|events| - 1], caps);
      StepKeepsGood(before, e, caps);
    }
  }

  lemma StepKeepsGood(s: State, e: Event, caps: map<Pair, nat>)
    requires Good(s, caps) && Enabled(s, e, caps)
    ensures Good(Step(s, e, caps), caps)
  {
    var s' := Step(s, e, caps);
    if e.Moved? {
      StepOnlySettles(World(s.queue, [], map[]), e.op);
      SettlingKeepsRecords(s, s'.queue);
    } else if e.Scanned? {
      ScanKeepsRecorded(s, e, caps);
      ActingKeepsNotesUnique(s.queue, PlanOf(s.queue, s.corpus, e.targets), e.ids, e.now);
    }
    forall p
      ensures Bounded(s', caps, p)
    {
      StepKeepsBound(s, e, caps, p);
    }
  }

  lemma StepKeepsBound(s: State, e: Event, caps: map<Pair, nat>, p: Pair)
    requires Ordered(s) && Bounded(s, caps, p) && Enabled(s, e, caps)
    ensures Bounded(Step(s, e, caps), caps, p)
  {
    match e
    case Received(_, _, _) => ReceivedKeepsBound(s, e, caps, p);
    case Scanned(_, _, _) => ScanKeepsBound(s, e, caps, p);
    case OtherEnqueued(_, _) => OtherEnqueuedKeepsBound(s, e, caps, p);
    case Moved(op) =>
      StepOnlySettles(World(s.queue, [], map[]), op);
      SettlingHasFewer(s.queue, Step(s, e, caps).queue, p, Since(s, p));
  }

  /**
   Over any run no red streak has more live fix attempts than its cap, nor two waiting at once, and
   no red run has two notes on file.
   */
  lemma CapIsNeverExceeded(events: seq<Event>, caps: map<Pair, nat>, p: Pair)
    requires Reached(events, caps).Some?
    ensures var s := Reached(events, caps).value;
            && |Live(s, p)| <= (if p in caps then caps[p] else 0)
            && |Waiting(s, p)| <= 1
            && NotesUnique(s.queue)
  {
    RunsStayGood(events, caps);
    assert Bounded(Reached(events, caps).value, caps, p);
  }

  lemma LiveWereDispatched(s: State, p: Pair)
    requires Recorded(s)
    ensures Live(s, p) <= DispatchedInStreak(s, p)
    ensures forall id :: id in DispatchedInStreak(s, p) - Live(s, p) && id in s.queue ==>
      s.queue[id].status != Pending && s.queue[id].status != Applied
  {
    forall id | id in s.queue && id in s.dispatched
      ensures s.queue[id].project == s.dispatched[id].project && s.queue[id].kind == s.dispatched[id].kind
      ensures s.queue[id].payload == s.dispatched[id].payload && s.queue[id].created == s.dispatched[id].created
    {
      assert Core(s.queue[id]) == Core(s.dispatched[id]);
      CoreSame(s.queue[id], s.dispatched[id]);
    }
  }

  lemma SplitSize(a: set<string>, b: set<string>)
    requires b <= a
    ensures |a| == |b| + |a - b|
  {
    assert a == b + (a - b);
  }

  /**
   A streak's dispatches are its live attempts plus those cancelled, failed, expired or pruned: the
   cap bounds the fixes dispatched only together with the fixes removed.
   */
  lemma DispatchesAreLiveOrRemoved(events: seq<Event>, caps: map<Pair, nat>, p: Pair)
    requires Reached(events, caps).Some? && p in caps
    ensures var s := Reached(events, caps).value;
            var removed := DispatchedInStreak(s, p) - Live(s, p);
            && |DispatchedInStreak(s, p)| == |Live(s, p)| + |removed| <= caps[p] + |removed|
            && (forall id :: id in removed && id in s.queue ==>
                  s.queue[id].status != Pending && s.queue[id].status != Applied)
  {
    CapIsNeverExceeded(events, caps, p);
    RunsStayGood(events, caps);
    var s := Reached(events, caps).value;
    LiveWereDispatched(s, p);
    SplitSize(DispatchedInStreak(s, p), Live(s, p));
  }

  // ------------------------------------------------------------------- what the cap does not promise

  /** The state after one scan of a single red target that dispatches. */
  ghost function Rescanned(q: Queue, h: History, t: Target, id: string, now: nat): Queue
    requires ActionFor(q, h, t) != []
  {
    Acted(q, ActionFor(q, h, t)[0], id, now)
  }

  /**
   A second scan sees the fix just dispatched, and skips, exactly when the clock that stamped it is
   not behind the last green receipt; otherwise it dispatches again.
   */
  lemma RescanSkipsUnlessClockIsBehind(q: Queue, h: History, t: Target, id: string, now: nat)
    requires id !in q && ActionFor(q, h, t) != [] && ActionFor(q, h, t)[0].move == Dispatch
    ensures var again := ActionFor(Rescanned(q, h, t, id, now), h, t)[0].move;
            if NotLater(LastGreenEnded(h), Some(now)) then again == SkipPending else again == Dispatch
  {
    var since := LastGreenEnded(h);
    var q' := Rescanned(q, h, t, id, now);
    if InStreak(q'[id], since) {
      assert id in PendingAttempts(q', t.Pair(), since);
    } else {
      assert Attempts(q', t.Pair(), since) == Attempts(q, t.Pair(), since);
      assert PendingAttempts(q', t.Pair(), since) == PendingAttempts(q, t.Pair(), since);
    }
  }

  /** A fix the operator dismisses stops counting, so the next scan dispatches another, cap or no cap. */
  lemma DismissedFixIsReplaced(q: Queue, h: History, t: Target, id: string, now: nat)
    requires id !in q && ActionFor(q, h, t) != [] && ActionFor(q, h, t)[0].move == Dispatch
    ensures var dismissed := Next(World(Rescanned(q, h, t, id, now), [], map[]), Dismissed(id)).queue;
            ActionFor(dismissed, h, t)[0].move == Dispatch
  {
    var q' := Rescanned(q, h, t, id, now);
    var dismissed := Next(World(q', [], map[]), Dismissed(id)).queue;
    assert IsPending(q', id);
    var since := LastGreenEnded(h);
    assert Attempts(dismissed, t.Pair(), since) == Attempts(q, t.Pair(), since);
    assert PendingAttempts(dismissed, t.Pair(), since) == PendingAttempts(q, t.Pair(), since);
  }

  /** The note at the cap is one per red run, not one per streak: each new red run files its own. */
  lemma EachRedRunFilesItsNote(q: Queue, h: History, t: Target, id: string, now: nat)
    requires id !in q && ActionFor(q, h, t) != [] && ActionFor(q, h, t)[0].move == AtCap
    ensures (exists n :: n in q && IsNoteFor(q[n], t.project, t.parent, h[|h| - 1].run))
       <==> Rescanned(q, h, t, id, now) == q
  {
    var a := ActionFor(q, h, t)[0];
    if !NoteExists(q, a) {
      assert id in Rescanned(q, h, t, id, now);
    }
  }
}
