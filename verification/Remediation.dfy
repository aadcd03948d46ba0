/**
 Bounded auto-remediation: a red loop gets fix dispatches, at most so many at a time per red
 streak, then a note to the operator (collectors/remediate.py).
 */
module Remediation {
  import opened Results
  import opened Decisions
  import opened Receipts

  // ------------------------------------------------------------------- opting in

  datatype Auto = Off | All | Only(loops: set<string>)

  datatype Project = Project(slug: string, auto: Option<Auto>, cadences: seq<string>)

  /** A cadence's remediation block, when it is enabled. */
  datatype Plan = Plan(fixCadence: string, maxAttempts: nat)

  datatype Target = Target(project: string, parent: string, plan: Plan) {
    function Pair(): Pair {
      (project, parent)
    }
  }

  function Resolve(p: Project, defaults: Option<Auto>): Auto {
    if p.auto.Some? then p.auto.value else if defaults.Some? then defaults.value else Off
  }

  predicate OptedIn(auto: Auto, cadence: string) {
    auto.All? || (auto.Only? && cadence in auto.loops)
  }

  function ProjectTargets(slug: string, auto: Auto, cadences: seq<string>, plans: map<string, Plan>): seq<Target> {
    if cadences == [] then []
    else
      var c := cadences[0];
      (if OptedIn(auto, c) && c in plans then [Target(slug, c, plans[c])] else [])
      + ProjectTargets(slug, auto, cadences[1..], plans)
  }

  function Targets(projects: seq<Project>, defaults: Option<Auto>, plans: map<string, Plan>): seq<Target> {
    if projects == [] then []
    else
      var p := projects[0];
      ProjectTargets(p.slug, Resolve(p, defaults), p.cadences, plans) + Targets(projects[1..], defaults, plans)
  }

  /** Only a loop its project opts in, by its own setting or by default, with a plan enabled, is a target. */
  lemma {:induction false} TargetsAreOptedIn(projects: seq<Project>, defaults: Option<Auto>, plans: map<string, Plan>,
                                             t: Target)
    ensures t in Targets(projects, defaults, plans) <==>
      t.parent in plans && t.plan == plans[t.parent] &&
      exists p ::
        p in projects && p.slug == t.project && t.parent in p.cadences && OptedIn(Resolve(p, defaults), t.parent)
  {
    if projects != [] {
      var p := projects[0];
      assert projects == [p] + projects[1..];
      ProjectTargetsMembers(p.slug, Resolve(p, defaults), p.cadences, plans, t);
      TargetsAreOptedIn(projects[1..], defaults, plans, t);
    }
  }

  lemma {:induction false} ProjectTargetsMembers(slug: string, auto: Auto, cadences: seq<string>,
                                              plans: map<string, Plan>, t: Target)
    ensures t in ProjectTargets(slug, auto, cadences, plans) <==>
      && t.project == slug && t.parent in cadences && OptedIn(auto, t.parent)
      && t.parent in plans && t.plan == plans[t.parent]
  {
    if cadences != [] {
      assert cadences == [cadences[0]] + cadences[1..];
      ProjectTargetsMembers(slug, auto, cadences[1..], plans, t);
    }
  }

  // ------------------------------------------------------------------- red and its history

  predicate IsRed(r: Receipt) {
    r.verdict == Red || r.status.Failed? || r.status.Timeout?
  }

  function LastGreenEnded(h: History): Option<nat> {
    if h == [] then None
    else if h[|h| - 1].verdict == Green then Some(h[|h| - 1].ended)
    else LastGreenEnded(h[..|h| - 1])
  }

  predicate InOrder(h: History) {
    forall i, j :: 0 <= i < j < |h| ==> h[i].ended <= h[j].ended
  }

  /** `a` is no later a start of the streak than `b`. */
  predicate NotLater(a: Option<nat>, b: Option<nat>) {
    a.None? || (b.Some? && a.value <= b.value)
  }

  lemma {:induction false} LastGreenIsLatest(h: History)
    requires InOrder(h)
    ensures LastGreenEnded(h).None? <==> forall r :: r in h ==> r.verdict != Green
    ensures LastGreenEnded(h).Some? ==> exists r :: r in h && r.verdict == Green && r.ended == LastGreenEnded(h).value
    ensures forall r :: r in h && r.verdict == Green ==> NotLater(Some(r.ended), LastGreenEnded(h))
  {
    if h != [] {
      var init, last := h[..|h| - 1], h[|h| - 1];
      assert h == init + [last];
      LastGreenIsLatest(init);
    }
  }

  /** A receipt filed anywhere in order never moves the last green back. */
  lemma ReceiptNeverMovesGreenBack(h: History, k: nat, r: Receipt)
    requires k <= |h| && InOrder(h) && InOrder(h[..k] + [r] + h[k..])
    ensures NotLater(LastGreenEnded(h), LastGreenEnded(h[..k] + [r] + h[k..]))
  {
    var h' := h[..k] + [r] + h[k..];
    LastGreenIsLatest(h);
    if LastGreenEnded(h).Some? {
      var g :| g in h && g.verdict == Green && g.ended == LastGreenEnded(h).value;
      StillFiled(h, k, r, g);
      GreenIsSeen(h', g);
    }
  }

  lemma StillFiled(h: History, k: nat, r: Receipt, g: Receipt)
    requires k <= |h| && g in h
    ensures g in h[..k] + [r] + h[k..]
  {
    assert h == h[..k] + h[k..];
  }

  lemma GreenIsSeen(h: History, g: Receipt)
    requires InOrder(h) && g in h && g.verdict == Green
    ensures NotLater(Some(g.ended), LastGreenEnded(h))
  {
    LastGreenIsLatest(h);
  }

  // ------------------------------------------------------------------- attempts

  predicate IsFixFor(d: Decision, p: Pair) {
    d.project == p.0 && d.kind == DispatchCadence && d.payload.tag.Fix? && d.payload.tag.parent == p.1
  }

  predicate InStreak(d: Decision, since: Option<nat>) {
    since.None? || since.value <= d.created
  }

  function FixesSince(q: Queue, p: Pair, since: Option<nat>): set<string> {
    set id | id in q && IsFixFor(q[id], p) && InStreak(q[id], since)
  }

  /** The attempts that count: neither cancelled nor failed nor pruned, and made since the last green. */
  function Attempts(q: Queue, p: Pair, since: Option<nat>): set<string> {
    set id | && id in q && IsFixFor(q[id], p) && InStreak(q[id], since)
             && (q[id].status == Pending || q[id].status == Applied)
  }

  function PendingAttempts(q: Queue, p: Pair, since: Option<nat>): set<string> {
    set id | id in q && IsFixFor(q[id], p) && InStreak(q[id], since) && q[id].status == Pending
  }

  // ------------------------------------------------------------------- plan and scan

  datatype Move = SkipPending | AtCap | Dispatch

  datatype Action = Action(target: Target, move: Move, attempt: nat, sourceRun: string)

  function ActionFor(q: Queue, h: History, t: Target): seq<Action> {
    if h == [] || !IsRed(h[|h| - 1]) then []
    else
      var since := LastGreenEnded(h);
      var n := |Attempts(q, t.Pair(), since)|;
      var move := if PendingAttempts(q, t.Pair(), since) != {} then SkipPending
                  else if n >= t.plan.maxAttempts then AtCap
                  else Dispatch;
      [Action(t, move, n + 1, h[|h| - 1].run)]
  }

  /** What remediation would do now; the queue is read, not changed. */
  function PlanOf(q: Queue, corpus: Corpus, targets: seq<Target>): seq<Action> {
    if targets == [] then []
    else
      var n := |targets| - 1;
      PlanOf(q, corpus, targets[..n]) + ActionFor(q, HistoryOf(corpus, targets[n].Pair()), targets[n])
  }

  function FixDecision(a: Action, now: nat): Decision {
    Decision(a.target.project, now, DispatchCadence,
             Payload({"cadence", "remediation", "parent", "attempt", "source_run"},
                     Fix(a.target.plan.fixCadence, a.target.parent, a.attempt, a.sourceRun)),
             true, None, Pending, None)
  }

  function NoteDecision(a: Action, now: nat): Decision {
    Decision(a.target.project, now, Note,
             Payload({"text", "remediation_capped", "source_run"}, Capped(a.target.parent, a.sourceRun)),
             true, None, Pending, None)
  }

  predicate IsNoteFor(d: Decision, project: string, parent: string, sourceRun: string) {
    d.project == project && d.kind == Note && d.payload.tag == Capped(parent, sourceRun)
  }

  predicate NoteExists(q: Queue, a: Action) {
    exists id :: id in q && IsNoteFor(q[id], a.target.project, a.target.parent, a.sourceRun)
  }

  /** The queue after acting on one planned action, with `id` the fresh identifier if it needs one. */
  function Acted(q: Queue, a: Action, id: string, now: nat): Queue {
    match a.move
    case SkipPending => q
    case Dispatch => q[id := FixDecision(a, now)]
    case AtCap => if NoteExists(q, a) then q else q[id := NoteDecision(a, now)]
  }

  function ActedAll(q: Queue, actions: seq<Action>, ids: seq<string>, now: nat): Queue
    requires |actions| <= |ids|
  {
    if actions == [] then q
    else
      var n := |actions| - 1;
      Acted(ActedAll(q, actions[..n], ids, now), actions[n], ids[n], now)
  }

  predicate FreshIds(q: Queue, ids: seq<string>) {
    (forall id :: id in ids ==> id !in q) && forall i, j :: 0 <= i < j < |ids| ==> ids[i] != ids[j]
  }

  method MakePlan(q: Queue, corpus: Corpus, targets: seq<Target>) returns (actions: seq<Action>)
    ensures actions == PlanOf(q, corpus, targets)
  {
    actions := [];
    for k := 0 to |targets|
      invariant actions == PlanOf(q, corpus, targets[..k])
    {
      PlanOfMore(q, corpus, targets, k);
      var more := PlanOne(q, HistoryOf(corpus, targets[k].Pair()), targets[k]);
      actions := actions + more;
    }
    assert targets[..|targets|] == targets;
  }

  lemma PlanOfMore(q: Queue, corpus: Corpus, targets: seq<Target>, k: nat)
    requires k < |targets|
    ensures PlanOf(q, corpus, targets[..k + 1])
         == PlanOf(q, corpus, targets[..k]) + ActionFor(q, HistoryOf(corpus, targets[k].Pair()), targets[k])
  {
    assert targets[..k + 1][..k] == targets[..k];
  }

  method PlanOne(q: Queue, h: History, t: Target) returns (actions: seq<Action>)
    ensures actions == ActionFor(q, h, t)
  {
    if h == [] || !IsRed(h[|h| - 1]) {
      return [];
    }
    var since := LastGreenEnded(h);
    var attempts := Attempts(q, t.Pair(), since);
    var base := Action(t, Dispatch, |attempts| + 1, h[|h| - 1].run);
    if PendingAttempts(q, t.Pair(), since) != {} {
      actions := [base.(move := SkipPending)];
    } else if |attempts| >= t.plan.maxAttempts {
      actions := [base.(move := AtCap)];
    } else {
      actions := [base];
    }
  }

  /** Enqueue what the plan asks for. */
  method Scan(dq: DecisionQueue, corpus: Corpus, targets: seq<Target>, ids: seq<string>, now: nat)
    requires FreshIds(dq.queue, ids) && |PlanOf(dq.queue, corpus, targets)| <= |ids|
    modifies dq`queue
    ensures dq.queue == ActedAll(old(dq.queue), PlanOf(old(dq.queue), corpus, targets), ids, now)
  {
    var actions := MakePlan(dq.queue, corpus, targets);
    for k := 0 to |actions|
      invariant dq.queue == ActedAll(old(dq.queue), actions[..k], ids, now)
      invariant forall i :: k <= i < |ids| ==> ids[i] !in dq.queue
    {
      var a := actions[k];
      assert actions[..k + 1][..k] == actions[..k];
      if a.move == Dispatch {
        var fix := FixDecision(a, now);
        var _ := dq.Enqueue(ids[k], a.target.project, Some(DispatchCadence), fix.payload, None, None, now);
      } else if a.move == AtCap {
        if !NoteExists(dq.queue, a) {
          var _ := dq.Enqueue(ids[k], a.target.project, Some(Note), NoteDecision(a, now).payload, None, None, now);
        }
      }
    }
    assert actions[..|actions|] == actions;
  }
}
