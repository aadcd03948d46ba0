/**
 What remediation does about a pair, said of its receipts and of the queue (collectors/remediate.py).
 */
module RemediationMeanings {
  import opened Results
  import opened Decisions
  import opened Receipts
  import opened Remediation

  /**
   A fix dispatch for the loop that still counts: neither failed nor given up, and made no earlier than any
   green run of the loop ended.
   */
  ghost predicate IsLiveFix(d: Decision, t: Target, h: History) {
    && d.project == t.project && d.kind == DispatchCadence && d.payload.tag.Fix? && d.payload.tag.parent == t.parent
    && (d.status == Pending || d.status == Applied)
    && forall r :: r in h && r.verdict == Green ==> r.ended <= d.created
  }

  ghost function LiveFixes(q: Queue, t: Target, h: History): set<string> {
    set id | id in q && IsLiveFix(q[id], t, h)
  }

  lemma StreakBeganAtLastGreen(h: History, d: Decision)
    requires InOrder(h)
    ensures InStreak(d, LastGreenEnded(h)) <==> forall r :: r in h && r.verdict == Green ==> r.ended <= d.created
  {
    LastGreenIsLatest(h);
  }

  lemma AttemptsAreLiveFixes(q: Queue, t: Target, h: History)
    requires InOrder(h)
    ensures Attempts(q, t.Pair(), LastGreenEnded(h)) == LiveFixes(q, t, h)
    ensures PendingAttempts(q, t.Pair(), LastGreenEnded(h)) ==
      set id | id in LiveFixes(q, t, h) && q[id].status == Pending
  {
    forall id | id in q
      ensures id in Attempts(q, t.Pair(), LastGreenEnded(h)) <==> id in LiveFixes(q, t, h)
    {
      StreakBeganAtLastGreen(h, q[id]);
    }
  }

  /**
   Remediation acts on a target exactly when its last receipt is red, failed or timed out: it skips it while a
   live fix is pending, files a note when as many live fixes as allowed have been applied, and else dispatches
   the next.
   */
  lemma ActionInWords(q: Queue, h: History, t: Target)
    requires InOrder(h)
    ensures ActionFor(q, h, t) == [] <==>
      h == [] || (h[|h| - 1].verdict != Red && !h[|h| - 1].status.Failed? && !h[|h| - 1].status.Timeout?)
    ensures ActionFor(q, h, t) != [] ==>
      var a, live := ActionFor(q, h, t)[0], LiveFixes(q, t, h);
      var waits := exists id :: id in live && q[id].status == Pending;
      && ActionFor(q, h, t) == [a] && a.target == t && a.sourceRun == h[|h| - 1].run && a.attempt == |live| + 1
      && (a.move == SkipPending <==> waits)
      && (a.move == AtCap <==> !waits && |live| >= t.plan.maxAttempts)
      && (a.move == Dispatch <==> !waits && |live| < t.plan.maxAttempts)
  {
    AttemptsAreLiveFixes(q, t, h);
    var pending := PendingAttempts(q, t.Pair(), LastGreenEnded(h));
    if id :| id in LiveFixes(q, t, h) && q[id].status == Pending {
      assert id in pending;
    }
    if pending != {} {
      var id := Any(pending);
      assert id in LiveFixes(q, t, h);
    }
  }

  /** What a dispatch enqueues counts as a live fix of the target from then on; a note counts as none of any. */
  lemma DispatchIsLiveFix(q: Queue, h: History, t: Target, a: Action, id: string, now: nat)
    requires InOrder(h) && id !in q && a.target == t && (forall r :: r in h ==> r.ended <= now)
    ensures LiveFixes(Acted(q, a, id, now), t, h) == LiveFixes(q, t, h) + if a.move == Dispatch then {id} else {}
    ensures a.move == Dispatch ==>
      Acted(q, a, id, now)[id].payload.tag == Fix(t.plan.fixCadence, t.parent, a.attempt, a.sourceRun)
    ensures a.move == AtCap ==> exists n ::
      && n in Acted(q, a, id, now) && Acted(q, a, id, now)[n].kind == Note
      && Acted(q, a, id, now)[n].project == t.project
      && Acted(q, a, id, now)[n].payload.tag == Capped(t.parent, a.sourceRun)
  {
    var q' := Acted(q, a, id, now);
    if a.move == AtCap {
      if NoteExists(q, a) {
        var n :| n in q && IsNoteFor(q[n], a.target.project, a.target.parent, a.sourceRun);
        assert n in q';
      } else {
        assert id in q';
      }
    }
  }

  /** A loop is a target when its project, or failing that the default, opts in all loops or this one by name. */
  lemma TargetsInWords(projects: seq<Project>, defaults: Option<Auto>, plans: map<string, Plan>, t: Target)
    ensures t in Targets(projects, defaults, plans) <==>
      && t.parent in plans && t.plan == plans[t.parent]
      && exists p :: p in projects && p.slug == t.project && t.parent in p.cadences && Wants(p, defaults, t.parent)
  {
    TargetsAreOptedIn(projects, defaults, plans, t);
    forall p: Project
      ensures OptedIn(Resolve(p, defaults), t.parent) <==> Wants(p, defaults, t.parent)
    {
    }
  }

  ghost predicate Wants(p: Project, defaults: Option<Auto>, cadence: string) {
    || Names(p.auto, cadence)
    || (p.auto.None? && Names(defaults, cadence))
  }

  ghost predicate Names(setting: Option<Auto>, cadence: string) {
    setting == Some(All) || exists loops: set<string> :: setting == Some(Only(loops)) && cadence in loops
  }
}
