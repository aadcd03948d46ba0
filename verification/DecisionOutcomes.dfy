/**
 What the status of a decision says about its effect, over whole runs of the queue (collectors/decisions.py).
 */
module DecisionOutcomes {
  import opened Results
  import opened Decisions
  import opened DecisionRuns

  function Works(op: Op): set<string> {
    match op
    case SessionDrained(_, works, _) => works
    case SupervisorDrained(works, _) => works
    case Approved(_, works, _) => works
    case _ => {}
  }

  /** The operation takes the decision, and its effect works or raises, as `worked` says. */
  ghost predicate Tries(w: World, op: Op, id: string, worked: bool) {
    id in Taken(w.queue, op) && (id in Works(op) <==> worked)
  }

  ghost predicate WasTried(ops: seq<Op>, id: string, worked: bool) {
    ops != []
    && var init, op := ops[..|ops| - 1], ops[|ops| - 1];
       WasTried(init, id, worked) || Tries(After(EMPTY, init), op, id, worked)
  }

  /** What each operation takes: what is pending on its side, in its project, and what the operator names. */
  lemma TakenInWords(q: Queue, op: Op, id: string)
    ensures id in Taken(q, op) <==> id in q && q[id].status == Pending && match op
      case SessionDrained(project, _, _) => q[id].requiresSession && project == Some(q[id].project)
      case SupervisorDrained(_, _) => !q[id].requiresSession && q[id].kind != ApprovePush
      case Approved(named, _, _) =>
        named == id && q[id].kind != DispatchCadence && q[id].kind != AnswerQuestion && q[id].kind != Note
      case _ => false
  {
  }

  lemma StepMarksTried(w: World, op: Op, id: string)
    requires Consistent(w)
    ensures var after := Next(w, op).queue;
            && (Tries(w, op, id, true) ==> id in after && after[id].status == Applied)
            && (Tries(w, op, id, false) ==> id in after && after[id].status == Failed)
  {
    TakenIsPending(w.queue, op);
  }

  lemma StepLeavesOthers(w: World, op: Op, id: string)
    requires Consistent(w) && id !in Taken(w.queue, op) && id in Next(w, op).queue
    ensures var d := Next(w, op).queue[id];
            d.status == Pending || d.status == Superseded || d.status == Expired || (id in w.queue && d == w.queue[id])
  {
  }

  /** The status and the log of applications agree with what was tried, and how it went. */
  ghost predicate Agrees(w: World, id: string, worked: bool, raised: bool) {
    && !(worked && raised)
    && (worked || raised <==> id in w.attempts)
    && (id in w.queue ==> (w.queue[id].status == Applied <==> worked) && (w.queue[id].status == Failed <==> raised))
  }

  lemma StepAgrees(w: World, op: Op, id: string, worked: bool, raised: bool)
    requires Consistent(w) && Agrees(w, id, worked, raised)
    ensures Agrees(Next(w, op), id, worked || Tries(w, op, id, true), raised || Tries(w, op, id, false))
  {
    TakenIsPending(w.queue, op);
    if id in Taken(w.queue, op) {
      StepMarksTried(w, op, id);
    } else if id in Next(w, op).queue {
      StepLeavesOthers(w, op, id);
      if id in w.attempts {
        SettledStays(w, op, id);
      }
    }
  }

  lemma SettledStays(w: World, op: Op, id: string)
    requires Consistent(w) && id in w.attempts && id in Next(w, op).queue
    ensures id in w.queue && Next(w, op).queue[id] == w.queue[id]
  {
    TakenIsPending(w.queue, op);
    if !op.Enqueued? {
      StepOnlySettles(w, op);
    }
  }

  /**
   Over any run a decision that is still there is Applied exactly when it was taken and its effect worked,
   and Failed exactly when it was taken and its effect raised.
   */
  lemma {:induction false} AppliedIffItWorked(ops: seq<Op>, id: string)
    ensures var q := After(EMPTY, ops).queue;
            id in q ==> (q[id].status == Applied <==> WasTried(ops, id, true))
                        && (q[id].status == Failed <==> WasTried(ops, id, false))
    ensures Agrees(After(EMPTY, ops), id, WasTried(ops, id, true), WasTried(ops, id, false))
  {
    if ops != [] {
      var init, op := ops[..|ops| - 1], ops[|ops| - 1];
      AppliedIffItWorked(init, id);
      RunsAreConsistent(init);
      StepAgrees(After(EMPTY, init), op, id, WasTried(init, id, true), WasTried(init, id, false));
    }
  }
}
