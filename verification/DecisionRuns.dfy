/**
 Whole lives of the decision queue: any interleaving of producers, drains, operator actions and
 garbage collection (collectors/decisions.py).
 */
module DecisionRuns {
  import opened Results
  import opened Lexical
  import opened Decisions

  datatype Op =
    | Enqueued(id: string, d: Decision)
    | SessionDrained(project: Option<string>, works: set<string>, now: nat)
    | SupervisorDrained(works: set<string>, now: nat)
    | Approved(id: string, works: set<string>, now: nat)   // the operator's Apply
    | Dismissed(id: string)
    | GarbageCollected(now: nat, retentionDays: nat)

  /** The queue, the applications so far, and every decision ever enqueued as it was then. */
  datatype World = World(queue: Queue, attempts: seq<string>, born: map<string, Decision>)

  const EMPTY := World(map[], [], map[])

  /** The sorted listing of a set of identifiers. */
  ghost function Listing(ids: set<string>): (r: seq<string>)
    ensures Sorted(r) && forall id :: id in r <==> id in ids
    decreases |ids|
  {
    if ids == {} then []
    else
      var x := Any(ids);
      InsertKeepsSorted(Listing(ids - {x}), x);
      InsertMembers(Listing(ids - {x}), x);
      Insert(Listing(ids - {x}), x)
  }

  predicate SessionTakes(d: Decision, project: Option<string>) {
    d.status == Pending && d.requiresSession && project == Some(d.project)
  }

  predicate SupervisorTakes(d: Decision) {
    d.status == Pending && !d.requiresSession && !d.kind.ManualOnly()
  }

  ghost function Taken(q: Queue, op: Op): seq<string> {
    match op
    case SessionDrained(project, _, _) => Listing(set id | id in q && SessionTakes(q[id], project))
    case SupervisorDrained(_, _) => Listing(set id | id in q && SupervisorTakes(q[id]))
    case Approved(id, works, _) =>
      if ReplyTo(q, id, works).Done? || ReplyTo(q, id, works).Raised? then [id] else []
    case _ => []
  }

  /** What the two drain methods return is this listing. */
  lemma DrainTakesListing(q: Queue, project: Option<string>, works: set<string>, now: nat,
                          bySession: seq<string>, bySupervisor: seq<string>)
    requires if project.Some? then IsPendingList(q, Scope(project, Some(true)), bySession) else bySession == []
    requires Sorted(bySupervisor) && forall id :: id in bySupervisor <==>
      IsPending(q, id) && !q[id].requiresSession && !q[id].kind.ManualOnly()
    ensures bySession == Taken(q, SessionDrained(project, works, now))
    ensures bySupervisor == Taken(q, SupervisorDrained(works, now))
  {
    SortedIsUnique(bySession, Taken(q, SessionDrained(project, works, now)));
    SortedIsUnique(bySupervisor, Taken(q, SupervisorDrained(works, now)));
  }

  predicate Fresh(w: World, id: string, d: Decision) {
    id !in w.born && d.status == Pending && d.settledAt.None? && Valid(d.kind, d.payload, d.requiresSession)
  }

  ghost function Next(w: World, op: Op): World {
    var taken := Taken(w.queue, op);
    match op
    case Enqueued(id, d) =>
      if Fresh(w, id, d) then w.(queue := w.queue[id := d], born := w.born[id := d]) else w
    case SessionDrained(_, works, now) =>
      w.(queue := MarkedAll(w.queue, taken, works, now), attempts := w.attempts + taken)
    case SupervisorDrained(works, now) =>
      w.(queue := MarkedAll(w.queue, taken, works, now), attempts := w.attempts + taken)
    case Approved(id, works, now) =>
      w.(queue := MarkedAll(w.queue, taken, works, now), attempts := w.attempts + taken)
    case Dismissed(id) =>
      if IsPending(w.queue, id) then w.(queue := w.queue[id := w.queue[id].(status := Superseded)]) else w
    case GarbageCollected(now, days) =>
      w.(queue := Collected(w.queue, now, days))
  }

  ghost function After(w: World, ops: seq<Op>): World {
    if ops == [] then w else Next(After(w, ops[..|ops| - 1]), ops[|ops| - 1])
  }

  // ------------------------------------------------------------------- one step

  function Core(d: Decision): Decision {
    d.(status := Pending, settledAt := None)
  }

  /** Nothing new, nothing rewritten, and statuses only ever leave pending. */
  ghost predicate OnlySettles(q: Queue, q': Queue) {
    forall id :: id in q' ==>
      && id in q && Core(q'[id]) == Core(q[id])
      && (q'[id].status == q[id].status || (q[id].status == Pending && q'[id].status != Pending))
  }

  ghost predicate Consistent(w: World) {
    && (forall id :: id in w.queue ==> id in w.born && Core(w.queue[id]) == w.born[id])
    && (forall id :: id in w.born ==> w.born[id].requiresSession == w.born[id].kind.AppSide())
    && (forall id :: id in w.attempts ==> id in w.born && !IsPending(w.queue, id))
    && (forall i, j :: 0 <= i < j < |w.attempts| ==> w.attempts[i] != w.attempts[j])
  }

  lemma TakenIsPending(q: Queue, op: Op)
    ensures forall id :: id in Taken(q, op) ==> IsPending(q, id)
    ensures Sorted(Taken(q, op))
  {
  }

  lemma StepOnlySettles(w: World, op: Op)
    requires !op.Enqueued?
    ensures OnlySettles(w.queue, Next(w, op).queue)
  {
    TakenIsPending(w.queue, op);
  }

  lemma SortedIsDistinct(ids: seq<string>, i: nat, j: nat)
    requires Sorted(ids) && i < j < |ids|
    ensures ids[i] != ids[j]
  {
    LessTotal(ids[i], ids[j]);
  }

  lemma AttemptsStayDistinct(w: World, op: Op)
    requires Consistent(w)
    ensures var all := w.attempts + Taken(w.queue, op);
            forall i, j :: 0 <= i < j < |all| ==> all[i] != all[j]
  {
    var taken := Taken(w.queue, op);
    TakenIsPending(w.queue, op);
    var all := w.attempts + taken;
    forall i, j | 0 <= i < j < |all|
      ensures all[i] != all[j]
    {
      if |w.attempts| <= i {
        SortedIsDistinct(taken, i - |w.attempts|, j - |w.attempts|);
      } else if |w.attempts| <= j {
        assert all[j] in taken && all[i] in w.attempts;
      }
    }
  }

  lemma StepKeepsConsistent(w: World, op: Op)
    requires Consistent(w)
    ensures Consistent(Next(w, op))
  {
    TakenIsPending(w.queue, op);
    AttemptsStayDistinct(w, op);
    if !op.Enqueued? {
      StepOnlySettles(w, op);
    }
  }

  lemma {:induction false} RunsAreConsistent(ops: seq<Op>)
    ensures Consistent(After(EMPTY, ops))
  {
    if ops != [] {
      RunsAreConsistent(ops[..|ops| - 1]);
      StepKeepsConsistent(After(EMPTY, ops[..|ops| - 1]), ops[|ops| - 1]);
    }
  }

  // ------------------------------------------------------------------- whole runs

  /** The decision has left pending, or has been pruned since. */
  predicate Settled(w: World, id: string) {
    id in w.born && !IsPending(w.queue, id)
  }

  /** A decision that is no longer pending never becomes pending again. */
  lemma {:induction false} SettledForever(ops: seq<Op>, later: seq<Op>, id: string)
    requires Settled(After(EMPTY, ops), id)
    ensures Settled(After(After(EMPTY, ops), later), id)
  {
    if later != [] {
      var w := After(After(EMPTY, ops), later[..|later| - 1]);
      SettledForever(ops, later[..|later| - 1], id);
      if !later[|later| - 1].Enqueued? {
        StepOnlySettles(w, later[|later| - 1]);
      }
    }
  }

  /** Over any run a decision is applied at most once, and once it has been it is no longer pending. */
  lemma AppliedAtMostOnce(ops: seq<Op>, i: nat, j: nat)
    requires i < |After(EMPTY, ops).attempts| && j < |After(EMPTY, ops).attempts|
    ensures After(EMPTY, ops).attempts[i] == After(EMPTY, ops).attempts[j] ==> i == j
    ensures Settled(After(EMPTY, ops), After(EMPTY, ops).attempts[i])
  {
    RunsAreConsistent(ops);
    var w := After(EMPTY, ops);
    assert w.attempts[i] in w.attempts;
  }

  predicate OperatorApproved(ops: seq<Op>, id: string) {
    exists op :: op in ops && op.Approved? && op.id == id
  }

  /** A branch is pushed only if the operator approved that push, whatever drains have run. */
  lemma {:induction false} PushNeedsApproval(ops: seq<Op>, id: string)
    requires var w := After(EMPTY, ops); id in w.attempts && id in w.born && w.born[id].kind == ApprovePush
    ensures OperatorApproved(ops, id)
  {
    var init, op := ops[..|ops| - 1], ops[|ops| - 1];
    RunsAreConsistent(init);
    RunsAreConsistent(ops);
    var w := After(EMPTY, init);
    assert ops == init + [op];
    if id in w.attempts {
      PushNeedsApproval(init, id);
    } else {
      assert id in Taken(w.queue, op);
      assert Core(w.queue[id]) == w.born[id];
    }
  }

  /** After a drain nothing it may take is pending; on the supervisor's side only pushes to approve remain. */
  lemma DrainLeavesManualOnly(w: World, project: string, works: set<string>, now: nat)
    ensures forall id :: IsPending(Next(w, SupervisorDrained(works, now)).queue, id) ==>
      w.queue[id].requiresSession || w.queue[id].kind == ApprovePush
    ensures forall id :: IsPending(Next(w, SessionDrained(Some(project), works, now)).queue, id) ==>
      !w.queue[id].requiresSession || w.queue[id].project != project
  {
  }

  /** Collection never deletes a pending decision; it expires exactly the lapsed ones. */
  lemma CollectionKeepsPending(q: Queue, now: nat, days: nat, id: string)
    requires IsPending(q, id)
    ensures id in Collected(q, now, days)
    ensures Collected(q, now, days)[id].status == if Lapsed(q[id], now) then Expired else Pending
  {
  }

  /** Drains act in order of creation, down to the millisecond the identifiers record. */
  lemma DrainsInCreationOrder(q: Queue, op: Op, i: nat, j: nat, ms: nat, random: nat, ms': nat, random': nat)
    requires FitsUlid(ms, random) && FitsUlid(ms', random')
    requires i < |Taken(q, op)| && Taken(q, op)[i] == Ulid(ms, random)
    requires j < |Taken(q, op)| && Taken(q, op)[j] == Ulid(ms', random')
    ensures i < j ==> ms <= ms'
    ensures ms < ms' ==> i < j
  {
    TakenIsPending(q, op);
    UlidOrder(ms, random, ms', random');
    UlidOrder(ms', random', ms, random);
    LessTotal(Ulid(ms, random), Ulid(ms', random'));
  }
}
