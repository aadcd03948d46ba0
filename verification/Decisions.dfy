/**
 The operator decision queue and everything that moves a decision along
 (collectors/decisions.py).  Times are whole seconds.
 */
module Decisions {
  import opened Results
  import opened Lexical

  datatype Kind =
    | DispatchCadence | AnswerQuestion | ApplySetting | Note                                 // delivered to a session
    | CloseEscalation | SetPin | PauseCadence | ResumeCadence | ApprovePush  // applied by the supervisor
  {
    predicate AppSide() {
      DispatchCadence? || AnswerQuestion? || ApplySetting? || Note?
    }

    predicate ManualOnly() {
      ApprovePush?
    }

    predicate Headless() {
      ApplySetting? || SetPin? || CloseEscalation? || PauseCadence? || ResumeCadence? || ApprovePush?
    }

    function RequiredKeys(): set<string> {
      match this
      case DispatchCadence => {"cadence"}
      case AnswerQuestion => {"question_ref", "answer"}
      case ApplySetting => {"path", "value"}
      case Note => {"text"}
      case CloseEscalation => {"escalation", "reason"}
      case SetPin => {"scope", "marketplace_pin"}
      case PauseCadence => {"cadence"}
      case ResumeCadence => {"cadence"}
      case ApprovePush => {"branch", "base"}
    }
  }

  datatype Status = Pending | Applied | Superseded | Expired | Failed

  /** What remediation writes into a payload, and whether it is a fix dispatch or the note at the cap. */
  datatype Tag =
    | Plain
    | Fix(fixCadence: string, parent: string, attempt: nat, sourceRun: string)
    | Capped(parent: string, sourceRun: string)

  datatype Payload = Payload(keys: set<string>, tag: Tag)

  datatype Decision = Decision(project: string, created: nat, kind: Kind, payload: Payload, requiresSession: bool,
                               expires: Option<nat>, status: Status, settledAt: Option<nat>)

  type Queue = map<string, Decision>

  predicate IsPending(q: Queue, id: string) {
    id in q && q[id].status == Pending
  }

  // ------------------------------------------------------------------- sorted identifiers

  ghost predicate Sorted(ids: seq<string>) {
    forall i, j :: 0 <= i < j < |ids| ==> Less(ids[i], ids[j])
  }

  function Insert(ids: seq<string>, x: string): seq<string> {
    if ids == [] || Less(x, ids[0]) then [x] + ids else [ids[0]] + Insert(ids[1..], x)
  }

  lemma {:induction false} InsertMembers(ids: seq<string>, x: string)
    ensures forall id :: id in Insert(ids, x) <==> id in ids || id == x
  {
    if ids != [] && !Less(x, ids[0]) {
      InsertMembers(ids[1..], x);
      assert ids == [ids[0]] + ids[1..];
    }
  }

  lemma {:induction false} InsertKeepsSorted(ids: seq<string>, x: string)
    requires Sorted(ids) && x !in ids
    ensures Sorted(Insert(ids, x))
  {
    if ids != [] {
      if Less(x, ids[0]) {
        forall j | 1 <= j < |ids|
          ensures Less(x, ids[j])
        {
          LessTransitive(x, ids[0], ids[j]);
        }
      } else {
        var rest := Insert(ids[1..], x);
        InsertKeepsSorted(ids[1..], x);
        InsertMembers(ids[1..], x);
        LessTotal(x, ids[0]);
        forall j | 0 <= j < |rest|
          ensures Less(ids[0], rest[j])
        {
          assert rest[j] in rest;
          if rest[j] != x {
            var k :| 0 <= k < |ids[1..]| && ids[1..][k] == rest[j];
            assert ids[k + 1] == rest[j];
          }
        }
      }
    }
  }

  lemma FirstOfSorted(a: seq<string>, b: seq<string>)
    requires Sorted(a) && Sorted(b) && a != [] && b != [] && forall x :: x in a <==> x in b
    ensures a[0] == b[0]
  {
    assert a[0] in b && b[0] in a;
    var i :| 0 <= i < |b| && b[i] == a[0];
    var j :| 0 <= j < |a| && a[j] == b[0];
    LessTotal(a[0], b[0]);
  }

  /** A set of identifiers has one sorted listing. */
  lemma {:induction false} SortedIsUnique(a: seq<string>, b: seq<string>)
    requires Sorted(a) && Sorted(b) && forall x :: x in a <==> x in b
    ensures a == b
  {
    assert a != [] ==> a[0] in b;
    assert b != [] ==> b[0] in a;
    if a != [] {
      FirstOfSorted(a, b);
      forall x
        ensures x in a[1..] <==> x in b[1..]
      {
        TailMembers(a, x);
        TailMembers(b, x);
      }
      SortedIsUnique(a[1..], b[1..]);
    }
  }

  lemma TailMembers(a: seq<string>, x: string)
    requires Sorted(a) && a != []
    ensures x in a[1..] <==> x in a && x != a[0]
  {
    if x in a[1..] {
      var k :| 0 <= k < |a[1..]| && a[1..][k] == x;
      assert Less(a[0], a[k + 1]);
      LessTotal(a[0], a[0]);
    }
    assert a == [a[0]] + a[1..];
  }

  // ------------------------------------------------------------------- loading what is pending

  /** What a reader asks for: one project's decisions or all, one side's or both. */
  datatype Scope = Scope(project: Option<string>, requiresSession: Option<bool>) {
    predicate Selects(d: Decision) {
      && (project.Some? ==> d.project == project.value)
      && (requiresSession.Some? ==> d.requiresSession == requiresSession.value)
    }
  }

  const EVERYTHING := Scope(None, None)

  ghost predicate IsPendingList(q: Queue, scope: Scope, ids: seq<string>) {
    Sorted(ids) && forall id :: id in ids <==> IsPending(q, id) && scope.Selects(q[id])
  }

  // ------------------------------------------------------------------- the moves, on values

  predicate Valid(kind: Kind, payload: Payload, requiresSession: bool) {
    kind.RequiredKeys() <= payload.keys && requiresSession == kind.AppSide()
  }

  function Marked(d: Decision, ok: bool, now: nat): Decision {
    d.(status := if ok then Applied else Failed, settledAt := Some(now))
  }

  /** The queue after `done` have been applied; those outside `works` raised. */
  function MarkedAll(q: Queue, done: seq<string>, works: set<string>, now: nat): Queue {
    map id | id in q :: if id in done then Marked(q[id], id in works, now) else q[id]
  }

  predicate Lapsed(d: Decision, now: nat) {
    d.status == Pending && d.expires.Some? && d.expires.value <= now
  }

  predicate Prunable(d: Decision, now: nat, retentionDays: nat) {
    d.status != Pending && (if d.settledAt.Some? then d.settledAt.value else d.created) + retentionDays * 86400 <= now
  }

  function Collected(q: Queue, now: nat, retentionDays: nat): Queue {
    map id | id in q && !Prunable(q[id], now, retentionDays) ::
      if Lapsed(q[id], now) then q[id].(status := Expired) else q[id]
  }

  /** The queue while collection has yet to look at `rest`. */
  function CollectedSoFar(q: Queue, rest: set<string>, now: nat, retentionDays: nat): Queue {
    map id | id in q && (id in rest || !Prunable(q[id], now, retentionDays)) ::
      if id !in rest && Lapsed(q[id], now) then q[id].(status := Expired) else q[id]
  }

  lemma CollectOne(q: Queue, rest: set<string>, id: string, now: nat, retentionDays: nat)
    requires id in rest && id in q
    ensures var before, after := CollectedSoFar(q, rest, now, retentionDays),
                                 CollectedSoFar(q, rest - {id}, now, retentionDays);
            && id in before && before[id] == q[id]
            && after == if Lapsed(q[id], now) then before[id := q[id].(status := Expired)]
                        else if Prunable(q[id], now, retentionDays) then before - {id}
                        else before
  {
  }

  /**
   Collection keeps a pending decision until the second it lapses, and marks it then; a settled one it keeps
   for so many days from when it was settled, or if that is not recorded from when it was made, and no longer.
   */
  lemma CollectionInDays(q: Queue, id: string, now: nat, retentionDays: nat)
    requires id in q
    ensures var d, after := q[id], Collected(q, now, retentionDays);
            if d.status == Pending then
              && id in after
              && (after[id].status == Expired <==> d.expires.Some? && d.expires.value <= now)
              && (d.expires.None? || now < d.expires.value ==> after[id] == d)
            else
              var since := if d.settledAt.Some? then d.settledAt.value else d.created;
              && (id in after <==> now < since + 86400 * retentionDays)
              && (id in after ==> after[id] == d)
  {
  }

  datatype Reply = Done | Raised | NotPending | NeedsSession

  function ReplyTo(q: Queue, id: string, works: set<string>): Reply {
    if !IsPending(q, id) then NotPending
    else if !q[id].kind.Headless() then NeedsSession
    else if id in works then Done else Raised
  }

  // ------------------------------------------------------------------- the queue

  class DecisionQueue {
    var queue: Queue
    var attempts: seq<string>   // every application of a decision so far, in order: its effect on the world

    constructor ()
      ensures queue == map[] && attempts == []
    {
      queue, attempts := map[], [];
    }

    /** Enqueue a decision of the kind named, if there is one of that name. */
    method Enqueue(id: string, project: string, kind: Option<Kind>, payload: Payload, requiresSession: Option<bool>,
                   expires: Option<nat>, now: nat) returns (r: Result<Decision>)
      requires id !in queue   // a fresh ULID
      modifies this`queue
      ensures r.Success? <==>
        && kind.Some?
        && Valid(kind.value, payload, if requiresSession.None? then kind.value.AppSide() else requiresSession.value)
      ensures r.Success? ==>
        r.value == Decision(project, now, kind.value, payload, kind.value.AppSide(), expires, Pending, None)
      ensures r.Success? ==>
        (r.value.requiresSession <==> r.value.kind in {DispatchCadence, AnswerQuestion, ApplySetting, Note})
      ensures r.Failure? ==> r.error == ValueError
      ensures queue == if r.Success? then old(queue)[id := r.value] else old(queue)
    {
      if kind.None? {
        return Failure(ValueError);
      }
      var k := kind.value;
      var session := if requiresSession.None? then k.AppSide() else requiresSession.value;
      if !(k.RequiredKeys() <= payload.keys) || (k.AppSide() && !session) || (!k.AppSide() && session) {
        return Failure(ValueError);
      }
      var d := Decision(project, now, k, payload, session, expires, Pending, None);
      queue := queue[id := d];
      r := Success(d);
    }

    method LoadPending(scope: Scope) returns (ids: seq<string>)
      ensures IsPendingList(queue, scope, ids)
    {
      ids := [];
      var rest := queue.Keys;
      while rest != {}
        invariant rest <= queue.Keys
        invariant Sorted(ids)
        invariant forall id :: id in ids <==> id !in rest && IsPending(queue, id) && scope.Selects(queue[id])
        decreases |rest|
      {
        var id :| id in rest;
        rest := rest - {id};
        if queue[id].status == Pending && scope.Selects(queue[id]) {
          InsertMembers(ids, id);
          InsertKeepsSorted(ids, id);
          ids := Insert(ids, id);
        }
      }
    }

    /** Deliver a project's session-side decisions; every one is applied or fails. */
    method DrainSession(project: Option<string>, works: set<string>, now: nat) returns (done: seq<string>)
      modifies this
      ensures project.None? ==> done == []
      ensures project.Some? ==> IsPendingList(old(queue), Scope(project, Some(true)), done)
      ensures project.Some? ==> forall id :: id in done <==>
        id in old(queue) && old(queue)[id].status == Pending && old(queue)[id].project == project.value
        && old(queue)[id].requiresSession
      ensures queue == MarkedAll(old(queue), done, works, now)
      ensures forall id :: id in done ==> id in queue && queue[id].settledAt == Some(now)
      ensures forall id :: id in done ==> queue[id].status == if id in works then Applied else Failed
      ensures queue.Keys == old(queue).Keys && forall id :: id in queue && id !in done ==> queue[id] == old(queue)[id]
      ensures attempts == old(attempts) + done
    {
      done := [];
      if project.Some? {
        done := LoadPending(Scope(project, Some(true)));
      }
      Apply(done, works, now);
    }

    /** Apply the supervisor-side decisions, leaving those that wait for the operator. */
    method DrainSupervisor(works: set<string>, now: nat) returns (done: seq<string>)
      modifies this
      ensures Sorted(done)
      ensures forall id :: id in done <==>
        IsPending(old(queue), id) && !old(queue)[id].requiresSession && old(queue)[id].kind != ApprovePush
      ensures queue == MarkedAll(old(queue), done, works, now)
      ensures forall id :: id in done ==> id in queue && queue[id].settledAt == Some(now)
      ensures forall id :: id in done ==> queue[id].status == if id in works then Applied else Failed
      ensures queue.Keys == old(queue).Keys && forall id :: id in queue && id !in done ==> queue[id] == old(queue)[id]
      ensures attempts == old(attempts) + done
    {
      var ids := LoadPending(Scope(None, Some(false)));
      done := [];
      for k := 0 to |ids|
        invariant Sorted(done)
        invariant forall id :: id in done <==> id in ids[..k] && id in queue && !queue[id].kind.ManualOnly()
      {
        assert ids[k] in ids;
        assert ids[..k + 1] == ids[..k] + [ids[k]];
        if queue[ids[k]].kind.ManualOnly() {
          continue;
        }
        forall i | 0 <= i < |done|
          ensures Less(done[i], ids[k])
        {
          assert done[i] in ids[..k];
        }
        done := done + [ids[k]];
      }
      assert ids[..|ids|] == ids;
      Apply(done, works, now);
    }

    method Apply(ids: seq<string>, works: set<string>, now: nat)
      requires Sorted(ids) && forall id :: id in ids ==> IsPending(queue, id)
      modifies this
      ensures queue == MarkedAll(old(queue), ids, works, now)
      ensures attempts == old(attempts) + ids
    {
      for k := 0 to |ids|
        invariant queue == MarkedAll(old(queue), ids[..k], works, now)
        invariant attempts == old(attempts) + ids[..k]
      {
        assert ids[..k + 1] == ids[..k] + [ids[k]];
        assert ids[k] in ids && ids[k] !in ids[..k] by {
          LessTotal(ids[k], ids[k]);
        }
        attempts := attempts + [ids[k]];
        queue := queue[ids[k] := Marked(queue[ids[k]], ids[k] in works, now)];
      }
      assert ids[..|ids|] == ids;
    }

    /** Apply one decision now, if it has an effect that needs no session. */
    method ApplyDecision(id: string, works: set<string>, now: nat) returns (reply: Reply)
      modifies this
      ensures reply == ReplyTo(old(queue), id, works)
      ensures reply.NotPending? <==> !IsPending(old(queue), id)
      ensures reply.NeedsSession? <==>
        IsPending(old(queue), id) && old(queue)[id].kind in {DispatchCadence, AnswerQuestion, Note}
      ensures reply.Done? <==> IsPending(old(queue), id) && id in queue && queue[id].status == Applied
      ensures reply.Raised? <==> IsPending(old(queue), id) && id in queue && queue[id].status == Failed
      ensures reply.Done? ==> id in works
      ensures reply.Raised? ==> id !in works
      ensures queue.Keys == old(queue).Keys && forall i :: i in queue && i != id ==> queue[i] == old(queue)[i]
      ensures queue == if reply.Done? || reply.Raised? then MarkedAll(old(queue), [id], works, now) else old(queue)
      ensures attempts == if reply.Done? || reply.Raised? then old(attempts) + [id] else old(attempts)
    {
      var ids := LoadPending(EVERYTHING);
      if id !in ids {
        return NotPending;
      }
      if !queue[id].kind.Headless() {
        return NeedsSession;
      }
      attempts := attempts + [id];
      queue := queue[id := Marked(queue[id], id in works, now)];
      reply := if id in works then Done else Raised;
    }

    method Dismiss(id: string) returns (dismissed: bool)
      modifies this`queue
      ensures dismissed <==> IsPending(old(queue), id)
      ensures queue == if dismissed then old(queue)[id := old(queue)[id].(status := Superseded)] else old(queue)
    {
      var ids := LoadPending(EVERYTHING);
      dismissed := id in ids;
      if dismissed {
        queue := queue[id := queue[id].(status := Superseded)];
      }
    }

    /** Expire what has lapsed and prune what settled long ago. */
    method Gc(now: nat, retentionDays: nat) returns (expired: set<string>, pruned: set<string>)
      modifies this`queue
      ensures queue == Collected(old(queue), now, retentionDays)
      ensures forall x :: x in expired <==> x in old(queue) && Lapsed(old(queue)[x], now)
      ensures forall x :: x in expired ==> x in queue && queue[x].status == Expired
      ensures forall x :: x in pruned <==> x in old(queue) && Prunable(old(queue)[x], now, retentionDays)
      ensures queue.Keys == old(queue).Keys - pruned
      ensures forall x :: x in queue && x !in expired ==> queue[x] == old(queue)[x]
    {
      ghost var q := queue;
      expired, pruned := {}, {};
      var rest := queue.Keys;
      while rest != {}
        invariant rest <= q.Keys
        invariant queue == CollectedSoFar(q, rest, now, retentionDays)
        invariant forall x :: x in expired <==> x in q.Keys - rest && Lapsed(q[x], now)
        invariant forall x :: x in pruned <==> x in q.Keys - rest && Prunable(q[x], now, retentionDays)
        decreases |rest|
      {
        var id :| id in rest;
        var d := queue[id];
        CollectOne(q, rest, id, now, retentionDays);
        rest := rest - {id};
        if d.status == Pending && d.expires.Some? && now >= d.expires.value {
          queue := queue[id := d.(status := Expired)];
          expired := expired + {id};
        } else if d.status != Pending {
          var stamp := if d.settledAt.Some? then d.settledAt.value else d.created;
          if now - stamp >= retentionDays * 86400 {
            queue := queue - {id};
            pruned := pruned + {id};
          }
        }
      }
    }
  }
}
