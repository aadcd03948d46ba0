/**
 Draining in small steps (collectors/decisions.py): a drain loads the pending decisions, and then for each
 first has its effect and afterwards marks it.  Between the two it may crash, or another drain may come.
 */
module QueueRaces {
  /**
   `pending` are the decisions pending on disk, `todo` what each drain has loaded and not yet acted on, and
   `effects` all effects so far, in order.
   */
  datatype State = State(pending: set<string>, todo: map<nat, set<string>>, effects: seq<string>)

  datatype Event =
    | Enqueues(id: string)
    | Loads(drain: nat, takes: set<string>)
    | Acts(drain: nat, id: string)
    | Settles(id: string)  // a mark, a dismissal or an expiry: nothing ever makes a decision pending again

  const EMPTY := State({}, map[], [])

  function Todo(s: State, drain: nat): set<string> {
    if drain in s.todo then s.todo[drain] else {}
  }

  ghost predicate Possible(s: State, e: Event) {
    match e
    case Enqueues(id) => id !in s.pending && id !in s.effects && forall d :: id !in Todo(s, d)
    case Loads(_, takes) => takes <= s.pending
    case Acts(drain, id) => id in Todo(s, drain)
    case Settles(_) => true
  }

  function Next(s: State, e: Event): State {
    match e
    case Enqueues(id) => s.(pending := s.pending + {id})
    case Loads(drain, takes) => s.(todo := s.todo[drain := takes])
    case Acts(drain, id) => s.(todo := s.todo[drain := Todo(s, drain) - {id}], effects := s.effects + [id])
    case Settles(id) => s.(pending := s.pending - {id})
  }

  /** No drain is about to repeat an effect. */
  ghost predicate Safe(s: State) {
    forall d, id :: id in Todo(s, d) ==> id !in s.effects
  }

  lemma SafeIffNoRepeatIsNext(s: State)
    ensures Safe(s) <==> forall d, id :: Possible(s, Acts(d, id)) ==> id !in s.effects
  {
    if Safe(s) {
      forall d, id | Possible(s, Acts(d, id))
        ensures id !in s.effects
      {
      }
    } else {
      var d, id :| id in Todo(s, d) && id in s.effects;
      assert Possible(s, Acts(d, id));
    }
  }

  /** A drain loads nothing that has had its effect unmarked, and acts on nothing that another drain has loaded too. */
  ghost predicate InTurn(s: State, e: Event) {
    match e
    case Loads(_, takes) => forall id :: id in takes ==> id !in s.effects
    case Acts(drain, id) => forall d :: d != drain ==> id !in Todo(s, d)
    case _ => true
  }

  lemma StaysSafeIffInTurn(s: State, e: Event)
    requires Safe(s) && Possible(s, e)
    ensures Safe(Next(s, e)) <==> InTurn(s, e)
  {
    var after := Next(s, e);
    match e
    case Loads(drain, takes) =>
      forall d
        ensures Todo(after, d) == if d == drain then takes else Todo(s, d)
      {
      }
      forall id | id in takes
        ensures id in Todo(after, drain)
      {
      }
    case Acts(drain, id) =>
      forall d
        ensures Todo(after, d) == if d == drain then Todo(s, d) - {id} else Todo(s, d)
      {
      }
      assert id in after.effects;
    case _ =>
      assert forall d :: Todo(after, d) == Todo(s, d);
  }

  // ------------------------------------------------------------------- whole runs

  ghost predicate IsRun(states: seq<State>, events: seq<Event>) {
    && |states| == |events| + 1 && states[0] == EMPTY
    && forall k :: 0 <= k < |events| ==> Possible(states[k], events[k]) && states[k + 1] == Next(states[k], events[k])
  }

  ghost predicate Distinct(ids: seq<string>) {
    forall i, j :: 0 <= i < j < |ids| ==> ids[i] != ids[j]
  }

  lemma DistinctSnoc(ids: seq<string>, id: string)
    requires Distinct(ids) && id !in ids
    ensures Distinct(ids + [id])
  {
    forall i | 0 <= i < |ids|
      ensures ids[i] != id
    {
      assert ids[i] in ids;
    }
  }

  ghost predicate AllInTurn(states: seq<State>, events: seq<Event>, k: nat)
    requires |states| == |events| + 1 && k <= |events|
  {
    forall j :: 0 <= j < k ==> InTurn(states[j], events[j])
  }

  /**
   Over any run, crashes and overlapping drains included: it never comes to a point where a drain may repeat
   an effect exactly when all drains load and act in turn; and until then no effect is repeated.
   */
  lemma {:induction false} NoRepeatIffInTurn(states: seq<State>, events: seq<Event>, k: nat)
    requires IsRun(states, events) && k <= |events|
    ensures (forall j :: 0 <= j <= k ==> Safe(states[j])) <==> AllInTurn(states, events, k)
    ensures AllInTurn(states, events, k) ==> Distinct(states[k].effects)
    decreases k
  {
    if k > 0 {
      NoRepeatIffInTurn(states, events, k - 1);
      assert states[k - 1 + 1] == Next(states[k - 1], events[k - 1]);
      if AllInTurn(states, events, k - 1) {
        StaysSafeIffInTurn(states[k - 1], events[k - 1]);
        assert Safe(states[k - 1]);
        if events[k - 1].Acts? {
          assert events[k - 1].id in Todo(states[k - 1], events[k - 1].drain);
          DistinctSnoc(states[k - 1].effects, events[k - 1].id);
        }
      }
    }
  }

  /** A drain that crashes between effect and mark leaves the effect to be repeated by the next. */
  lemma CrashRepeatsEffect(s: State, crashed: nat, next: nat, id: string)
    requires id in s.pending && id in Todo(s, crashed)
    ensures var acted := Next(s, Acts(crashed, id));
            var loaded := Next(acted, Loads(next, {id}));
            && Possible(acted, Loads(next, {id})) && !InTurn(acted, Loads(next, {id}))
            && Possible(loaded, Acts(next, id)) && !Distinct(Next(loaded, Acts(next, id)).effects)
  {
    var acted := Next(s, Acts(crashed, id));
    var loaded := Next(acted, Loads(next, {id}));
    var effects := Next(loaded, Acts(next, id)).effects;
    assert effects == s.effects + [id] + [id];
    assert effects[|s.effects|] == id && effects[|s.effects| + 1] == id;
    assert acted.effects[|s.effects|] == id;
  }
}
