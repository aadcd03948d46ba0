/**
 The run lock (collectors/lock.py) and the launch protocol around it: claim, read back, spawn, run,
 and be stopped, as atomic steps that any number of ticks and processes may interleave.
 Times are whole seconds, as stored in the table.
 */
module Locks {
  import opened Results

  datatype Row = Row(host: string, run: string, acquired: int, expires: int)

  type Table = map<string, Row>

  function Expiry(now: int, timeoutMinutes: nat): int {
    now + (timeoutMinutes + 5) * 60
  }

  predicate Holds(t: Table, key: string, run: string) {
    key in t && t[key].run == run
  }

  function Acquired(t: Table, key: string, host: string, run: string, timeoutMinutes: nat, now: int): Table {
    if key !in t || t[key].expires < now
    then t[key := Row(host, run, now, Expiry(now, timeoutMinutes))]
    else t
  }

  function Released(t: Table, key: string, run: string): Table {
    if Holds(t, key, run) then t - {key} else t
  }

  class LockTable {
    var rows: Table

    constructor ()
      ensures rows == map[]
    {
      rows := map[];
    }

    method Acquire(key: string, host: string, run: string, timeoutMinutes: nat, now: int) returns (held: bool)
      modifies this
      ensures rows == Acquired(old(rows), key, host, run, timeoutMinutes, now)
      ensures key !in old(rows) || old(rows)[key].expires < now ==>
        rows == old(rows)[key := Row(host, run, now, now + 60 * timeoutMinutes + 300)]
      ensures key in old(rows) && now <= old(rows)[key].expires ==> rows == old(rows)
      ensures held <==> key !in old(rows) || old(rows)[key].expires < now || old(rows)[key].run == run
    {
      var expires := Expiry(now, timeoutMinutes);
      if key !in rows {
        rows := rows[key := Row(host, run, now, expires)];
      } else if rows[key].expires < now {
        rows := rows[key := Row(host, run, now, expires)];
      }
      held := key in rows && rows[key].run == run;
    }

    method Release(key: string, run: string)
      modifies this
      ensures rows == Released(old(rows), key, run)
      ensures key !in rows || rows[key].run != run
      ensures forall k :: k in old(rows) && old(rows)[k].run != run ==> k in rows && rows[k] == old(rows)[k]
    {
      if key in rows && rows[key].run == run {
        rows := rows - {key};
      }
    }
  }

  // ------------------------------------------------------------------- the protocol

  /** A run has asked for the lock, read back that it holds it, started its process, or is over. */
  datatype Phase = Claiming | Granted | Live | Over

  /**
   A run keeps the time and timeout it claimed its lock with, and its process the second at which its alarm
   ends it.
   */
  datatype Run = Run(key: string, claimed: int, timeoutMinutes: nat, alarm: int, phase: Phase)

  datatype State = State(clock: int, locks: Table, runs: map<string, Run>)

  datatype Step =
    | Advance(to: int)
    | Claim(run: string, key: string, host: string, timeoutMinutes: nat, now: int)  // `now` was taken earlier
    | ReadBack(run: string)
    | Spawn(run: string)
    | End(run: string)      // exit, crash, a killed process, or a launcher that never got to spawn it
    | Release(run: string)  // by the reaper, after it has stopped the process

  const INITIAL := State(0, map[], map[])

  predicate Enabled(s: State, step: Step) {
    match step
    case Advance(to) => s.clock <= to
    case Claim(run, key, host, timeout, now) => run !in s.runs && now <= s.clock
    case ReadBack(run) => run in s.runs && s.runs[run].phase == Claiming
    case Spawn(run) => run in s.runs && s.runs[run].phase == Granted
    case End(run) => run in s.runs
    case Release(run) => run in s.runs && s.runs[run].phase == Over
  }

  // A run may be spawned this much later than the time it claimed its lock with.
  const SLACK_SECONDS := 300

  /** No process outlives its alarm, and none is started more than five minutes after its run's claim. */
  predicate Timely(s: State, step: Step) {
    match step
    case Advance(to) => forall r :: r in s.runs && s.runs[r].phase == Live ==> to <= s.runs[r].alarm
    case Spawn(run) => run in s.runs ==> s.clock <= s.runs[run].claimed + SLACK_SECONDS
    case _ => true
  }

  function InPhase(s: State, run: string, phase: Phase): State
    requires run in s.runs
  {
    s.(runs := s.runs[run := s.runs[run].(phase := phase)])
  }

  function Next(s: State, step: Step): State
    requires Enabled(s, step)
  {
    match step
    case Advance(to) => s.(clock := to)
    case Claim(run, key, host, timeout, now) =>
      s.(locks := Acquired(s.locks, key, host, run, timeout, now),
         runs := s.runs[run := Run(key, now, timeout, now, Claiming)])
    case ReadBack(run) => InPhase(s, run, if Holds(s.locks, s.runs[run].key, run) then Granted else Over)
    case Spawn(run) =>
      var r := s.runs[run];
      s.(runs := s.runs[run := r.(phase := Live, alarm := s.clock + 60 * r.timeoutMinutes)])
    case End(run) => InPhase(s, run, Over)
    case Release(run) => s.(locks := Released(s.locks, s.runs[run].key, run))
  }

  /** The last second at which no other run may take the lock of this one. */
  function Deadline(r: Run): int {
    r.claimed + 60 * r.timeoutMinutes + 300
  }

  /** Every row belongs to a run that asked for it, and a granted run keeps its row until its deadline. */
  ghost predicate Consistent(s: State) {
    && (forall k :: k in s.locks ==>
          var r := s.locks[k].run;
          r in s.runs && s.runs[r].key == k && Deadline(s.runs[r]) == s.locks[k].expires)
    && (forall r :: r in s.runs && s.runs[r].phase == Granted && s.clock <= Deadline(s.runs[r]) ==>
          Holds(s.locks, s.runs[r].key, r))
    && (forall r :: r in s.runs && s.runs[r].phase == Live ==>
          Holds(s.locks, s.runs[r].key, r) && s.clock <= s.runs[r].alarm <= Deadline(s.runs[r]))
  }

  lemma ClaimKeepsConsistent(s: State, step: Step)
    requires Consistent(s) && step.Claim? && Enabled(s, step)
    ensures Consistent(Next(s, step))
  {
    var after := Next(s, step);
    assert Expiry(step.now, step.timeoutMinutes) == Deadline(after.runs[step.run]);
    assert forall r :: r in s.runs ==> after.runs[r] == s.runs[r];
    assert forall r :: r in s.runs && Holds(s.locks, s.runs[r].key, r) && s.clock <= Deadline(s.runs[r]) ==>
      Holds(after.locks, s.runs[r].key, r);
  }

  lemma PhaseKeepsConsistent(s: State, run: string, r: Run)
    requires Consistent(s) && run in s.runs && r.key == s.runs[run].key && Deadline(r) == Deadline(s.runs[run])
    requires r.phase == Granted && s.clock <= Deadline(r) ==> Holds(s.locks, r.key, run)
    requires r.phase == Live ==> Holds(s.locks, r.key, run) && s.clock <= r.alarm <= Deadline(r)
    ensures Consistent(s.(runs := s.runs[run := r]))
  {
  }

  lemma ReleaseKeepsConsistent(s: State, run: string)
    requires Consistent(s) && Enabled(s, Release(run))
    ensures Consistent(Next(s, Release(run)))
  {
  }

  lemma StepKeepsConsistent(s: State, step: Step)
    requires Consistent(s) && Enabled(s, step) && Timely(s, step)
    ensures Consistent(Next(s, step))
  {
    match step
    case Advance(_) =>
    case Claim(_, _, _, _, _) => ClaimKeepsConsistent(s, step);
    case ReadBack(run) => PhaseKeepsConsistent(s, run, Next(s, step).runs[run]);
    case Spawn(run) => PhaseKeepsConsistent(s, run, Next(s, step).runs[run]);
    case End(run) => PhaseKeepsConsistent(s, run, Next(s, step).runs[run]);
    case Release(run) => ReleaseKeepsConsistent(s, run);
  }

  /** The state after a run of steps, if each was enabled and timely when it was taken. */
  function After(steps: seq<Step>): Option<State> {
    if steps == [] then Some(INITIAL)
    else
      var before := After(steps[..|steps| - 1]);
      var step := steps[|steps| - 1];
      if before.Some? && Enabled(before.value, step) && Timely(before.value, step)
      then Some(Next(before.value, step)) else None
  }

  predicate Reaches(steps: seq<Step>, s: State) {
    After(steps) == Some(s)
  }

  lemma {:induction false} ReachableIsConsistent(steps: seq<Step>, s: State)
    requires Reaches(steps, s)
    ensures Consistent(s)
  {
    if steps != [] {
      var before := After(steps[..|steps| - 1]).value;
      ReachableIsConsistent(steps[..|steps| - 1], before);
      StepKeepsConsistent(before, steps[|steps| - 1]);
    }
  }

  /** However the steps interleave, a lock key has at most one live process, and that process's run holds it. */
  lemma MutualExclusion(steps: seq<Step>, s: State, a: string, b: string)
    requires Reaches(steps, s)
    requires a in s.runs && s.runs[a].phase == Live && b in s.runs && s.runs[b].phase == Live
    ensures Holds(s.locks, s.runs[a].key, a)
    ensures s.runs[a].key == s.runs[b].key ==> a == b
  {
    ReachableIsConsistent(steps, s);
  }

  /** Releasing late is harmless: whoever has taken the lock since, and every live process, keeps theirs. */
  lemma LateReleaseFreesNoOther(steps: seq<Step>, s: State, run: string, other: string)
    requires Reaches(steps, s) && Enabled(s, Release(run)) && other in s.runs && s.runs[other].phase == Live
    ensures var after := Next(s, Release(run));
            Holds(after.locks, s.runs[other].key, other) && !Holds(after.locks, s.runs[run].key, run)
  {
    ReachableIsConsistent(steps, s);
  }

  /**
   A holder that is over blocks its key for its timeout and five minutes and no longer: another run's claim
   succeeds exactly when it comes later than that after the holder's own.
   */
  lemma DeadHolderBlocksUntilDeadline(steps: seq<Step>, s: State, holder: string, run: string, host: string,
                                      timeoutMinutes: nat, now: int)
    requires Reaches(steps, s) && holder in s.runs && Holds(s.locks, s.runs[holder].key, holder)
    requires Enabled(s, Claim(run, s.runs[holder].key, host, timeoutMinutes, now))
    ensures var key := s.runs[holder].key;
            var claimed := Next(s, Claim(run, key, host, timeoutMinutes, now));
            Next(claimed, ReadBack(run)).runs[run].phase == Granted <==>
              now > s.runs[holder].claimed + (s.runs[holder].timeoutMinutes + 5) * 60
  {
    ReachableIsConsistent(steps, s);
  }

  /**
   The timing assumption is needed: a process that outlives its alarm runs beside the next one, as soon as its
   timeout and five minutes are over.
   */
  lemma OverstayingBreaksExclusion(timeoutMinutes: nat, late: int) returns (s: State)
    requires late > (timeoutMinutes + 5) * 60
    ensures var first := Next(INITIAL, Claim("A", "k", "h", timeoutMinutes, 0));
            var live := Next(Next(first, ReadBack("A")), Spawn("A"));
            && !Timely(live, Advance(late))
            && s == Next(Next(Next(Next(live, Advance(late)), Claim("B", "k", "h", timeoutMinutes, late)),
                              ReadBack("B")), Spawn("B"))
    ensures s.runs["A"].phase == Live && s.runs["B"].phase == Live && s.runs["A"].key == s.runs["B"].key
  {
    var first := Next(INITIAL, Claim("A", "k", "h", timeoutMinutes, 0));
    var live := Next(Next(first, ReadBack("A")), Spawn("A"));
    assert live.runs["A"].phase == Live && live.runs["A"].alarm == 60 * timeoutMinutes;
    s := Next(Next(Next(Next(live, Advance(late)), Claim("B", "k", "h", timeoutMinutes, late)),
                   ReadBack("B")), Spawn("B"));
  }
}
