/**
 What can always happen next under the lock protocol (collectors/lock.py): no key is ever lost for good.
 */
module LockProgress {
  import opened Results
  import opened Locks

  lemma Follows(steps: seq<Step>, s: State, step: Step, s': State)
    requires Reaches(steps, s) && Enabled(s, step) && Timely(s, step) && s' == Next(s, step)
    ensures Reaches(steps + [step], s')
  {
    var all := steps + [step];
    assert all[..|all| - 1] == steps;
  }

  /** On a key that is free, or whose row has expired, a new run is granted its lock and starts its process. */
  lemma FreeKeyIsHad(steps: seq<Step>, s: State, key: string, run: string, host: string, timeoutMinutes: nat)
    returns (s': State)
    requires Reaches(steps, s) && run !in s.runs && (key !in s.locks || s.locks[key].expires < s.clock)
    ensures Reaches(steps + [Claim(run, key, host, timeoutMinutes, s.clock)] + [ReadBack(run)] + [Spawn(run)], s')
    ensures run in s'.runs && s'.runs[run].phase == Live && s'.runs[run].key == key
    ensures s'.locks == s.locks[key := Row(host, run, s.clock, s.clock + 60 * timeoutMinutes + 300)]
  {
    var claim := Claim(run, key, host, timeoutMinutes, s.clock);
    var claimed := Next(s, claim);
    Follows(steps, s, claim, claimed);
    var granted := Next(claimed, ReadBack(run));
    Follows(steps + [claim], claimed, ReadBack(run), granted);
    s' := Next(granted, Spawn(run));
    Follows(steps + [claim] + [ReadBack(run)], granted, Spawn(run), s');
  }

  /** Once the holder of a key is over, its release frees the key. */
  lemma HolderCanFree(steps: seq<Step>, s: State, key: string) returns (s': State)
    requires Reaches(steps, s) && key in s.locks
    ensures var holder := s.locks[key].run;
            Reaches(steps + [End(holder)] + [Release(holder)], s')
    ensures s'.locks == s.locks - {key} && s'.clock == s.clock && s'.runs.Keys == s.runs.Keys
  {
    ReachableIsConsistent(steps, s);
    var holder := s.locks[key].run;
    var ended := Next(s, End(holder));
    Follows(steps, s, End(holder), ended);
    s' := Next(ended, Release(holder));
    Follows(steps + [End(holder)], ended, Release(holder), s');
  }

  /** From wherever a run of the protocol has come to, any key can still be had by a new run. */
  lemma AnyKeyCanBeHad(steps: seq<Step>, s: State, key: string, run: string, host: string, timeoutMinutes: nat)
    returns (more: seq<Step>, s': State)
    requires Reaches(steps, s) && run !in s.runs
    ensures Reaches(steps + more, s') && run in s'.runs && s'.runs[run].phase == Live && s'.runs[run].key == key
    ensures forall k :: k in s.locks && k != key ==> k in s'.locks && s'.locks[k] == s.locks[k]
  {
    var steps', free := steps, s;
    more := [];
    if key in s.locks {
      var holder := s.locks[key].run;
      free := HolderCanFree(steps, s, key);
      more := [End(holder)] + [Release(holder)];
      steps' := steps + [End(holder)] + [Release(holder)];
      assert steps + more == steps';
    } else {
      assert steps + more == steps';
    }
    var claim := Claim(run, key, host, timeoutMinutes, free.clock);
    s' := FreeKeyIsHad(steps', free, key, run, host, timeoutMinutes);
    var launch := [claim] + [ReadBack(run)] + [Spawn(run)];
    assert steps + (more + launch) == steps' + [claim] + [ReadBack(run)] + [Spawn(run)];
    more := more + launch;
  }
}
