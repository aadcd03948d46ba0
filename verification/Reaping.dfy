/**
 Budgets and the reaper, which ends over-budget launches and forgets finished ones
 (collectors/budget.py).
 */
module Reaping {
  import opened Results
  import opened Locks
  import opened Receipts

  datatype Limits = Limits(tokens: Option<int>, cost: Option<real>, iterations: Option<int>, minutes: Option<int>)

  /** What was observed of a run; an absent number was not observed. */
  datatype Usage = Usage(tokens: Option<int>, cost: Option<real>, iterations: Option<int>, minutes: Option<real>)

  datatype Reason = WallClock | Tokens | Cost | Iterations

  function Exceeded(l: Limits, u: Usage): Option<Reason> {
    if l.minutes.Some? && u.minutes.Some? && u.minutes.value >= l.minutes.value as real then Some(WallClock)
    else if l.tokens.Some? && u.tokens.Some? && u.tokens.value >= l.tokens.value then Some(Tokens)
    else if l.cost.Some? && u.cost.Some? && u.cost.value >= l.cost.value then Some(Cost)
    else if l.iterations.Some? && u.iterations.Some? && u.iterations.value >= l.iterations.value then Some(Iterations)
    else None
  }

  predicate Breaches(l: Limits, u: Usage, reason: Reason) {
    match reason
    case WallClock => l.minutes.Some? && u.minutes.Some? && l.minutes.value as real <= u.minutes.value
    case Tokens => l.tokens.Some? && u.tokens.Some? && l.tokens.value <= u.tokens.value
    case Cost => l.cost.Some? && u.cost.Some? && l.cost.value <= u.cost.value
    case Iterations => l.iterations.Some? && u.iterations.Some? && l.iterations.value <= u.iterations.value
  }

  datatype Launch = Launch(run: string, project: string, cadence: string, lockKey: Option<string>, limits: Limits,
                           wantsApproval: bool)

  /** What the reaper sees of the world at one call: live processes, usage, and commits left on branches. */
  datatype World = World(alive: set<string>, usage: map<string, Usage>, ahead: map<string, nat>)

  function UsageOf(w: World, run: string): Usage {
    if run in w.usage then w.usage[run] else Usage(None, None, None, None)
  }

  datatype Fate = Finished | OverBudget(reason: Reason) | Kept

  function FateOf(w: World, lc: Launch): Fate {
    if lc.run !in w.alive then Finished
    else
      var reason := Exceeded(lc.limits, UsageOf(w, lc.run));
      if reason.Some? then OverBudget(reason.value) else Kept
  }

  function Select(launches: seq<Launch>, keep: Launch -> bool): seq<Launch> {
    if launches == [] then []
    else
      var n := |launches| - 1;
      Select(launches[..n], keep) + if keep(launches[n]) then [launches[n]] else []
  }

  function IsKept(w: World): Launch -> bool {
    (lc: Launch) => FateOf(w, lc).Kept?
  }

  function IsStopped(w: World): Launch -> bool {
    (lc: Launch) => FateOf(w, lc).OverBudget?
  }

  function IsFinished(w: World): Launch -> bool {
    (lc: Launch) => FateOf(w, lc).Finished?
  }

  /** The reasons reported for stopped launches: of each, the first limit it breaches. */
  predicate Explains(w: World, stopped: seq<Launch>, reasons: seq<Reason>) {
    |reasons| == |stopped| && forall k :: 0 <= k < |stopped| ==> FateOf(w, stopped[k]) == OverBudget(reasons[k])
  }

  function AsksForPush(w: World): Launch -> bool {
    (lc: Launch) => FateOf(w, lc).Finished? && lc.wantsApproval && lc.run in w.ahead && 0 < w.ahead[lc.run]
  }

  /** The lock table after the stopped launches, in order, have released their locks. */
  function ReleasedBy(t: Table, stopped: seq<Launch>): Table {
    if stopped == [] then t
    else
      var lc := stopped[|stopped| - 1];
      var before := ReleasedBy(t, stopped[..|stopped| - 1]);
      if lc.lockKey.Some? then Released(before, lc.lockKey.value, lc.run) else before
  }

  /** The receipt of a run the budget guard has ended: amber, for it produced no verdict of its own. */
  function StoppedReceipt(lc: Launch, ended: nat): Receipt {
    Receipt(lc.run, ended, Stopped, Amber)
  }

  /** The receipt directories after the stopped launches, in order, have been written up. */
  ghost function WrittenUp(dirs: map<Pair, Files>, stopped: seq<Launch>, ended: nat): map<Pair, Files> {
    if stopped == [] then dirs
    else
      var lc := stopped[|stopped| - 1];
      WrittenTo(WrittenUp(dirs, stopped[..|stopped| - 1], ended), (lc.project, lc.cadence), StoppedReceipt(lc, ended))
  }

  // ------------------------------------------------------------------- the launch registry

  class Registry {
    var launches: seq<Launch>

    constructor ()
      ensures launches == []
    {
      launches := [];
    }

    method Record(launch: Launch)
      modifies this
      ensures launches == Select(old(launches), OtherRun(launch.run)) + [launch]
    {
      var rest: seq<Launch> := [];
      for k := 0 to |launches|
        invariant launches == old(launches)
        invariant rest == Select(launches[..k], OtherRun(launch.run))
      {
        assert launches[..k + 1][..k] == launches[..k];
        if launches[k].run != launch.run {
          rest := rest + [launches[k]];
        }
      }
      assert launches[..|launches|] == launches;
      launches := rest + [launch];
    }

    /**
     Evaluate every recorded launch.  The processes in `stopped` have been sent SIGTERM; each gets
     a receipt and gives back its lock.
     */
    method Reap(w: World, ended: nat, locks: LockTable, store: ReceiptStore)
      returns (stopped: seq<Launch>, reasons: seq<Reason>, approvals: seq<Launch>)
      modifies this, locks, store
      ensures launches == Select(old(launches), IsKept(w))
      ensures stopped == Select(old(launches), IsStopped(w))
      ensures Explains(w, stopped, reasons)
      ensures approvals == Select(old(launches), AsksForPush(w))
      ensures locks.rows == ReleasedBy(old(locks.rows), stopped)
      ensures store.directories == WrittenUp(old(store.directories), stopped, ended)
    {
      var keep: seq<Launch> := [];
      stopped, reasons, approvals := [], [], [];
      for k := 0 to |launches|
        invariant launches == old(launches)
        invariant keep == Select(launches[..k], IsKept(w))
        invariant stopped == Select(launches[..k], IsStopped(w))
        invariant Explains(w, stopped, reasons)
        invariant approvals == Select(launches[..k], AsksForPush(w))
        invariant locks.rows == ReleasedBy(old(locks.rows), stopped)
        invariant store.directories == WrittenUp(old(store.directories), stopped, ended)
      {
        var lc := launches[k];
        SelectOfMore(launches, k, IsKept(w));
        SelectOfMore(launches, k, IsStopped(w));
        SelectOfMore(launches, k, AsksForPush(w));
        StoppedOneMore(old(locks.rows), old(store.directories), stopped, lc, ended);
        if lc.run !in w.alive {
          if lc.wantsApproval && lc.run in w.ahead && 0 < w.ahead[lc.run] {
            approvals := approvals + [lc];
          }
        } else {
          var reason := Exceeded(lc.limits, UsageOf(w, lc.run));
          if reason.None? {
            keep := keep + [lc];
          } else {
            Stop(lc, ended, locks, store);
            ExplainsOneMore(w, stopped, reasons, lc, reason.value);
            stopped, reasons := stopped + [lc], reasons + [reason.value];
          }
        }
      }
      assert launches[..|launches|] == launches;
      launches := keep;
    }

    /** What ends a run that is over budget, besides the signal: its receipt, and its lock given back. */
    method Stop(lc: Launch, ended: nat, locks: LockTable, store: ReceiptStore)
      modifies locks, store
      ensures locks.rows
           == if lc.lockKey.Some? then Released(old(locks.rows), lc.lockKey.value, lc.run) else old(locks.rows)
      ensures store.directories
           == WrittenTo(old(store.directories), (lc.project, lc.cadence), StoppedReceipt(lc, ended))
    {
      store.Write((lc.project, lc.cadence), StoppedReceipt(lc, ended));
      if lc.lockKey.Some? {
        locks.Release(lc.lockKey.value, lc.run);
      }
    }
  }

  lemma SelectOfMore(launches: seq<Launch>, k: nat, keep: Launch -> bool)
    requires k < |launches|
    ensures Select(launches[..k + 1], keep)
         == if keep(launches[k]) then Select(launches[..k], keep) + [launches[k]] else Select(launches[..k], keep)
  {
    assert launches[..k + 1][..k] == launches[..k];
  }

  lemma ExplainsOneMore(w: World, stopped: seq<Launch>, reasons: seq<Reason>, lc: Launch, reason: Reason)
    requires Explains(w, stopped, reasons) && FateOf(w, lc) == OverBudget(reason)
    ensures Explains(w, stopped + [lc], reasons + [reason])
  {
  }

  lemma StoppedOneMore(t: Table, dirs: map<Pair, Files>, stopped: seq<Launch>, lc: Launch, ended: nat)
    ensures ReleasedBy(t, stopped + [lc])
         == if lc.lockKey.Some? then Released(ReleasedBy(t, stopped), lc.lockKey.value, lc.run)
            else ReleasedBy(t, stopped)
    ensures WrittenUp(dirs, stopped + [lc], ended)
         == WrittenTo(WrittenUp(dirs, stopped, ended), (lc.project, lc.cadence), StoppedReceipt(lc, ended))
  {
    assert (stopped + [lc])[..|stopped|] == stopped;
  }

  function OtherRun(run: string): Launch -> bool {
    (lc: Launch) => lc.run != run
  }

  // ------------------------------------------------------------------- what a reap conserves

  predicate UniqueRuns(launches: seq<Launch>) {
    forall i, j :: 0 <= i < j < |launches| ==> launches[i].run != launches[j].run
  }

  lemma {:induction false} SelectMembers(launches: seq<Launch>, keep: Launch -> bool)
    ensures forall lc :: lc in Select(launches, keep) <==> lc in launches && keep(lc)
  {
    if launches != [] {
      var n := |launches| - 1;
      SelectMembers(launches[..n], keep);
      assert launches == launches[..n] + [launches[n]];
    }
  }

  lemma {:induction false} SelectKeepsUnique(launches: seq<Launch>, keep: Launch -> bool)
    requires UniqueRuns(launches)
    ensures UniqueRuns(Select(launches, keep))
  {
    if launches != [] {
      var n := |launches| - 1;
      SelectKeepsUnique(launches[..n], keep);
      SelectMembers(launches[..n], keep);
      var rest := Select(launches[..n], keep);
      forall i | 0 <= i < |rest|
        ensures rest[i].run != launches[n].run
      {
        assert rest[i] in launches[..n];
      }
    }
  }

  /** Recording a launch leaves one entry for its run and keeps every other run's. */
  lemma RecordKeepsUnique(launches: seq<Launch>, launch: Launch)
    requires UniqueRuns(launches)
    ensures UniqueRuns(Select(launches, OtherRun(launch.run)) + [launch])
    ensures forall lc :: lc in launches && lc.run != launch.run ==> lc in Select(launches, OtherRun(launch.run))
  {
    SelectKeepsUnique(launches, OtherRun(launch.run));
    SelectMembers(launches, OtherRun(launch.run));
    var rest := Select(launches, OtherRun(launch.run));
    assert forall i :: 0 <= i < |rest| ==> rest[i] in rest;
  }

  /** A launch is selected as often as it is recorded, or not at all. */
  lemma {:induction false} SelectCounts(launches: seq<Launch>, keep: Launch -> bool, lc: Launch)
    ensures multiset(Select(launches, keep))[lc] == if keep(lc) then multiset(launches)[lc] else 0
  {
    if launches != [] {
      var n := |launches| - 1;
      SelectCounts(launches[..n], keep, lc);
      assert launches == launches[..n] + [launches[n]];
    }
  }

  lemma SelectPartitions(launches: seq<Launch>, p: Launch -> bool, q: Launch -> bool, r: Launch -> bool)
    requires forall lc :: (if p(lc) then 1 else 0) + (if q(lc) then 1 else 0) + (if r(lc) then 1 else 0) == 1
    ensures multiset(launches)
         == multiset(Select(launches, p)) + multiset(Select(launches, q)) + multiset(Select(launches, r))
  {
    forall lc
      ensures multiset(launches)[lc]
           == multiset(Select(launches, p))[lc] + multiset(Select(launches, q))[lc] + multiset(Select(launches, r))[lc]
    {
      SelectCounts(launches, p, lc);
      SelectCounts(launches, q, lc);
      SelectCounts(launches, r, lc);
    }
  }

  /** A reap splits the registry into kept, stopped and finished, losing and duplicating nothing. */
  lemma ReapConserves(launches: seq<Launch>, w: World)
    ensures multiset(launches) == multiset(Select(launches, IsKept(w))) + multiset(Select(launches, IsStopped(w)))
                                + multiset(Select(launches, IsFinished(w)))
  {
    SelectPartitions(launches, IsKept(w), IsStopped(w), IsFinished(w));
  }

  /** A kept launch is alive and breaches none of its limits; a stopped one breaches the reason given first. */
  lemma FateIsDeserved(launches: seq<Launch>, w: World, lc: Launch)
    ensures lc in Select(launches, IsKept(w)) <==>
      lc in launches && lc.run in w.alive && forall r :: !Breaches(lc.limits, UsageOf(w, lc.run), r)
    ensures lc in Select(launches, IsStopped(w)) <==>
      lc in launches && lc.run in w.alive && exists r :: Breaches(lc.limits, UsageOf(w, lc.run), r)
    ensures Exceeded(lc.limits, UsageOf(w, lc.run)).Some? ==>
      Breaches(lc.limits, UsageOf(w, lc.run), Exceeded(lc.limits, UsageOf(w, lc.run)).value)
  {
    SelectMembers(launches, IsKept(w));
    SelectMembers(launches, IsStopped(w));
    var u := UsageOf(w, lc.run);
    assert Exceeded(lc.limits, u).None? <==>
      !Breaches(lc.limits, u, WallClock) && !Breaches(lc.limits, u, Tokens)
      && !Breaches(lc.limits, u, Cost) && !Breaches(lc.limits, u, Iterations);
  }

  /** After a reap no stopped run holds its lock, and the rows of all other runs are untouched. */
  lemma {:induction false} StoppedRunsHoldNothing(t: Table, stopped: seq<Launch>)
    ensures forall lc :: lc in stopped && lc.lockKey.Some? ==> !Holds(ReleasedBy(t, stopped), lc.lockKey.value, lc.run)
    ensures forall k :: k in ReleasedBy(t, stopped) ==> k in t && ReleasedBy(t, stopped)[k] == t[k]
    ensures forall k :: k in t && (forall lc :: lc in stopped ==> lc.run != t[k].run) ==> k in ReleasedBy(t, stopped)
  {
    if stopped != [] {
      var n := |stopped| - 1;
      StoppedRunsHoldNothing(t, stopped[..n]);
      assert stopped == stopped[..n] + [stopped[n]];
    }
  }

  ghost predicate StoreOnePerRun(dirs: map<Pair, Files>) {
    forall d :: d in dirs ==> OnePerRun(dirs[d])
  }

  /** Every receipt there was is still there, unchanged. */
  ghost predicate Preserves(before: map<Pair, Files>, after: map<Pair, Files>) {
    forall d, n :: d in before && n in before[d] ==> d in after && n in after[d] && after[d][n] == before[d][n]
  }

  lemma WriteKeepsStore(dirs: map<Pair, Files>, d: Pair, r: Receipt)
    requires StoreOnePerRun(dirs) && HyphenFree(r.run)
    ensures StoreOnePerRun(WrittenTo(dirs, d, r)) && Preserves(dirs, WrittenTo(dirs, d, r))
    ensures Exists(FilesOf(WrittenTo(dirs, d, r), d), r.run)
  {
    WriteKeepsOnePerRun(FilesOf(dirs, d), r);
    if !Exists(FilesOf(dirs, d), r.run) {
      DirectoryGrows(dirs, d, Written(FilesOf(dirs, d), r));
    }
  }

  lemma DirectoryGrows(dirs: map<Pair, Files>, d: Pair, files: Files)
    requires StoreOnePerRun(dirs) && OnePerRun(files)
    requires forall n :: n in FilesOf(dirs, d) ==> n in files && files[n] == FilesOf(dirs, d)[n]
    ensures StoreOnePerRun(dirs[d := files]) && Preserves(dirs, dirs[d := files])
  {
  }

  lemma StillExists(before: map<Pair, Files>, after: map<Pair, Files>, d: Pair, run: string)
    requires Preserves(before, after) && Exists(FilesOf(before, d), run)
    ensures Exists(FilesOf(after, d), run)
  {
    var n :| n in FilesOf(before, d) && GlobMatches(n, run);
    assert d in before && n in before[d];
    assert n in FilesOf(after, d);
  }

  /** After a reap every stopped run has exactly one receipt, and no receipt written before it has changed. */
  lemma {:induction false} StoppedRunsAreWrittenUp(dirs: map<Pair, Files>, stopped: seq<Launch>, ended: nat)
    requires StoreOnePerRun(dirs) && forall lc :: lc in stopped ==> HyphenFree(lc.run)
    ensures StoreOnePerRun(WrittenUp(dirs, stopped, ended)) && Preserves(dirs, WrittenUp(dirs, stopped, ended))
    ensures forall lc :: lc in stopped ==>
      Exists(FilesOf(WrittenUp(dirs, stopped, ended), (lc.project, lc.cadence)), lc.run)
  {
    if stopped != [] {
      var init, last := stopped[..|stopped| - 1], stopped[|stopped| - 1];
      StoppedRunsAreWrittenUp(dirs, init, ended);
      var before, after := WrittenUp(dirs, init, ended), WrittenUp(dirs, stopped, ended);
      WriteKeepsStore(before, (last.project, last.cadence), StoppedReceipt(last, ended));
      forall lc | lc in stopped
        ensures Exists(FilesOf(after, (lc.project, lc.cadence)), lc.run)
      {
        if lc != last {
          assert lc in init;
          StillExists(before, after, (lc.project, lc.cadence), lc.run);
        }
      }
    }
  }
}
