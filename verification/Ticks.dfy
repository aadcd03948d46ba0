/**
 The scheduler tick: which loops are due, and what a run of ticks fires
 (`due` and `tick` in collectors/scheduler.py).
 */
module Ticks {
  import opened Results
  import opened Schedules
  import opened Cron

  datatype Tier = Cloud | Local | Session

  /** A loop of a project, with the schedule and tier in force and the hosts it is pinned to, if any. */
  datatype Job = Job(project: string, cadence: string, schedule: Result<Schedule>, tier: Tier, hosts: set<string>) {
    function Pair(): (string, string) {
      (project, cadence)
    }

    predicate Eligible(host: string) {
      tier != Cloud && (hosts != {} ==> host in hosts)
    }
  }

  datatype Firing = Firing(pair: (string, string), occurrence: int)

  /** The latest occurrence of a schedule; none of one that cannot be read. */
  function LastFire(s: Result<Schedule>, now: nat): Option<int>
    requires HorizonFits(now, HORIZON)
  {
    if s.Success? && WellFormed(s.value, now) then LastOf(s.value, now) else None
  }

  /** What one job contributes to the list of due firings. */
  function FiringsOf(j: Job, host: string, since: int, now: nat): seq<Firing>
    requires HorizonFits(now, HORIZON)
  {
    var last := LastFire(j.schedule, now);
    if j.Eligible(host) && last.Some? && last.value > since then [Firing(j.Pair(), last.value)] else []
  }

  /** The error with which a job ends the whole list, if it does. */
  function Raised(j: Job, host: string, now: nat): Option<Error> {
    if j.Eligible(host) then Uncaught(j.schedule, now) else None
  }

  function DueOf(jobs: seq<Job>, host: string, since: int, now: nat): Result<seq<Firing>>
    requires HorizonFits(now, HORIZON)
  {
    if jobs == [] then Success([])
    else
      var rest :- DueOf(jobs[..|jobs| - 1], host, since, now);
      var j := jobs[|jobs| - 1];
      var raised := Raised(j, host, now);
      if raised.Some? then Failure(raised.value) else Success(rest + FiringsOf(j, host, since, now))
  }

  lemma DueSnoc(jobs: seq<Job>, j: Job, host: string, since: int, now: nat)
    requires HorizonFits(now, HORIZON) && DueOf(jobs, host, since, now).Success?
    ensures DueOf(jobs + [j], host, since, now)
         == if Raised(j, host, now).Some? then Failure(Raised(j, host, now).value)
            else Success(DueOf(jobs, host, since, now).value + FiringsOf(j, host, since, now))
  {
    assert (jobs + [j])[..|jobs|] == jobs;
  }

  method Due(jobs: seq<Job>, host: string, since: int, now: nat) returns (r: Result<seq<Firing>>)
    requires HorizonFits(now, HORIZON)
    ensures r == DueOf(jobs, host, since, now)
  {
    var out: seq<Firing> := [];
    for k := 0 to |jobs|
      invariant DueOf(jobs[..k], host, since, now) == Success(out)
    {
      var j := jobs[k];
      assert jobs[..k + 1] == jobs[..k] + [j];
      DueSnoc(jobs[..k], j, host, since, now);
      FailureStays(jobs, k + 1, host, since, now);
      assert out + [] == out;
      if !j.Eligible(host) {
        continue;
      }
      if j.schedule.Failure? {
        return Failure(j.schedule.error);
      }
      var last := PreviousFireOf(j.schedule.value, now);
      if last.Failure? {
        if last.error == ValueError {
          continue;
        }
        return Failure(last.error);
      }
      if last.value.Some? && last.value.value > since {
        out := out + [Firing(j.Pair(), last.value.value)];
      }
    }
    assert jobs[..|jobs|] == jobs;
    r := Success(out);
  }

  lemma {:induction false} FailureStays(jobs: seq<Job>, k: nat, host: string, since: int, now: nat)
    requires HorizonFits(now, HORIZON) && k <= |jobs|
    ensures DueOf(jobs[..k], host, since, now).Failure? ==>
      DueOf(jobs, host, since, now) == DueOf(jobs[..k], host, since, now)
  {
    if k < |jobs| {
      FailureStays(jobs[..|jobs| - 1], k, host, since, now);
      assert jobs[..|jobs| - 1][..k] == jobs[..k];
    } else {
      assert jobs[..k] == jobs;
    }
  }

  predicate RaisesFirst(jobs: seq<Job>, k: nat, host: string, now: nat) {
    k < |jobs| && Raised(jobs[k], host, now).Some? && forall i :: 0 <= i < k ==> Raised(jobs[i], host, now).None?
  }

  /** The list fails exactly when some job raises, and with the error of the first that does. */
  lemma {:induction false} DueFails(jobs: seq<Job>, host: string, since: int, now: nat)
    requires HorizonFits(now, HORIZON)
    ensures DueOf(jobs, host, since, now).Failure? <==> exists k: nat :: RaisesFirst(jobs, k, host, now)
    ensures forall k: nat :: RaisesFirst(jobs, k, host, now) ==>
      DueOf(jobs, host, since, now) == Failure(Raised(jobs[k], host, now).value)
  {
    if jobs != [] {
      var n := |jobs| - 1;
      var init := jobs[..n];
      DueFails(init, host, since, now);
      forall k: nat
        ensures RaisesFirst(init, k, host, now) <==> RaisesFirst(jobs, k, host, now) && k < n
      {
      }
      if DueOf(init, host, since, now).Success? {
        NoneRaises(init, host, since, now);
        assert Raised(jobs[n], host, now).Some? ==> RaisesFirst(jobs, n, host, now);
      }
    }
  }

  lemma {:induction false} NoneRaises(jobs: seq<Job>, host: string, since: int, now: nat)
    requires HorizonFits(now, HORIZON) && DueOf(jobs, host, since, now).Success?
    ensures forall i :: 0 <= i < |jobs| ==> Raised(jobs[i], host, now).None?
  {
    if jobs != [] {
      NoneRaises(jobs[..|jobs| - 1], host, since, now);
      assert forall i :: 0 <= i < |jobs| - 1 ==> jobs[i] == jobs[..|jobs| - 1][i];
    }
  }

  // ------------------------------------------------------------------- what is due

  ghost predicate IsDue(jobs: seq<Job>, host: string, since: int, now: nat, f: Firing)
    requires HorizonFits(now, HORIZON)
  {
    exists k :: 0 <= k < |jobs| && FiringsOf(jobs[k], host, since, now) == [f]
  }

  lemma IsDueSnoc(jobs: seq<Job>, j: Job, host: string, since: int, now: nat, f: Firing)
    requires HorizonFits(now, HORIZON)
    ensures IsDue(jobs + [j], host, since, now, f) <==>
      IsDue(jobs, host, since, now, f) || FiringsOf(j, host, since, now) == [f]
  {
    var both := jobs + [j];
    assert both[|jobs|] == j;
    forall k | 0 <= k < |jobs|
      ensures both[k] == jobs[k]
    {
    }
  }

  lemma {:induction false} DueMembers(jobs: seq<Job>, host: string, since: int, now: nat, f: Firing)
    requires HorizonFits(now, HORIZON) && DueOf(jobs, host, since, now).Success?
    ensures f in DueOf(jobs, host, since, now).value <==> IsDue(jobs, host, since, now, f)
  {
    if jobs != [] {
      var init, j := jobs[..|jobs| - 1], jobs[|jobs| - 1];
      DueMembers(init, host, since, now, f);
      assert jobs == init + [j];
      IsDueSnoc(init, j, host, since, now, f);
      var fires := FiringsOf(j, host, since, now);
      assert DueOf(jobs, host, since, now).value == DueOf(init, host, since, now).value + fires;
      assert f in fires <==> fires == [f];
    }
  }

  /** How far back a tick looks: to the last one, and for a cron no further than the horizon. */
  function LooksBackTo(s: Schedule, since: int, now: nat): int {
    if s.FiveField? && since < HorizonFloor(now) then HorizonFloor(now) - 1 else since
  }

  /**
   Catch-up: a job fires in a tick exactly when it is not the cloud's, is pinned to no other hosts, and its
   schedule occurred in (since, now] within reach of the horizon; and then it fires the latest such occurrence
   and no other.
   */
  lemma FiresLatestOccurrenceOnly(j: Job, host: string, since: int, now: nat)
    requires HorizonFits(now, HORIZON) && j.schedule.Success? && WellFormed(j.schedule.value, now)
    ensures FiringsOf(j, host, since, now) != [] <==>
      && (j.tier == Local || j.tier == Session) && (j.hosts == {} || host in j.hosts)
      && exists t :: LooksBackTo(j.schedule.value, since, now) < t <= now && Occurs(j.schedule.value, t)
    ensures forall t :: FiringsOf(j, host, since, now) == [Firing(j.Pair(), t)] ==>
      && since < t <= now && Occurs(j.schedule.value, t)
      && forall t' :: t < t' <= now ==> !Occurs(j.schedule.value, t')
  {
    var s := j.schedule.value;
    var last := LastOf(s, now);
    if exists t :: LooksBackTo(s, since, now) < t <= now && Occurs(s, t) {
      var t :| LooksBackTo(s, since, now) < t <= now && Occurs(s, t);
      assert last.Some? && t <= last.value;
    }
    if last.Some? && last.value > since {
      assert LooksBackTo(s, since, now) < last.value <= now && Occurs(s, last.value);
    }
  }

  // ------------------------------------------------------------------- ticks

  class Scheduler {
    var lastTick: Option<nat>

    constructor ()
      ensures lastTick == None
    {
      lastTick := None;
    }

    /**
     One tick.  `stopAfter` says how many firings happen before an exception the tick does not
     catch ends it; None is a tick that completes.  Only a completed tick saves its time.
     */
    method Tick(jobs: seq<Job>, host: string, now: nat, stopAfter: Option<nat>)
      returns (fired: seq<Firing>)
      requires HorizonFits(now, HORIZON)
      modifies this
      ensures fired == Fired(old(lastTick), TickOf(jobs, host, now, stopAfter))
      ensures lastTick == Saved(old(lastTick), TickOf(jobs, host, now, stopAfter))
    {
      var since := if lastTick.Some? then lastTick.value else now - InstantOf(1);
      var due := Due(jobs, host, since, now);
      if due.Failure? {
        return [];
      }
      var done;
      fired, done := FireAll(due.value, stopAfter);
      if done {
        lastTick := Some(now);
      }
    }

    method FireAll(due: seq<Firing>, stopAfter: Option<nat>) returns (fired: seq<Firing>, done: bool)
      ensures fired == if stopAfter.Some? && stopAfter.value < |due| then due[..stopAfter.value] else due
      ensures done <==> (stopAfter.Some? ==> |due| < stopAfter.value)
    {
      fired := [];
      for k := 0 to |due|
        invariant fired == due[..k]
        invariant stopAfter.Some? ==> k <= stopAfter.value
      {
        if stopAfter == Some(k) {
          return fired, false;
        }
        fired := fired + [due[k]];
      }
      done := stopAfter != Some(|due|);
    }
  }

  // ------------------------------------------------------------------- whole runs

  datatype TickEvent = TickOf(jobs: seq<Job>, host: string, now: nat, stopAfter: Option<nat>)

  function Since(last: Option<nat>, now: nat): int {
    if last.Some? then last.value else now - InstantOf(1)
  }

  function Fired(last: Option<nat>, e: TickEvent): seq<Firing>
    requires HorizonFits(e.now, HORIZON)
  {
    var due := DueOf(e.jobs, e.host, Since(last, e.now), e.now);
    if due.Failure? then []
    else if e.stopAfter.Some? && e.stopAfter.value < |due.value| then due.value[..e.stopAfter.value]
    else due.value
  }

  function Saved(last: Option<nat>, e: TickEvent): Option<nat>
    requires HorizonFits(e.now, HORIZON)
  {
    var due := DueOf(e.jobs, e.host, Since(last, e.now), e.now);
    if due.Success? && (e.stopAfter.Some? ==> |due.value| < e.stopAfter.value) then Some(e.now) else last
  }

  /** The saved time and everything fired, after a run from a fresh installation. */
  function Run(events: seq<TickEvent>): (Option<nat>, seq<Firing>)
    requires forall e :: e in events ==> HorizonFits(e.now, HORIZON)
  {
    if events == [] then (None, [])
    else
      var (last, log) := Run(events[..|events| - 1]);
      var e := events[|events| - 1];
      (Saved(last, e), log + Fired(last, e))
  }

  predicate DistinctPairs(jobs: seq<Job>) {
    forall i, j :: 0 <= i < j < |jobs| ==> jobs[i].Pair() != jobs[j].Pair()
  }

  /** Increasing times, no tick cut short, and no project listing a loop twice; schedules may change. */
  predicate GoodRun(events: seq<TickEvent>) {
    && (forall i, j :: 0 <= i < j < |events| ==> events[i].now <= events[j].now)
    && (forall e :: e in events ==> HorizonFits(e.now, HORIZON) && e.stopAfter.None? && DistinctPairs(e.jobs))
  }

  ghost predicate OncePerPair(log: seq<Firing>) {
    forall i, j :: 0 <= i < j < |log| && log[i].pair == log[j].pair ==> log[i].occurrence < log[j].occurrence
  }

  lemma {:induction false} DueOncePerPair(jobs: seq<Job>, host: string, since: int, now: nat)
    requires HorizonFits(now, HORIZON) && DueOf(jobs, host, since, now).Success? && DistinctPairs(jobs)
    ensures var due := DueOf(jobs, host, since, now).value;
            && (forall f :: f in due ==> since < f.occurrence <= now)
            && (forall i, j :: 0 <= i < j < |due| ==> due[i].pair != due[j].pair)
            && (forall f :: f in due ==> exists k :: 0 <= k < |jobs| && jobs[k].Pair() == f.pair)
  {
    if jobs != [] {
      DueOncePerPair(jobs[..|jobs| - 1], host, since, now);
    }
  }

  /**
   Over any good run each occurrence of a loop fires at most once, and the occurrences a loop
   fires strictly increase, even if its schedule is changed between ticks.
   */
  lemma {:induction false} OccurrencesFireOnce(events: seq<TickEvent>)
    requires GoodRun(events)
    ensures OncePerPair(Run(events).1)
    ensures Run(events).0.None? ==> Run(events).1 == []
    ensures forall f :: f in Run(events).1 ==> f.occurrence <= Run(events).0.value
    ensures Run(events).0.Some? ==> exists e :: e in events && e.now == Run(events).0.value
  {
    if events != [] {
      var init, e := events[..|events| - 1], events[|events| - 1];
      OccurrencesFireOnce(init);
      var (last, log) := Run(init);
      if DueOf(e.jobs, e.host, Since(last, e.now), e.now).Success? {
        DueOncePerPair(e.jobs, e.host, Since(last, e.now), e.now);
        assert forall f :: f in Fired(last, e) ==> Since(last, e.now) < f.occurrence <= e.now;
        assert last.Some? ==> last.value <= e.now;
      }
    }
  }

  lemma DueOfOne(j: Job, host: string, since: int, now: nat)
    requires HorizonFits(now, HORIZON)
    ensures DueOf([j], host, since, now)
         == if Raised(j, host, now).Some? then Failure(Raised(j, host, now).value)
            else Success(FiringsOf(j, host, since, now))
  {
    DueSnoc([], j, host, since, now);
    assert [] + [j] == [j];
    assert [] + FiringsOf(j, host, since, now) == FiringsOf(j, host, since, now);
  }

  /**
   A tick cut short fires its occurrence again at the next tick, unless a later one has come up
   meanwhile or a cron's has sunk below the horizon.
   */
  lemma CutShortFiresAgain(j: Job, host: string, last: nat, now: nat, later: nat)
    requires HorizonFits(now, HORIZON) && now <= later && FiringsOf(j, host, last, now) != []
    ensures var cut := TickOf([j], host, now, Some(1));
            && Fired(Some(last), cut) != [] && Saved(Some(last), cut) == Some(last)
            && (Fired(Some(last), TickOf([j], host, later, None)) == Fired(Some(last), cut) <==>
                  && (forall t :: now < t <= later ==> !Occurs(j.schedule.value, t))
                  && (j.schedule.value.FiveField? ==> HorizonFloor(later) <= Fired(Some(last), cut)[0].occurrence))
  {
    DueOfOne(j, host, last, now);
    DueOfOne(j, host, last, later);
    LastStays(j.schedule.value, now, later);
  }

  /** The last occurrence stays the last until the schedule occurs again or it leaves the horizon. */
  lemma LastStays(s: Schedule, now: nat, later: nat)
    requires HorizonFits(now, HORIZON) && now <= later && WellFormed(s, now) && LastOf(s, now).Some?
    ensures HorizonFits(later, HORIZON)
    ensures LastFire(Success(s), later) == LastOf(s, now) <==>
      && (forall t :: now < t <= later ==> !Occurs(s, t))
      && (s.FiveField? ==> HorizonFloor(later) <= LastOf(s, now).value)
  {
    var a := LastOf(s, now).value;
    assert Occurs(s, a) && a <= now;
    if forall t :: now < t <= later ==> !Occurs(s, t) {
      if s.Every? {
        assert later < LastStep(s.days, s.hour, s.minute, later) + InstantOf(Days(s.days));
        StepStays(s, now, later);
      }
    }
  }

  lemma StepStays(s: Schedule, now: nat, later: nat)
    requires s.Every? && WellFormed(s, now) && now <= later && forall t :: now < t <= later ==> !Occurs(s, t)
    ensures LastStep(s.days, s.hour, s.minute, later) == LastStep(s.days, s.hour, s.minute, now)
  {
    var p := LastStep(s.days, s.hour, s.minute, later);
    assert Occurs(s, p);
    assert IsLastInterval(s.days, s.hour, s.minute, now, p);
    IntervalIsUnique(s.days, s.hour, s.minute, now, p, LastStep(s.days, s.hour, s.minute, now));
  }

  /** A loop listed twice fires the same occurrence twice in one tick. */
  lemma ListedTwiceFiresTwice(j: Job, host: string, since: int, now: nat)
    requires HorizonFits(now, HORIZON) && FiringsOf(j, host, since, now) != []
    ensures var due := DueOf([j, j], host, since, now);
            due.Success? && |due.value| == 2 && due.value[0] == due.value[1]
  {
    DueOfOne(j, host, since, now);
    DueSnoc([j], j, host, since, now);
    assert [j] + [j] == [j, j];
  }
}
