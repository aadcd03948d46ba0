/**
 The launch registry and the lock protocol together, over any run of ticks, processes and reaps
 (collectors/scheduler.py, collectors/budget.py, collectors/lock.py).

 The registry is one file.  Recording a launch and reaping both read it whole and later write it whole, so
 that what one process writes may rest on a file that another has changed since.
 */
module LaunchRuns {
  import opened Results
  import opened Reaping
  import Locks

  /**
   What a process that has read the registry after so many writes is going to write, and the run it records,
   if it does.
   */
  datatype Pending = Pending(since: nat, content: seq<Launch>, run: Option<string>)

  /** `writes` counts the writes of the file, and `recorded` remembers every run whose record was ever written. */
  datatype System = System(protocol: Locks.State, registry: seq<Launch>, writes: nat, pending: map<nat, Pending>,
                           recorded: set<string>)

  datatype Event =
    | Protocol(step: Locks.Step)
    | ReadsToRecord(process: nat, launch: Launch)
    | ReadsToReap(process: nat, w: World)  // and stops what is over budget
    | Writes(process: nat)

  const INITIAL := System(Locks.INITIAL, [], 0, map[], {})

  predicate IsLive(p: Locks.State, run: string) {
    run in p.runs && p.runs[run].phase == Locks.Live
  }

  /** The run's process has been started, and may be over by now. */
  predicate Spawned(p: Locks.State, run: string) {
    run in p.runs && (p.runs[run].phase == Locks.Live || p.runs[run].phase == Locks.Over)
  }

  predicate IsEntryOf(p: Locks.State, lc: Launch) {
    Spawned(p, lc.run) && lc.lockKey == Some(p.runs[lc.run].key)
  }

  predicate AreEntriesOf(p: Locks.State, launches: seq<Launch>) {
    forall lc :: lc in launches ==> IsEntryOf(p, lc)
  }

  /** The reaper finds exactly the live processes alive. */
  predicate Sees(w: World, s: System) {
    forall lc :: lc in s.registry ==> (lc.run in w.alive <==> IsLive(s.protocol, lc.run))
  }

  /** Releases are the reaper's, and come with what it stops. */
  predicate Possible(s: System, e: Event) {
    match e
    case Protocol(step) => !step.Release? && Locks.Enabled(s.protocol, step) && Locks.Timely(s.protocol, step)
    case ReadsToRecord(process, lc) => process !in s.pending && IsEntryOf(s.protocol, lc)
    case ReadsToReap(process, w) => process !in s.pending && Sees(w, s)
    case Writes(process) => process in s.pending
  }

  predicate AreKnown(p: Locks.State, launches: seq<Launch>) {
    forall lc :: lc in launches ==> lc.run in p.runs
  }

  /** The protocol after these launches have been ended and their locks given back, one after another. */
  function Stopped(p: Locks.State, stopped: seq<Launch>): (after: Locks.State)
    requires AreKnown(p, stopped)
    ensures after.runs.Keys == p.runs.Keys && after.clock == p.clock
  {
    if stopped == [] then p
    else
      var n := |stopped| - 1;
      var ended := Locks.Next(Stopped(p, stopped[..n]), Locks.End(stopped[n].run));
      Locks.Next(ended, Locks.Release(stopped[n].run))
  }

  function Recording(registry: seq<Launch>, lc: Launch): seq<Launch> {
    Select(registry, OtherRun(lc.run)) + [lc]
  }

  function Next(s: System, e: Event): System
    requires Possible(s, e) && AreEntriesOf(s.protocol, s.registry)
  {
    match e
    case Protocol(step) => s.(protocol := Locks.Next(s.protocol, step))
    case ReadsToRecord(process, lc) =>
      s.(pending := s.pending[process := Pending(s.writes, Recording(s.registry, lc), Some(lc.run))])
    case ReadsToReap(process, w) =>
      SelectMembers(s.registry, IsStopped(w));
      s.(protocol := Stopped(s.protocol, Select(s.registry, IsStopped(w))),
         pending := s.pending[process := Pending(s.writes, Select(s.registry, IsKept(w)), None)])
    case Writes(process) =>
      var written := s.pending[process];
      s.(registry := written.content,
         writes := s.writes + 1,
         pending := s.pending - {process},
         recorded := s.recorded + if written.run.Some? then {written.run.value} else {})
  }

  // ------------------------------------------------------------------- what every event keeps

  predicate Watched(launches: seq<Launch>, run: string) {
    exists i :: 0 <= i < |launches| && launches[i].run == run
  }

  lemma WatchedIff(launches: seq<Launch>, run: string)
    ensures Watched(launches, run) <==> exists lc :: lc in launches && lc.run == run
  {
  }

  lemma WatchedOfMore(launches: seq<Launch>, run: string)
    requires launches != []
    ensures Watched(launches, run) <==> Watched(launches[..|launches| - 1], run) || launches[|launches| - 1].run == run
  {
    var init := launches[..|launches| - 1];
    assert forall i :: 0 <= i < |init| ==> init[i] == launches[i];
  }

  predicate IsProper(p: Locks.State, launches: seq<Launch>) {
    UniqueRuns(launches) && AreEntriesOf(p, launches)
  }

  /** The file, and all that is about to be written, names spawned runs, each once. */
  ghost predicate Orderly(s: System) {
    && Locks.Consistent(s.protocol) && IsProper(s.protocol, s.registry)
    && (forall process :: process in s.pending ==>
          && IsProper(s.protocol, s.pending[process].content)
          && (s.pending[process].run.Some? ==> Spawned(s.protocol, s.pending[process].run.value)))
    && (forall r :: r in s.recorded ==> Spawned(s.protocol, r))
  }

  /** Spawned runs stay spawned, and none is live again. */
  ghost predicate Ages(p: Locks.State, q: Locks.State) {
    forall r :: Spawned(p, r) ==> Spawned(q, r) && q.runs[r].key == p.runs[r].key && (IsLive(q, r) ==> IsLive(p, r))
  }

  lemma {:induction false} StoppingKeeps(p: Locks.State, stopped: seq<Launch>)
    requires AreKnown(p, stopped) && Locks.Consistent(p)
    ensures Locks.Consistent(Stopped(p, stopped))
    ensures forall r :: r in p.runs ==>
      Stopped(p, stopped).runs[r] == if Watched(stopped, r) then p.runs[r].(phase := Locks.Over) else p.runs[r]
  {
    if stopped != [] {
      var n := |stopped| - 1;
      var init, run := stopped[..n], stopped[n].run;
      StoppingKeeps(p, init);
      var before := Stopped(p, init);
      Locks.StepKeepsConsistent(before, Locks.End(run));
      Locks.StepKeepsConsistent(Locks.Next(before, Locks.End(run)), Locks.Release(run));
      forall r
        ensures Watched(stopped, r) <==> Watched(init, r) || r == run
      {
        WatchedOfMore(stopped, r);
      }
    }
  }

  lemma EventAges(s: System, e: Event)
    requires Orderly(s) && Possible(s, e)
    ensures Locks.Consistent(Next(s, e).protocol) && Ages(s.protocol, Next(s, e).protocol)
  {
    match e
    case Protocol(step) => Locks.StepKeepsConsistent(s.protocol, step);
    case ReadsToReap(_, w) =>
      SelectMembers(s.registry, IsStopped(w));
      StoppingKeeps(s.protocol, Select(s.registry, IsStopped(w)));
    case _ =>
  }

  lemma ProperStays(p: Locks.State, q: Locks.State, launches: seq<Launch>)
    requires IsProper(p, launches) && Ages(p, q)
    ensures IsProper(q, launches)
  {
  }

  lemma ReadIsProper(s: System, e: Event)
    requires Orderly(s) && Possible(s, e) && (e.ReadsToRecord? || e.ReadsToReap?)
    ensures IsProper(s.protocol, Next(s, e).pending[e.process].content)
  {
    match e
    case ReadsToRecord(_, lc) =>
      RecordKeepsUnique(s.registry, lc);
      SelectMembers(s.registry, OtherRun(lc.run));
    case ReadsToReap(_, w) =>
      SelectKeepsUnique(s.registry, IsKept(w));
      SelectMembers(s.registry, IsKept(w));
  }

  lemma EventKeepsOrderly(s: System, e: Event)
    requires Orderly(s) && Possible(s, e)
    ensures Orderly(Next(s, e))
  {
    var after := Next(s, e);
    EventAges(s, e);
    if e.ReadsToRecord? || e.ReadsToReap? {
      ReadIsProper(s, e);
    }
    forall process | process in after.pending
      ensures IsProper(after.protocol, after.pending[process].content)
    {
      ProperStays(s.protocol, after.protocol, after.pending[process].content);
    }
    ProperStays(s.protocol, after.protocol, after.registry);
  }

  // ------------------------------------------------------------------- whole runs

  /** What a run of events makes of a state, if each was possible when it happened. */
  ghost function After(s: System, events: seq<Event>): (after: Option<System>)
    requires Orderly(s)
    ensures after.Some? ==> Orderly(after.value)
  {
    if events == [] then Some(s)
    else
      var before, e := After(s, events[..|events| - 1]), events[|events| - 1];
      if before.None? || !Possible(before.value, e) then None
      else
        EventKeepsOrderly(before.value, e);
        Some(Next(before.value, e))
  }

  predicate IsOf(e: Event, process: nat) {
    !e.Protocol? && e.process == process
  }

  predicate Records(e: Event, run: string) {
    e.ReadsToRecord? && e.launch.run == run
  }

  lemma {:induction false} PendingStays(s: System, events: seq<Event>, process: nat)
    requires Orderly(s) && After(s, events).Some? && process in s.pending
    requires forall e :: e in events ==> !IsOf(e, process)
    ensures var t := After(s, events).value;
            && process in t.pending && t.pending[process] == s.pending[process]
            && Ages(s.protocol, t.protocol)
  {
    if events != [] {
      var n := |events| - 1;
      assert events[n] in events;
      PendingStays(s, events[..n], process);
      EventAges(After(s, events[..n]).value, events[n]);
    }
  }

  /**
   What a process that reads is going to write names a run live by then iff the file did, or it is the one
   recorded.
   */
  lemma ReadKeepsLive(s: System, e: Event, run: string)
    requires Orderly(s) && Possible(s, e) && (e.ReadsToRecord? || e.ReadsToReap?)
    requires IsLive(Next(s, e).protocol, run)
    ensures Watched(Next(s, e).pending[e.process].content, run) <==> Watched(s.registry, run) || Records(e, run)
  {
    var content := Next(s, e).pending[e.process].content;
    WatchedIff(s.registry, run);
    WatchedIff(content, run);
    match e
    case ReadsToRecord(_, lc) =>
      SelectMembers(s.registry, OtherRun(lc.run));
      assert lc in content;
    case ReadsToReap(_, w) =>
      var stopped := Select(s.registry, IsStopped(w));
      SelectMembers(s.registry, IsStopped(w));
      SelectMembers(s.registry, IsKept(w));
      StoppingKeeps(s.protocol, stopped);
      WatchedIff(stopped, run);
  }

  /**
   Whatever other processes do between a read of the registry and the write that rests on it: after the write
   a live run is watched exactly when it was watched at the read, or is the one recorded.
   */
  lemma WriteForgetsTheRest(s: System, read: Event, between: seq<Event>, t: System, run: string)
    requires Orderly(s) && Possible(s, read) && (read.ReadsToRecord? || read.ReadsToReap?)
    requires Orderly(Next(s, read)) && After(Next(s, read), between) == Some(t)
    requires forall e :: e in between ==> !IsOf(e, read.process)
    ensures Possible(t, Writes(read.process))
    ensures var after := Next(t, Writes(read.process));
            IsLive(after.protocol, run) ==>
              (Watched(after.registry, run) <==> Watched(s.registry, run) || Records(read, run))
  {
    PendingStays(Next(s, read), between, read.process);
    var content := Next(s, read).pending[read.process].content;
    ReadIsProper(s, read);
    if Spawned(s.protocol, run) {
      EventAges(s, read);
      if IsLive(t.protocol, run) {
        ReadKeepsLive(s, read, run);
      }
    } else {
      WatchedIff(content, run);
      WatchedIff(s.registry, run);
    }
  }

  // ------------------------------------------------------------------- while no write is lost

  /** The file has not been written since the process read it. */
  predicate IsUpToDate(s: System, e: Event) {
    e.Writes? && e.process in s.pending ==> s.pending[e.process].since == s.writes
  }

  ghost predicate NoneOutdated(s: System, events: seq<Event>)
    requires Orderly(s)
  {
    forall k :: 0 <= k < |events| && After(s, events[..k]).Some? ==> IsUpToDate(After(s, events[..k]).value, events[k])
  }

  /** Every live run whose record was written is on this list. */
  ghost predicate NamesLive(s: System, launches: seq<Launch>) {
    forall r :: r in s.recorded && IsLive(s.protocol, r) ==> Watched(launches, r)
  }

  /** The file watches every live recorded run, and so does whatever would be written over it as it is. */
  ghost predicate Supervised(s: System) {
    && Orderly(s) && NamesLive(s, s.registry)
    && (forall process :: process in s.pending ==>
          && s.pending[process].since <= s.writes
          && (s.pending[process].since == s.writes ==> NamesLive(s, s.pending[process].content))
          && (s.pending[process].run.Some? ==> Watched(s.pending[process].content, s.pending[process].run.value)))
  }

  lemma ReadNamesLive(s: System, e: Event)
    requires Supervised(s) && Possible(s, e) && (e.ReadsToRecord? || e.ReadsToReap?)
    ensures NamesLive(Next(s, e), Next(s, e).pending[e.process].content)
    ensures NamesLive(Next(s, e), s.registry)
  {
    EventAges(s, e);
    forall r | r in s.recorded && IsLive(Next(s, e).protocol, r)
      ensures Watched(Next(s, e).pending[e.process].content, r)
    {
      ReadKeepsLive(s, e, r);
    }
  }

  lemma AgeingKeepsNames(s: System, t: System, launches: seq<Launch>)
    requires NamesLive(s, launches) && Ages(s.protocol, t.protocol) && t.recorded == s.recorded
    requires forall r :: r in s.recorded ==> Spawned(s.protocol, r)
    ensures NamesLive(t, launches)
  {
  }

  lemma EventKeepsSupervised(s: System, e: Event)
    requires Supervised(s) && Possible(s, e) && IsUpToDate(s, e)
    ensures Supervised(Next(s, e))
  {
    var after := Next(s, e);
    EventKeepsOrderly(s, e);
    EventAges(s, e);
    if !e.Writes? {
      AgeingKeepsNames(s, after, s.registry);
      forall process | process in s.pending && s.pending[process].since == s.writes
        ensures NamesLive(after, s.pending[process].content)
      {
        AgeingKeepsNames(s, after, s.pending[process].content);
      }
      if !e.Protocol? {
        ReadNamesLive(s, e);
      }
    }
    if e.ReadsToRecord? {
      assert e.launch in after.pending[e.process].content;
      WatchedIff(after.pending[e.process].content, e.launch.run);
    }
  }

  lemma {:induction false} RunsStaySupervised(events: seq<Event>)
    requires After(INITIAL, events).Some? && NoneOutdated(INITIAL, events)
    ensures Supervised(After(INITIAL, events).value)
  {
    if events != [] {
      var n := |events| - 1;
      assert forall k :: 0 <= k < n ==> events[..n][..k] == events[..k];
      RunsStaySupervised(events[..n]);
      EventKeepsSupervised(After(INITIAL, events[..n]).value, events[n]);
    }
  }

  ghost predicate Reaches(events: seq<Event>, s: System) {
    After(INITIAL, events) == Some(s)
  }

  /**
   However launches, processes and reaps interleave: the registry names no run twice, and the live runs it
   watches hold their locks, one to a key.  As long as no write rests on an outdated read, no live run is lost
   sight of once it is recorded.
   */
  lemma LiveRunsStayWatched(events: seq<Event>, s: System, run: string, a: Launch, b: Launch)
    requires Reaches(events, s)
    ensures UniqueRuns(s.registry)
    ensures a in s.registry && IsLive(s.protocol, a.run) ==>
      a.lockKey.Some? && Locks.Holds(s.protocol.locks, a.lockKey.value, a.run)
    ensures a in s.registry && b in s.registry && IsLive(s.protocol, a.run) && IsLive(s.protocol, b.run) ==>
      a == b || a.lockKey != b.lockKey
    ensures NoneOutdated(INITIAL, events) && run in s.recorded && IsLive(s.protocol, run) ==> Watched(s.registry, run)
  {
    if NoneOutdated(INITIAL, events) {
      RunsStaySupervised(events);
    }
  }

  /** For one: a run recorded while a reap is under way, and live, is watched afterwards only if it was before. */
  lemma RecordDuringReapIsLost(s: System, reap: Event, between: seq<Event>, t: System, run: string)
    requires Orderly(s) && Possible(s, reap) && reap.ReadsToReap?
    requires Orderly(Next(s, reap)) && After(Next(s, reap), between) == Some(t)
    requires forall e :: e in between ==> !IsOf(e, reap.process)
    requires run in t.recorded && IsLive(t.protocol, run) && !Watched(s.registry, run)
    ensures Possible(t, Writes(reap.process))
    ensures var after := Next(t, Writes(reap.process));
            run in after.recorded && IsLive(after.protocol, run) && !Watched(after.registry, run)
  {
    WriteForgetsTheRest(s, reap, between, t, run);
  }

  // ------------------------------------------------------------------- what a reap stops

  /**
   What a reap is going to write are the live runs within their limits; no stopped run is live any more, and
   the lock of each is free for any other to take at once.
   */
  lemma ReapFreesStoppedKeys(s: System, process: nat, w: World, lc: Launch)
    requires Orderly(s) && Possible(s, ReadsToReap(process, w)) && lc in s.registry
    ensures var after := Next(s, ReadsToReap(process, w));
            var kept := after.pending[process].content;
            && (lc in kept <==>
                  IsLive(s.protocol, lc.run) && forall r :: !Breaches(lc.limits, UsageOf(w, lc.run), r))
            && (IsLive(after.protocol, lc.run) <==> lc in kept)
            && (IsLive(s.protocol, lc.run) && lc !in kept ==> lc.lockKey.value !in after.protocol.locks)
  {
    var stopped := Select(s.registry, IsStopped(w));
    FateIsDeserved(s.registry, w, lc);
    SelectMembers(s.registry, IsStopped(w));
    StoppingKeeps(s.protocol, stopped);
    WatchedIff(stopped, lc.run);
    StoppedLocks(s.protocol, stopped);
    StoppedRunsHoldNothing(s.protocol.locks, stopped);
  }

  /** The locks are those the reaper's own releases leave. */
  lemma {:induction false} StoppedLocks(p: Locks.State, stopped: seq<Launch>)
    requires AreKnown(p, stopped) && AreEntriesOf(p, stopped)
    ensures Stopped(p, stopped).locks == ReleasedBy(p.locks, stopped)
    ensures forall r :: r in p.runs ==> Stopped(p, stopped).runs[r].key == p.runs[r].key
  {
    if stopped != [] {
      var lc := stopped[|stopped| - 1];
      StoppedLocks(p, stopped[..|stopped| - 1]);
      assert lc in stopped && lc.lockKey == Some(p.runs[lc.run].key);
    }
  }

  /** A signal is taken to end its process: one that runs on after its lock is given back has company. */
  lemma SurvivorBreaksExclusion(p: Locks.State, run: string, other: string, host: string, timeoutMinutes: nat)
    requires Locks.Consistent(p) && IsLive(p, run) && other !in p.runs
    ensures var key := p.runs[run].key;
            var freed := p.(locks := Locks.Released(p.locks, key, run));
            var claimed := Locks.Next(freed, Locks.Claim(other, key, host, timeoutMinutes, p.clock));
            var granted := Locks.Next(claimed, Locks.ReadBack(other));
            var spawned := Locks.Next(granted, Locks.Spawn(other));
            IsLive(spawned, run) && IsLive(spawned, other) && spawned.runs[run].key == spawned.runs[other].key
  {
  }
}
