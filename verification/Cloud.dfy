/**
 The cloud routine, which keeps no state of its own: committed receipts are its clock
 (collectors/cloud.py).  The files are those of one project and cadence.
 */
module Cloud {
  import opened Results
  import opened Lexical
  import opened Schedules
  import opened Cron
  import Receipts

  /** File name to the `ended` second inside, or None if the file cannot be read or parsed. */
  type Files = map<string, Option<nat>>

  ghost predicate IsReceipt(name: string, content: Option<nat>) {
    content.Some? && FourDigitYear(content.value) && exists run :: name == Receipts.FileName(content.value, run)
  }

  ghost predicate WellNamed(files: Files) {
    forall n :: n in files ==> IsReceipt(n, files[n])
  }

  ghost predicate IsLastName(files: Files, n: string) {
    n in files && forall m :: m in files && m != n ==> Less(m, n)
  }

  lemma {:induction false} SomeNameIsLast(names: set<string>) returns (n: string)
    requires names != {}
    ensures n in names && forall m :: m in names && m != n ==> Less(m, n)
    decreases |names|
  {
    var x := Any(names);
    if names == {x} {
      n := x;
    } else {
      n := SomeNameIsLast(names - {x});
      LessTotal(x, n);
      if Less(n, x) {
        forall m | m in names && m != x
          ensures Less(m, x)
        {
          if m != n {
            LessTransitive(m, n, x);
          }
        }
        n := x;
      }
    }
  }

  lemma HasLastName(files: Files)
    requires files.Keys != {}
    ensures exists n :: IsLastName(files, n)
  {
    var n := SomeNameIsLast(files.Keys);
    assert IsLastName(files, n);
  }

  /** The `ended` of the file whose name sorts last. */
  ghost function NewestEnded(files: Files): Option<nat> {
    if files.Keys == {} then None
    else
      var n := LastName(files);
      files[n]
  }

  ghost function LastName(files: Files): (n: string)
    requires files.Keys != {}
    ensures IsLastName(files, n)
  {
    HasLastName(files);
    var n :| IsLastName(files, n);
    n
  }

  lemma LastNameIsUnique(files: Files, n: string)
    requires IsLastName(files, n)
    ensures files.Keys != {} && LastName(files) == n
  {
    LessTotal(n, LastName(files));
  }

  method LatestReceiptEnded(files: Files) returns (r: Option<nat>)
    ensures r == NewestEnded(files)
  {
    if files.Keys == {} {
      return None;
    }
    var names := files.Keys;
    var last: Option<string> := None;
    while names != {}
      invariant names <= files.Keys
      invariant last.None? <==> names == files.Keys
      invariant last.Some? ==> last.value in files.Keys - names
      invariant last.Some? ==> forall m :: m in files.Keys - names && m != last.value ==> Less(m, last.value)
      decreases |names|
    {
      var name :| name in names;
      if last.Some? {
        LessTotal(name, last.value);
        forall m | Less(m, last.value) && Less(last.value, name) {
          LessTransitive(m, last.value, name);
        }
      }
      names := names - {name};
      if last.None? || Less(last.value, name) {
        last := Some(name);
      }
    }
    LastNameIsUnique(files, last.value);
    r := files[last.value];
  }

  /** The lexically last receipt file is the one with the latest `ended`. */
  lemma LastNameHasLatestEnded(files: Files)
    requires WellNamed(files) && files.Keys != {}
    ensures NewestEnded(files).Some?
    ensures forall n :: n in files ==> files[n].value <= NewestEnded(files).value
  {
    var last := LastName(files);
    forall n | n in files
      ensures files[n].value <= files[last].value
    {
      assert IsReceipt(n, files[n]) && IsReceipt(last, files[last]);
      var run :| n == Receipts.FileName(files[n].value, run);
      var run' :| last == Receipts.FileName(files[last].value, run');
      CompactOrder(files[n].value, files[last].value, Receipts.Suffix(run), Receipts.Suffix(run'));
    }
  }

  function SecondsAt(second: nat): int {
    second * 1_000_000
  }

  /** The occurrence the routine would run now, if any. */
  ghost function DueAt(s: Schedule, files: Files, now: nat): Option<int>
    requires HorizonFits(now, HORIZON)
  {
    if !WellFormed(s, now) then None
    else
      var last := NewestEnded(files);
      var occ := LastOf(s, now);
      if occ.None? || (last.Some? && SecondsAt(last.value) >= occ.value) then None else occ
  }

  method DueCloud(s: Result<Schedule>, files: Files, now: nat) returns (r: Result<Option<int>>)
    requires HorizonFits(now, HORIZON)
    ensures r.Failure? <==> Uncaught(s, now).Some?
    ensures r.Failure? ==> r.error == Uncaught(s, now).value
    ensures r.Success? ==> r.value == DueAt(s.value, files, now)
  {
    if s.Failure? {
      return Failure(s.error);
    }
    var occ := PreviousFireOf(s.value, now);
    if occ.Failure? {
      return if occ.error == ValueError then Success(None) else Failure(occ.error);
    }
    if occ.value.None? {
      return Success(None);
    }
    var last := LatestReceiptEnded(files);
    if last.Some? && SecondsAt(last.value) >= occ.value.value {
      return Success(None);
    }
    r := Success(occ.value);
  }

  // ------------------------------------------------------------------- whole runs

  datatype Outcome = NoReceipt | Receipt(ended: nat, run: string)

  /** A tick of the routine, or a receipt committed by anyone else. */
  datatype Event =
    | Tick(schedule: Schedule, now: nat, outcome: Outcome)
    | Committed(ended: nat, run: string)

  // Occurrences and steps are whole minutes, so a receipt stamped with the second of its tick,
  // or a later one, is never older than the occurrence it was run for.
  predicate EndsAfterTick(e: Event) {
    e.Tick? && e.outcome.Receipt? ==> e.now / 1_000_000 <= e.outcome.ended
  }

  predicate GoodEvent(e: Event) {
    && EndsAfterTick(e)
    && (e.Tick? ==> HorizonFits(e.now, HORIZON) && (e.outcome.Receipt? ==> FourDigitYear(e.outcome.ended)))
    && (e.Committed? ==> FourDigitYear(e.ended))
  }

  ghost function After(files: Files, e: Event): Files
    requires GoodEvent(e)
  {
    match e
    case Committed(ended, run) => files[Receipts.FileName(ended, run) := Some(ended)]
    case Tick(s, now, outcome) =>
      if DueAt(s, files, now).Some? && outcome.Receipt?
      then files[Receipts.FileName(outcome.ended, outcome.run) := Some(outcome.ended)]
      else files
  }

  /** The files and the occurrences run, in order. */
  ghost function Run(files: Files, events: seq<Event>): (Files, seq<int>)
    requires forall e :: e in events ==> GoodEvent(e)
  {
    if events == [] then (files, [])
    else
      var (before, log) := Run(files, events[..|events| - 1]);
      var e := events[|events| - 1];
      (After(before, e), log + Ran(before, e))
  }

  lemma AddedReceipt(files: Files, ended: nat, run: string)
    requires WellNamed(files) && FourDigitYear(ended)
    ensures WellNamed(files[Receipts.FileName(ended, run) := Some(ended)])
    ensures NewestEnded(files[Receipts.FileName(ended, run) := Some(ended)]).Some?
    ensures NewestEnded(files[Receipts.FileName(ended, run) := Some(ended)]).value >= ended
    ensures NewestEnded(files).Some? ==>
      NewestEnded(files[Receipts.FileName(ended, run) := Some(ended)]).value >= NewestEnded(files).value
  {
    var name := Receipts.FileName(ended, run);
    var files' := files[name := Some(ended)];
    assert IsReceipt(name, Some(ended));
    forall n | n in files'
      ensures IsReceipt(n, files'[n])
    {
    }
    assert name in files'.Keys;
    LastNameHasLatestEnded(files');
    if files.Keys != {} {
      var last := LastName(files);
      if last == name {
        var run' :| last == Receipts.FileName(files[last].value, run');
        CompactOrder(ended, files[last].value, Receipts.Suffix(run), Receipts.Suffix(run'));
        CompactOrder(files[last].value, ended, Receipts.Suffix(run'), Receipts.Suffix(run));
        LessTotal(last, last);
      } else {
        assert last in files';
      }
    }
  }

  lemma IntervalIsWholeMinute(s: Schedule, now: nat) returns (m: int)
    requires s.Every? && WellFormed(s, now) && HorizonFits(now, HORIZON)
    ensures LastOf(s, now).value == 60_000_000 * m
  {
    var step := InstantOf(Days(s.days));
    var k :| LastStep(s.days, s.hour, s.minute, now) == Base(s.hour, s.minute) + Times(k, step);
    m := ANCHOR + s.hour * 60 + s.minute + Times(k, Days(s.days));
    TimesScales(k, Days(s.days));
  }

  lemma TimesScales(k: int, days: nat)
    ensures Times(k, InstantOf(days)) == 60_000_000 * Times(k, days)
  {
  }

  lemma OccurrenceIsWholeMinute(s: Schedule, now: nat)
    requires WellFormed(s, now) && HorizonFits(now, HORIZON) && LastOf(s, now).Some?
    ensures LastOf(s, now).value <= SecondsAt(now / 1_000_000)
  {
    if s.FiveField? {
      var m: nat :| LastOf(s, now).value == InstantOf(m);
      WholeMinuteBeforeSecond(m, now);
    } else {
      var m := IntervalIsWholeMinute(s, now);
      WholeMinuteBeforeSecond(m, now);
    }
  }

  lemma MillionFits(a: int, b: int)
    requires 1_000_000 * a < 1_000_000 * b
    ensures a < b
  {
  }

  lemma WholeMinuteBeforeSecond(m: int, now: nat)
    requires 60_000_000 * m <= now
    ensures 60_000_000 * m <= SecondsAt(now / 1_000_000)
  {
    var second := now / 1_000_000;
    assert now < 1_000_000 * (second + 1);
    MillionFits(60 * m, second + 1);
  }

  ghost predicate Increasing(log: seq<int>) {
    forall i, j :: 0 <= i < j < |log| ==> log[i] < log[j]
  }

  predicate AlwaysLeavesReceipt(e: Event) {
    GoodEvent(e) && (e.Tick? ==> e.outcome.Receipt?)
  }

  /** What every event keeps: the newest receipt is no older than any occurrence run so far. */
  ghost predicate Covered(files: Files, log: seq<int>) {
    && WellNamed(files)
    && (log != [] ==> NewestEnded(files).Some?)
    && (forall t :: t in log ==> t <= SecondsAt(NewestEnded(files).value))
    && Increasing(log)
  }

  ghost function Ran(files: Files, e: Event): seq<int>
    requires GoodEvent(e)
  {
    if e.Tick? && DueAt(e.schedule, files, e.now).Some? then [DueAt(e.schedule, files, e.now).value] else []
  }

  lemma ReceiptKeepsCovered(files: Files, log: seq<int>, ended: nat, run: string)
    requires Covered(files, log) && FourDigitYear(ended)
    ensures Covered(files[Receipts.FileName(ended, run) := Some(ended)], log)
  {
    AddedReceipt(files, ended, run);
  }

  lemma OccurrenceKeepsCovered(files: Files, log: seq<int>, t: int)
    requires Covered(files, log) && NewestEnded(files).Some? && t <= SecondsAt(NewestEnded(files).value)
    requires forall t' :: t' in log ==> t' < t
    ensures Covered(files, log + [t])
  {
    var log' := log + [t];
    forall i, j | 0 <= i < j < |log'|
      ensures log'[i] < log'[j]
    {
      assert log'[i] == log[i] && log[i] in log;
    }
  }

  lemma DueIsNew(s: Schedule, files: Files, log: seq<int>, now: nat)
    requires Covered(files, log) && HorizonFits(now, HORIZON) && DueAt(s, files, now).Some?
    ensures forall t :: t in log ==> t < DueAt(s, files, now).value
    ensures DueAt(s, files, now).value <= SecondsAt(now / 1_000_000)
  {
    OccurrenceIsWholeMinute(s, now);
    if files.Keys != {} {
      LastNameHasLatestEnded(files);
    }
  }

  lemma EventKeepsCovered(files: Files, log: seq<int>, e: Event)
    requires Covered(files, log) && AlwaysLeavesReceipt(e)
    ensures Covered(After(files, e), log + Ran(files, e))
  {
    match e
    case Committed(ended, run) =>
      ReceiptKeepsCovered(files, log, ended, run);
      assert log + [] == log;
    case Tick(s, now, outcome) =>
      if DueAt(s, files, now).Some? {
        DueIsNew(s, files, log, now);
        AddedReceipt(files, outcome.ended, outcome.run);
        ReceiptKeepsCovered(files, log, outcome.ended, outcome.run);
        OccurrenceKeepsCovered(After(files, e), log, DueAt(s, files, now).value);
      } else {
        assert log + [] == log;
      }
  }

  /**
   As long as every run leaves a receipt, each occurrence is run at most once over any sequence of
   ticks, whatever the clock does and whoever else commits receipts.
   */
  lemma {:induction false} CloudOccurrencesRunOnce(files: Files, events: seq<Event>)
    requires WellNamed(files)
    requires forall e :: e in events ==> GoodEvent(e) && AlwaysLeavesReceipt(e)
    ensures Covered(Run(files, events).0, Run(files, events).1)
  {
    if events != [] {
      var init, e := events[..|events| - 1], events[|events| - 1];
      CloudOccurrencesRunOnce(files, init);
      EventKeepsCovered(Run(files, init).0, Run(files, init).1, e);
    }
  }

  /** Ticking again at the same instant runs nothing exactly when the run left its receipt. */
  lemma RepeatRunsNothing(s: Schedule, files: Files, now: nat, outcome: Outcome)
    requires WellNamed(files) && GoodEvent(Tick(s, now, outcome)) && DueAt(s, files, now).Some?
    ensures DueAt(s, After(files, Tick(s, now, outcome)), now).None? <==> outcome.Receipt?
  {
    if outcome.Receipt? {
      OccurrenceIsWholeMinute(s, now);
      AddedReceipt(files, outcome.ended, outcome.run);
    }
  }

  /** An unreadable file that sorts last hides every receipt before it. */
  lemma UnreadableNewestRunsAgain(s: Schedule, files: Files, now: nat)
    requires HorizonFits(now, HORIZON) && WellFormed(s, now) && LastOf(s, now).Some?
    requires files.Keys != {} && files[LastName(files)].None?
    ensures DueAt(s, files, now) == LastOf(s, now)
  {
  }
}
