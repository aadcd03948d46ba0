/**
 When a schedule last occurred, in minutes of the calendar (collectors/scheduler.py, collectors/cloud.py).
 */
module ScheduleMeanings {
  import opened Results
  import opened Cron
  import opened Schedules
  import Calendar
  import Cloud
  import Recurrence

  const MINUTE := 60_000_000  // microseconds

  /** The minute in which an instant falls. */
  function InMinute(t: nat): nat {
    t / MINUTE
  }

  /** The cron matched minute `m`, no later than now and no more than 45 days before, and none since. */
  ghost predicate LastMatch(spec: Spec, now: nat, m: nat)
    requires Parse(spec).Success?
  {
    && InMinute(now) - 45 * 24 * 60 <= m <= InMinute(now) && Matches(Parse(spec).value, m)
    && forall k: nat :: m < k <= InMinute(now) ==> !Matches(Parse(spec).value, k)
  }

  lemma LatestIsLastMatch(spec: Spec, now: nat, m: nat)
    requires Parse(spec).Success? && HorizonFits(now, HORIZON)
    ensures Recurrence.Latest(Fires(Parse(spec).value), MinuteOf(now) - Days(HORIZON), MinuteOf(now)) == Some(m) <==>
      LastMatch(spec, now, m)
  {
    var f := Fires(Parse(spec).value);
    assert forall k: nat :: f(k) <==> Matches(Parse(spec).value, k);
    var latest := Recurrence.Latest(f, MinuteOf(now) - Days(HORIZON), MinuteOf(now));
    if LastMatch(spec, now, m) {
      assert f(m);
    }
  }

  lemma LastOfIsLatest(spec: Spec, now: nat)
    requires Parse(spec).Success? && HorizonFits(now, HORIZON)
    ensures var latest := Recurrence.Latest(Fires(Parse(spec).value), MinuteOf(now) - Days(HORIZON), MinuteOf(now));
            LastOf(FiveField(spec), now) == if latest.None? then None else Some(MINUTE * latest.value)
  {
  }

  /** A cron's last occurrence is the last minute it matched within 45 days; there is none if it matched none. */
  lemma LastOfCron(spec: Spec, now: nat)
    requires Parse(spec).Success? && HorizonFits(now, HORIZON)
    ensures LastOf(FiveField(spec), now).None? <==> forall m: nat :: !LastMatch(spec, now, m)
    ensures forall m: nat :: LastOf(FiveField(spec), now) == Some(MINUTE * m) <==> LastMatch(spec, now, m)
  {
    var latest := Recurrence.Latest(Fires(Parse(spec).value), MinuteOf(now) - Days(HORIZON), MinuteOf(now));
    LastOfIsLatest(spec, now);
    forall m: nat
      ensures latest == Some(m) <==> LastMatch(spec, now, m)
    {
      LatestIsLastMatch(spec, now, m);
    }
    if latest.Some? {
      assert LastMatch(spec, now, latest.value);
    }
  }

  /** Minute `m` is a whole number of `days` from the time of day `hour`:`minute` on 1 January 2020. */
  ghost predicate OnInterval(days: nat, hour: nat, minute: nat, m: int) {
    exists k: int :: m == 1440 * Calendar.Ordinal(Calendar.Date(2020, 1, 1)) + 60 * hour + minute + k * (1440 * days)
  }

  /** An interval's last occurrence is the one minute on it from which less than a whole interval has passed. */
  lemma LastOfInterval(days: nat, hour: nat, minute: nat, now: nat, m: int)
    requires WellFormed(Every(days, hour, minute), now) && HorizonFits(now, HORIZON)
    ensures LastOf(Every(days, hour, minute), now) == Some(MINUTE * m) <==>
      OnInterval(days, hour, minute, m) && MINUTE * m <= now < MINUTE * (m + 1440 * days)
  {
    var prev := LastStep(days, hour, minute, now);
    AnchorIsFirstOf2020();
    if prev == MINUTE * m {
      var k :| prev == Base(hour, minute) + Times(k, InstantOf(Days(days)));
      Scaled(k, days);
      assert m == ANCHOR + hour * 60 + minute + k * (1440 * days);
    }
    if OnInterval(days, hour, minute, m) && MINUTE * m <= now < MINUTE * (m + 1440 * days) {
      var k: int :| m == 1440 * Calendar.Ordinal(Calendar.Date(2020, 1, 1)) + 60 * hour + minute + k * (1440 * days);
      Scaled(k, days);
      assert MINUTE * m == Base(hour, minute) + Times(k, InstantOf(Days(days)));
      IntervalIsUnique(days, hour, minute, now, prev, MINUTE * m);
    }
  }

  lemma Scaled(k: int, days: nat)
    ensures Times(k, InstantOf(Days(days))) == MINUTE * (k * (1440 * days))
  {
  }

  /** The cloud routine runs the last occurrence exactly when it is later than the newest receipt's end. */
  lemma CloudDueInWords(s: Schedule, files: Cloud.Files, now: nat, t: int)
    requires HorizonFits(now, HORIZON)
    ensures Cloud.DueAt(s, files, now) == Some(t) <==>
      && WellFormed(s, now) && LastOf(s, now) == Some(t)
      && (Cloud.NewestEnded(files).None? || 1_000_000 * Cloud.NewestEnded(files).value < t)
  {
  }

  /** A project's override applies exactly while it is on auto-run; else, or without one, its own schedule does. */
  lemma OverrideInWords(override: Option<Override>, autorun: bool, w: Window, h: nat, own: Schedule)
    requires ValidWindow(w)
    ensures var slot, s := SlotFor(h, w), EffectiveSchedule(override, autorun, w, h, own);
            && (!autorun || override.None? ==> s == Success(own))
            && (autorun && override.Some? ==> match override.value
                  case Named(p) => s == Success(FiveField(PresetSpec(p, slot)))
                  case EveryDays(n) => s.Success? && s.value.Every?
                                       && s.value.days == n && s.value.hour == slot.hour && s.value.minute == slot.minute
                  case Unknown => s == Failure(ValueError))
  {
  }
}
