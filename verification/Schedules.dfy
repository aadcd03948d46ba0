/**
 Frequency presets, "every N days" intervals, and the most recent occurrence of either kind of
 schedule (collectors/scheduler.py).
 */
module Schedules {
  import opened Results
  import opened Recurrence
  import opened Cron
  import Calendar

  // ------------------------------------------------------------------- slots

  datatype Window = Window(start: nat, span: nat, pinned: Option<nat>)

  predicate ValidWindow(w: Window) {
    w.start < 24 && 1 <= w.span <= 24 && (w.pinned.Some? ==> w.pinned.value < 60)
  }

  const DEFAULT_WINDOW := Window(8, 4, None)

  /** The window an operator's numbers stand for, forced into range; without a start they stand for none. */
  function WindowFor(start: Option<int>, span: Option<int>, minute: Option<int>): (w: Window)
    ensures ValidWindow(w)
    ensures start.Some? && span.Some? && minute.None? && 0 <= start.value < 24 && 1 <= span.value <= 24 ==>
      w == Window(start.value, span.value, None)
    ensures start.Some? && minute.Some? && 0 <= minute.value < 60 ==> w.pinned == minute
    ensures start.None? ==> w.start == 8 && w.start + w.span == 12 && w.pinned == None
  {
    if start.None? then DEFAULT_WINDOW
    else
      var hours := if span.None? || span.value < 1 then 1 else if span.value > 24 then 24 else span.value;
      Window(start.value % 24, hours, if minute.None? then None else Some(minute.value % 60))
  }

  datatype Slot = Slot(minute: nat, hour: nat, dow: nat, dom: nat)

  predicate ValidSlot(s: Slot) {
    s.minute < 60 && s.hour < 24 && 1 <= s.dow <= 5 && 1 <= s.dom <= 28
  }

  /** The slot of a loop; `h` is the checksum of the project's and the loop's names. */
  function SlotFor(h: nat, w: Window): (s: Slot)
    requires ValidWindow(w)
    ensures ValidSlot(s)
  {
    var spread := h % 60;
    var minute := if w.pinned.Some? then w.pinned.value
                  else if spread == 0 || spread == 30 then (spread + 7) % 60
                  else spread;
    Slot(minute, (w.start + h / 0x100 % w.span) % 24, h / 0x1_0000 % 5 + 1, h / 0x10_0000 % 28 + 1)
  }

  /** Unless the operator pins the minute, no loop lands on :00 or :30, and its hour stays in the window. */
  lemma SlotAvoidsJitter(h: nat, w: Window)
    requires ValidWindow(w)
    ensures w.pinned.None? ==> SlotFor(h, w).minute != 0 && SlotFor(h, w).minute != 30
    ensures InWindow(SlotFor(h, w).hour, w)
  {
    var k := h / 0x100 % w.span;
    HourWraps(w.start, k);
  }

  // A window may run past midnight.
  predicate InWindow(hour: nat, w: Window) {
    w.start <= hour < w.start + w.span || hour + 24 < w.start + w.span
  }

  lemma HourWraps(start: nat, k: nat)
    requires start < 24 && k < 24
    ensures (start + k) % 24 == if start + k < 24 then start + k else start + k - 24
  {
  }

  // ------------------------------------------------------------------- presets as crons

  datatype Preset = Daily | Weekdays | OnceAWeek | Monthly

  function One(v: int): seq<Part> {
    [Part(Single(v), None)]
  }

  function PresetSpec(p: Preset, s: Slot): Spec {
    var at := Spec(One(s.minute), One(s.hour), STAR, STAR, STAR);
    match p
    case Daily => at
    case Weekdays => at.(dow := [Part(Range(1, 5), None)])
    case OnceAWeek => at.(dow := One(s.dow))
    case Monthly => at.(dom := One(s.dom))
  }

  lemma ExpandOne(v: int, lo: int, hi: int)
    requires lo <= v <= hi
    ensures Expand(One(v), lo, hi).Success? && v in Expand(One(v), lo, hi).value
  {
    assert PartHas(One(v)[0], lo, hi, v);
  }

  lemma ExpandRange(a: int, b: int, lo: int, hi: int)
    requires lo <= a <= b <= hi
    ensures var parts := [Part(Range(a, b), None)];
            Expand(parts, lo, hi).Success? && a in Expand(parts, lo, hi).value
  {
    assert PartHas(Part(Range(a, b), None), lo, hi, a);
    assert FieldHas([Part(Range(a, b), None)], lo, hi, a) by {
      assert [Part(Range(a, b), None)][0] == Part(Range(a, b), None);
    }
  }

  lemma ExpandStar(lo: int, hi: int)
    requires lo <= hi
    ensures Expand(STAR, lo, hi).Success?
    ensures forall v :: lo <= v <= hi ==> v in Expand(STAR, lo, hi).value
  {
    forall v | lo <= v <= hi
      ensures v in Expand(STAR, lo, hi).value
    {
      assert PartHas(STAR[0], lo, hi, v);
    }
  }

  lemma PresetParses(p: Preset, s: Slot)
    requires ValidSlot(s)
    ensures Parse(PresetSpec(p, s)).Success?
    ensures var c := Parse(PresetSpec(p, s)).value;
            && s.minute in c.minute && s.hour in c.hour
            && (forall v :: 1 <= v <= 12 ==> v in c.month)
            && (p != Monthly ==> !c.domRestricted)
            && (p == Daily ==> !c.dowRestricted)
            && (p == Weekdays ==> 1 in c.dow)
            && (p == OnceAWeek ==> s.dow in c.dow)
            && (p == Monthly ==> s.dom in c.dom && c.domRestricted && !c.dowRestricted)
  {
    ExpandOne(s.minute, 0, 59);
    ExpandOne(s.hour, 0, 23);
    ExpandOne(s.dow, 0, 7);
    ExpandOne(s.dom, 1, 31);
    ExpandRange(1, 5, 0, 7);
    ExpandStar(1, 31);
    ExpandStar(1, 12);
    ExpandStar(0, 7);
    var spec := PresetSpec(p, s);
    var dow := Expand(spec.dow, 0, 7).value;
    assert p == Weekdays ==> (if 1 == 7 then 0 else 1) in Parse(spec).value.dow by {
      assert p == Weekdays ==> 1 in dow;
    }
    assert p == OnceAWeek ==> (if s.dow == 7 then 0 else s.dow) in Parse(spec).value.dow by {
      assert p == OnceAWeek ==> s.dow in dow;
    }
    assert One(s.dom)[0] != STAR[0];
  }

  /** A preset's cron picks a day in any 31 consecutive days. */
  lemma PresetPicksDay(p: Preset, s: Slot, n: nat) returns (day: nat)
    requires ValidSlot(s) && Parse(PresetSpec(p, s)).Success?
    ensures n <= day < n + 31 && MatchesDay(Parse(PresetSpec(p, s)).value, day)
  {
    PresetParses(p, s);
    match p
    case Daily => day := n;
    case Weekdays => day := NextWithDow(n, 1);
    case OnceAWeek => day := NextWithDow(n, s.dow);
    case Monthly => day := Calendar.DayOfMonthComesRound(n, s.dom);
  }

  lemma PresetFiresOn(p: Preset, s: Slot, day: nat) returns (m: nat)
    requires ValidSlot(s) && Parse(PresetSpec(p, s)).Success?
    requires MatchesDay(Parse(PresetSpec(p, s)).value, day)
    ensures m == Days(day) + s.hour * 60 + s.minute && Fires(Parse(PresetSpec(p, s)).value)(m)
  {
    PresetParses(p, s);
    m := FiresOnDay(Parse(PresetSpec(p, s)).value, day, s.hour, s.minute);
  }

  /** Every cron a preset can produce parses and fires in each 31-day stretch, ending when it may. */
  lemma PresetFiresInEachMonth(p: Preset, s: Slot, end: nat)
    requires ValidSlot(s) && Days(31) <= end
    ensures Parse(PresetSpec(p, s)).Success?
    ensures exists m: nat :: end - Days(31) < m <= end && Fires(Parse(PresetSpec(p, s)).value)(m)
  {
    PresetParses(p, s);
    var today, ofDay := end / 1440, end % 1440;
    var from := if s.hour * 60 + s.minute <= ofDay then today - 30 else today - 31;
    var day := PresetPicksDay(p, s, from);
    var m := PresetFiresOn(p, s, day);
    assert end - Days(31) < m <= end;
  }

  // ------------------------------------------------------------------- every N days

  // 2020-01-01 00:00
  const ANCHOR := 1061890560

  lemma AnchorIsFirstOf2020()
    ensures ANCHOR == Days(Calendar.Ordinal(Calendar.Date(2020, 1, 1)))
  {
    assert Calendar.DaysBeforeYear(2020) == 737424;
  }

  // 9999-12-31 23:59:59.999999; the first instant that `datetime` can name is 0.
  const LAST_INSTANT := 315537897599999999

  lemma LastInstantEndsYear9999()
    ensures LAST_INSTANT + 1 == InstantOf(LAST_MINUTE + 1)
    ensures LAST_MINUTE + 1 == Days(Calendar.Ordinal(Calendar.Date(9999, 12, 31)) + 1)
  {
    assert Calendar.DaysBeforeYear(9999) == 3651694;
  }

  predicate Nameable(t: int) {
    0 <= t <= LAST_INSTANT
  }

  function Base(hour: nat, minute: nat): nat {
    InstantOf(ANCHOR + hour * 60 + minute)
  }

  /** `t` lies a whole number of steps from the anchor. */
  ghost predicate InPhase(t: int, base: int, step: int)
    requires 0 < step
  {
    exists k: int :: t == base + Times(k, step)
  }

  function Times(k: int, step: int): int {
    k * step
  }

  ghost predicate IsLastInterval(days: nat, hour: nat, minute: nat, now: nat, prev: int)
    requires 0 < days
  {
    prev <= now < prev + InstantOf(Days(days)) && InPhase(prev, Base(hour, minute), InstantOf(Days(days)))
  }

  /** Exactly one multiple of the step falls in a stretch of one step. */
  lemma IntervalIsUnique(days: nat, hour: nat, minute: nat, now: nat, p: int, q: int)
    requires 0 < days && IsLastInterval(days, hour, minute, now, p) && IsLastInterval(days, hour, minute, now, q)
    ensures p == q
  {
    var base, step := Base(hour, minute), InstantOf(Days(days));
    var i :| p == base + Times(i, step);
    var j :| q == base + Times(j, step);
    if i < j {
      TimesGap(i, j, step);
    } else if j < i {
      TimesGap(j, i, step);
    }
  }

  lemma TimesGap(i: int, j: int, step: int)
    requires i < j && 0 < step
    ensures Times(i, step) + step <= Times(j, step)
  {
    assert (j - i - 1) * step >= 0;
    assert j * step == i * step + step + (j - i - 1) * step;
  }

  /** The last step at or before `now`, counted from the anchor. */
  function LastStep(days: nat, hour: nat, minute: nat, now: nat): (prev: int)
    requires 0 < days
    ensures IsLastInterval(days, hour, minute, now, prev)
  {
    var base: int, step := Base(hour, minute), InstantOf(Days(days));
    var k := (now - base) / step;
    assert now - base == Times(k, step) + (now - base) % step;
    base + Times(k, step)
  }

  /** Both that step and the next one are instants that can be named. */
  predicate StepFits(days: nat, hour: nat, minute: nat, now: nat)
    requires 0 < days
  {
    var prev := LastStep(days, hour, minute, now);
    Nameable(prev) && Nameable(prev + InstantOf(Days(days)))
  }

  /** The two correction loops reach the right step from any estimate of the steps elapsed that can be named. */
  method CorrectEstimate(days: nat, hour: nat, minute: nat, now: nat, k: int) returns (r: Result<int>)
    requires 0 < days
    ensures r.Success? <==>
      Nameable(Base(hour, minute) + Times(k, InstantOf(Days(days)))) && StepFits(days, hour, minute, now)
    ensures r.Success? ==> IsLastInterval(days, hour, minute, now, r.value)
    ensures r.Failure? ==> r.error == OverflowError
  {
    var base, step := Base(hour, minute), InstantOf(Days(days));
    ghost var i := k;
    var prev := base + Times(k, step);
    if !Nameable(prev) {
      return Failure(OverflowError);
    }
    while prev > now
      invariant prev == base + Times(i, step) && Nameable(prev)
      decreases prev
    {
      prev := prev - step;
      i := i - 1;
      if prev < 0 {
        IsLastStep(days, hour, minute, now, i);
        return Failure(OverflowError);
      }
    }
    while prev + step <= LAST_INSTANT && prev + step <= now
      invariant prev <= now && prev == base + Times(i, step) && Nameable(prev)
      decreases now - prev
    {
      prev := prev + step;
      i := i + 1;
    }
    if prev + step <= now {
      assert LastStep(days, hour, minute, now) + step > now;
      return Failure(OverflowError);
    }
    IsLastStep(days, hour, minute, now, i);
    r := if prev + step <= LAST_INSTANT then Success(prev) else Failure(OverflowError);
  }

  lemma IsLastStep(days: nat, hour: nat, minute: nat, now: nat, i: int)
    requires 0 < days
    requires var step := InstantOf(Days(days)); var t := Base(hour, minute) + Times(i, step); t <= now < t + step
    ensures Base(hour, minute) + Times(i, InstantOf(Days(days))) == LastStep(days, hour, minute, now)
  {
    var t := Base(hour, minute) + Times(i, InstantOf(Days(days)));
    IntervalIsUnique(days, hour, minute, now, t, LastStep(days, hour, minute, now));
  }

  predicate IsClock(hour: int, minute: int) {
    0 <= hour < 24 && 0 <= minute < 60
  }

  method IntervalBounds(days: nat, hour: int, minute: int, now: nat) returns (r: Result<(int, int)>)
    ensures r == Failure(ValueError) <==> hour < 0 || hour > 23 || minute < 0 || minute > 59
    ensures IsClock(hour, minute) && days == 0 ==> r == Failure(ZeroDivisionError)
    ensures IsClock(hour, minute) && 0 < days ==>
      if StepFits(days, hour, minute, now)
      then r.Success? && IsLastInterval(days, hour, minute, now, r.value.0)
           && r.value.1 == r.value.0 + InstantOf(Days(days))
      else r == Failure(OverflowError)
  {
    if !IsClock(hour, minute) {
      return Failure(ValueError);
    }
    if days > 999_999_999 {
      return Failure(OverflowError);
    }
    if days == 0 {
      return Failure(ZeroDivisionError);
    }
    var step := InstantOf(Days(days));
    var prev :- CorrectEstimate(days, hour, minute, now, (now - Base(hour, minute)) / step);
    r := Success((prev, prev + step));
  }

  /** An interval whose first step from the anchor can be named works at some time, and any other at none. */
  lemma LongStepsNeverFit(days: nat, hour: nat, minute: nat)
    requires 0 < days && IsClock(hour, minute)
    ensures Base(hour, minute) + InstantOf(Days(days)) <= LAST_INSTANT <==>
      exists now: nat :: StepFits(days, hour, minute, now)
  {
    var base, step := Base(hour, minute), InstantOf(Days(days));
    if base + step <= LAST_INSTANT {
      IsLastStep(days, hour, minute, base, 0);
      assert StepFits(days, hour, minute, base);
    } else {
      forall now: nat
        ensures !StepFits(days, hour, minute, now)
      {
        StepsBeyondFail(days, hour, minute, now);
      }
    }
  }

  lemma StepsBeyondFail(days: nat, hour: nat, minute: nat, now: nat)
    requires 0 < days && IsClock(hour, minute) && Base(hour, minute) + InstantOf(Days(days)) > LAST_INSTANT
    ensures !StepFits(days, hour, minute, now)
  {
    var base: int, step := Base(hour, minute), InstantOf(Days(days));
    var i :| LastStep(days, hour, minute, now) == base + Times(i, step);
    if i > 0 {
      TimesGap(0, i, step);
    } else if i < 0 {
      TimesGap(i, 0, step);
    }
  }

  /** From the anchor on, an interval works for as long as one more of it can be named. */
  lemma FitsWhileNextIsNameable(days: nat, hour: nat, minute: nat, now: nat)
    requires 0 < days && Base(hour, minute) <= now && Nameable(now + InstantOf(Days(days)))
    ensures StepFits(days, hour, minute, now)
  {
    var base: int, step := Base(hour, minute), InstantOf(Days(days));
    var i :| LastStep(days, hour, minute, now) == base + Times(i, step);
    if i < 0 {
      TimesGap(i, 0, step);
    } else if i > 0 {
      TimesGap(0, i, step);
    }
  }

  // ------------------------------------------------------------------- either kind

  datatype Schedule = FiveField(spec: Spec) | Every(days: nat, hour: int, minute: int)

  const HORIZON := 45

  /** What a schedule token means: the instants at which it occurs. */
  ghost predicate Occurs(s: Schedule, t: int) {
    match s
    case FiveField(spec) =>
      Parse(spec).Success? && exists m: nat :: t == InstantOf(m) && Fires(Parse(spec).value)(m)
    case Every(days, hour, minute) =>
      0 < days && IsClock(hour, minute) && InPhase(t, Base(hour, minute), InstantOf(Days(days)))
  }

  /** The schedule's token has an answer at `now`. */
  predicate WellFormed(s: Schedule, now: nat) {
    match s
    case FiveField(spec) => Parse(spec).Success?
    case Every(days, hour, minute) => 0 < days && IsClock(hour, minute) && StepFits(days, hour, minute, now)
  }

  function HorizonFloor(now: nat): int {
    InstantOf(MinuteOf(now)) - InstantOf(Days(HORIZON))
  }

  /** `last` is the latest occurrence at or before `now`; crons are only searched back to the horizon. */
  ghost predicate IsLast(s: Schedule, now: nat, last: Option<int>) {
    && (last.Some? ==> Occurs(s, last.value) && last.value <= now)
    && (last.Some? && s.FiveField? ==> HorizonFloor(now) <= last.value)
    && (last.Some? ==> forall t :: last.value < t <= now ==> !Occurs(s, t))
    && (last.None? ==> forall t :: HorizonFloor(now) <= t <= now ==> !Occurs(s, t))
  }

  lemma LatestIsLast(spec: Spec, now: nat)
    requires HorizonFits(now, HORIZON) && Parse(spec).Success?
    ensures var m := Latest(Fires(Parse(spec).value), MinuteOf(now) - Days(HORIZON), MinuteOf(now));
            IsLast(FiveField(spec), now, if m.None? then None else Some(InstantOf(m.value)))
  {
    var f := Fires(Parse(spec).value);
    var lo := MinuteOf(now) - Days(HORIZON);
    var latest := Latest(f, lo, MinuteOf(now));
    var s := FiveField(spec);
    var from: int := if latest.Some? then InstantOf(latest.value) + 1 else InstantOf(lo);
    if latest.Some? {
      assert Occurs(s, InstantOf(latest.value));
    }
    forall t | from <= t <= now
      ensures !Occurs(s, t)
    {
    }
  }

  lemma IntervalIsLast(s: Schedule, now: nat, prev: int)
    requires s.Every? && WellFormed(s, now) && IsLastInterval(s.days, s.hour, s.minute, now, prev)
    ensures IsLast(s, now, Some(prev))
  {
    forall t | prev < t <= now
      ensures !Occurs(s, t)
    {
      if Occurs(s, t) {
        assert IsLastInterval(s.days, s.hour, s.minute, now, t);
        IntervalIsUnique(s.days, s.hour, s.minute, now, prev, t);
      }
    }
  }

  /** The latest occurrence at or before `now`, as `previous_fire` reports it. */
  function LastOf(s: Schedule, now: nat): (last: Option<int>)
    requires WellFormed(s, now) && HorizonFits(now, HORIZON)
    ensures IsLast(s, now, last)
  {
    match s
    case FiveField(spec) =>
      LatestIsLast(spec, now);
      var m := Latest(Fires(Parse(spec).value), MinuteOf(now) - Days(HORIZON), MinuteOf(now));
      if m.None? then None else Some(InstantOf(m.value))
    case Every(days, hour, minute) =>
      var prev := LastStep(days, hour, minute, now);
      IntervalIsLast(s, now, prev);
      Some(prev)
  }

  function ScheduleError(s: Schedule, now: nat): Error
    requires !WellFormed(s, now)
  {
    if s.FiveField? || !IsClock(s.hour, s.minute) then ValueError
    else if s.days == 0 then ZeroDivisionError
    else OverflowError
  }

  method PreviousFireOf(s: Schedule, now: nat) returns (r: Result<Option<int>>)
    requires HorizonFits(now, HORIZON)
    ensures r == if WellFormed(s, now) then Success(LastOf(s, now)) else Failure(ScheduleError(s, now))
  {
    match s
    case FiveField(spec) =>
      if Parse(spec).Failure? {
        ParseFailure(spec);
        return Failure(Parse(spec).error);
      }
      var m := PreviousFire(Parse(spec).value, now, HORIZON);
      r := Success(if m.None? then None else Some(InstantOf(m.value)));
    case Every(days, hour, minute) =>
      var bounds := IntervalBounds(days, hour, minute, now);
      if bounds.Failure? {
        return Failure(bounds.error);
      }
      IntervalIsUnique(days, hour, minute, now, bounds.value.0, LastStep(days, hour, minute, now));
      r := Success(Some(bounds.value.0));
  }

  lemma ParseFailure(spec: Spec)
    requires Parse(spec).Failure?
    ensures Parse(spec).error == ValueError
  {
  }

  // ------------------------------------------------------------------- overrides

  /** A per-project preset; `Unknown` is any text that names none. */
  datatype Override = Named(preset: Preset) | EveryDays(days: nat) | Unknown

  /** The schedule in force: a project's override applies only while the project is on auto-run. */
  function EffectiveSchedule(override: Option<Override>, autorun: bool, w: Window, h: nat,
                             own: Schedule): Result<Schedule>
    requires ValidWindow(w)
  {
    if override.None? || !autorun then Success(own)
    else
      var s := SlotFor(h, w);
      match override.value
      case Named(p) => Success(FiveField(PresetSpec(p, s)))
      case EveryDays(n) => Success(Every(n, s.hour, s.minute))
      case Unknown => Failure(ValueError)
  }

  /**
   What asking for the last occurrence raises in `due` and `due_cloud`.  They catch the ValueError of a
   malformed token, but not that of an unknown preset, nor what an interval raises.
   */
  function Uncaught(s: Result<Schedule>, now: nat): Option<Error> {
    if s.Failure? then Some(s.error)
    else if WellFormed(s.value, now) || ScheduleError(s.value, now) == ValueError then None
    else Some(ScheduleError(s.value, now))
  }

  /**
   An override raises nothing exactly when it is a named preset, or an interval of at least one day
   whose last and next steps can be named; and then its last occurrence exists, the horizon being
   long enough.
   */
  lemma OverrideAlwaysHasLast(override: Override, w: Window, h: nat, own: Schedule, now: nat)
    requires ValidWindow(w) && HorizonFits(now, HORIZON)
    ensures var s := EffectiveSchedule(Some(override), true, w, h, own);
            var slot := SlotFor(h, w);
            && (Uncaught(s, now).None? <==> match override
                  case Named(_) => true
                  case EveryDays(n) => 0 < n && StepFits(n, slot.hour, slot.minute, now)
                  case Unknown => false)
            && (Uncaught(s, now).None? ==> WellFormed(s.value, now) && LastOf(s.value, now).Some?)
  {
    var s := SlotFor(h, w);
    if override.Named? {
      PresetFiresInEachMonth(override.preset, s, MinuteOf(now));
      var f := Fires(Parse(PresetSpec(override.preset, s)).value);
      var m: nat :| MinuteOf(now) - Days(31) < m <= MinuteOf(now) && f(m);
      assert Occurs(FiveField(PresetSpec(override.preset, s)), InstantOf(m));
    }
  }

  /** Two presets that the pattern lets through and that never work. */
  lemma IntervalsThatAlwaysRaise(w: Window, h: nat, own: Schedule, now: nat)
    requires ValidWindow(w)
    ensures Uncaught(EffectiveSchedule(Some(EveryDays(0)), true, w, h, own), now) == Some(ZeroDivisionError)
    ensures Uncaught(EffectiveSchedule(Some(EveryDays(3000000)), true, w, h, own), now) == Some(OverflowError)
  {
    var s := SlotFor(h, w);
    StepsBeyondFail(3000000, s.hour, s.minute, now);
  }
}
