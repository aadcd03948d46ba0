/**
 Five-field cron schedules (`Cron` in collectors/validate.py).

 Instants are microseconds and minutes are whole minutes, both counted from 0001-01-01 00:00 on
 the caller's own clock.  Times are naive, as in the source.
 */
module Cron {
  import opened Results
  import opened Recurrence
  import Calendar

  /** The whole minute an instant falls in: `replace(second=0, microsecond=0)`. */
  function MinuteOf(t: nat): nat {
    t / 60_000_000
  }

  function InstantOf(minute: nat): nat {
    minute * 60_000_000
  }

  function Days(n: nat): nat {
    n * 1440
  }


  // ------------------------------------------------------------------- parsing

  /** One comma-separated part of a field, already split into its numbers. */
  datatype Body = Star | Single(value: int) | Range(first: int, last: int)
  datatype Part = Part(body: Body, step: Option<int>)

  datatype Spec = Spec(minute: seq<Part>, hour: seq<Part>, dom: seq<Part>, month: seq<Part>, dow: seq<Part>) {
    // Splitting a string at commas always yields at least one part.
    predicate NonEmpty() {
      minute != [] && hour != [] && dom != [] && month != [] && dow != []
    }
  }

  const STAR := [Part(Star, None)]

  function Start(p: Part, lo: int): int {
    match p.body
    case Star => lo
    case Single(v) => v
    case Range(a, _) => a
  }

  function End(p: Part, hi: int): int {
    match p.body
    case Star => hi
    case Single(v) => v
    case Range(_, b) => b
  }

  function Step(p: Part): int {
    if p.step.Some? then p.step.value else 1
  }

  predicate PartOk(p: Part, lo: int, hi: int) {
    0 < Step(p) && lo <= Start(p, lo) <= End(p, hi) <= hi
  }

  predicate PartHas(p: Part, lo: int, hi: int, v: int) {
    0 < Step(p) && Start(p, lo) <= v <= End(p, hi) && (v - Start(p, lo)) % Step(p) == 0
  }

  predicate FieldHas(parts: seq<Part>, lo: int, hi: int, v: int) {
    exists i :: 0 <= i < |parts| && PartHas(parts[i], lo, hi, v)
  }

  /** The values a field denotes, or the error its first bad part raises. */
  function Expand(parts: seq<Part>, lo: int, hi: int): Result<set<int>> {
    if exists i :: 0 <= i < |parts| && !PartOk(parts[i], lo, hi) then Failure(ValueError)
    else Success(set v | lo <= v <= hi && FieldHas(parts, lo, hi, v))
  }

  lemma FieldHasSnoc(parts: seq<Part>, p: Part, lo: int, hi: int, v: int)
    ensures FieldHas(parts + [p], lo, hi, v) <==> FieldHas(parts, lo, hi, v) || PartHas(p, lo, hi, v)
  {
    if FieldHas(parts, lo, hi, v) {
      var i :| 0 <= i < |parts| && PartHas(parts[i], lo, hi, v);
      assert (parts + [p])[i] == parts[i];
    }
    assert (parts + [p])[|parts|] == p;
  }

  method ExpandField(parts: seq<Part>, lo: int, hi: int) returns (r: Result<set<int>>)
    ensures r == Expand(parts, lo, hi)
  {
    var values: set<int> := {};
    for k := 0 to |parts|
      invariant forall i :: 0 <= i < k ==> PartOk(parts[i], lo, hi)
      invariant forall v :: v in values <==>
        lo <= v <= hi && FieldHas(parts[..k], lo, hi, v)
    {
      var p := parts[k];
      if Step(p) <= 0 {
        return Failure(ValueError);
      }
      var start, end := Start(p, lo), End(p, hi);
      if start < lo || end > hi || start > end {
        return Failure(ValueError);
      }
      values := values + (set v | start <= v <= end && PartHas(p, lo, hi, v));
      forall v
        ensures FieldHas(parts[..k + 1], lo, hi, v) <==> FieldHas(parts[..k], lo, hi, v) || PartHas(p, lo, hi, v)
      {
        FieldHasSnoc(parts[..k], p, lo, hi, v);
        assert parts[..k + 1] == parts[..k] + [p];
      }
    }
    assert parts[..|parts|] == parts;
    assert values == set v | lo <= v <= hi && FieldHas(parts, lo, hi, v);
    r := Success(values);
  }

  datatype Cron = Cron(minute: set<int>, hour: set<int>, dom: set<int>, month: set<int>, dow: set<int>,
                       domRestricted: bool, dowRestricted: bool)

  function Parse(spec: Spec): Result<Cron> {
    var dow :- Expand(spec.dow, 0, 7);
    var minute :- Expand(spec.minute, 0, 59);
    var hour :- Expand(spec.hour, 0, 23);
    var dom :- Expand(spec.dom, 1, 31);
    var month :- Expand(spec.month, 1, 12);
    // Sunday may be written 0 or 7.
    Success(Cron(minute, hour, dom, month, set v | v in dow :: if v == 7 then 0 else v,
                 spec.dom != STAR, spec.dow != STAR))
  }

  /** What every parsed schedule satisfies: each field is a non-empty set of values in range. */
  predicate Proper(c: Cron) {
    && c.minute != {} && (forall v :: v in c.minute ==> 0 <= v < 60)
    && c.hour != {} && (forall v :: v in c.hour ==> 0 <= v < 24)
    && c.dom != {} && (forall v :: v in c.dom ==> 1 <= v <= 31)
    && c.month != {} && (forall v :: v in c.month ==> 1 <= v <= 12)
    && c.dow != {} && (forall v :: v in c.dow ==> 0 <= v < 7)
  }

  lemma ExpandNonEmpty(parts: seq<Part>, lo: int, hi: int)
    requires parts != [] && Expand(parts, lo, hi).Success?
    ensures Expand(parts, lo, hi).value != {}
  {
    var p := parts[0];
    assert PartOk(p, lo, hi);
    assert (Start(p, lo) - Start(p, lo)) % Step(p) == 0;
    assert PartHas(p, lo, hi, Start(p, lo));
    assert Start(p, lo) in Expand(parts, lo, hi).value;
  }

  lemma ParsedIsProper(spec: Spec)
    requires spec.NonEmpty() && Parse(spec).Success?
    ensures Proper(Parse(spec).value)
  {
    var c := Parse(spec).value;
    ExpandNonEmpty(spec.minute, 0, 59);
    ExpandNonEmpty(spec.hour, 0, 23);
    ExpandNonEmpty(spec.dom, 1, 31);
    ExpandNonEmpty(spec.month, 1, 12);
    ExpandNonEmpty(spec.dow, 0, 7);
    var d := Any(Expand(spec.dow, 0, 7).value);
    assert (if d == 7 then 0 else d) in c.dow;
  }

  // ------------------------------------------------------------------- matching

  function DayOf(m: nat): nat {
    m / 1440
  }

  // cron counts the days of the week from Sunday, `weekday` from Monday.
  function CronDow(day: nat): nat {
    (Calendar.Weekday(day) + 1) % 7
  }

  predicate MatchesDay(c: Cron, day: nat) {
    var date := Calendar.DateOf(day);
    && date.month in c.month
    && if c.domRestricted && c.dowRestricted then date.day in c.dom || CronDow(day) in c.dow
       else if c.domRestricted then date.day in c.dom
       else if c.dowRestricted then CronDow(day) in c.dow
       else true
  }

  predicate Matches(c: Cron, m: nat) {
    && m % 60 in c.minute
    && m % 1440 / 60 in c.hour
    && MatchesDay(c, DayOf(m))
  }

  // ------------------------------------------------------------------- scanning

  /** The schedule as a predicate on minutes. */
  function Fires(c: Cron): nat -> bool {
    (m: nat) => Matches(c, m)
  }

  // `datetime` cannot name an instant before year 1, so a horizon must not reach back that far, nor one minute more.
  predicate HorizonFits(now: nat, days: nat) {
    Days(days) < MinuteOf(now)
  }

  // 9999-12-31 23:59, the last minute that `datetime` can name.
  const LAST_MINUTE := 5258964959

  method PreviousFire(c: Cron, now: nat, horizonDays: nat) returns (r: Option<nat>)
    requires HorizonFits(now, horizonDays)
    ensures r == Latest(Fires(c), MinuteOf(now) - Days(horizonDays), MinuteOf(now))
  {
    var cur := MinuteOf(now);
    var floor := cur - Days(horizonDays);
    while cur >= floor
      invariant floor - 1 <= cur
      invariant Latest(Fires(c), floor, MinuteOf(now)) == Latest(Fires(c), floor, cur)
    {
      if Matches(c, cur) {
        return Some(cur);
      }
      cur := cur - 1;
    }
    r := None;
  }

  /** The search raises if the end of its horizon, or having looked there in vain the minute after, cannot be named. */
  method NextFire(c: Cron, now: nat, horizonDays: nat) returns (r: Result<Option<nat>>)
    ensures var from := MinuteOf(now) + 1;
            var ceiling := from + Days(horizonDays);
            var first := Earliest(Fires(c), from, ceiling);
            r == if ceiling > LAST_MINUTE || (first.None? && ceiling == LAST_MINUTE)
                 then Failure(OverflowError) else Success(first)
  {
    var cur := MinuteOf(now) + 1;
    var ceiling := cur + Days(horizonDays);
    if ceiling > LAST_MINUTE {
      return Failure(OverflowError);
    }
    while cur <= ceiling
      invariant cur <= ceiling + 1 && cur <= LAST_MINUTE
      invariant Earliest(Fires(c), MinuteOf(now) + 1, ceiling) == Earliest(Fires(c), cur, ceiling)
    {
      if Matches(c, cur) {
        return Success(Some(cur));
      }
      assert Earliest(Fires(c), cur, ceiling) == Earliest(Fires(c), cur + 1, ceiling);
      if cur == LAST_MINUTE {
        return Failure(OverflowError);
      }
      cur := cur + 1;
    }
    r := Success(None);
  }

  function Max(a: int, b: int): int {
    if a < b then b else a
  }

  /** Where `fires_between` starts looking: at `since`, or two days before `now` if that is later. */
  function LookbackStart(since: nat, now: nat): nat {
    Max(since, now - InstantOf(Days(2)))
  }

  ghost predicate FiresIn(c: Cron, after: nat, upTo: nat) {
    exists m: nat :: after < InstantOf(m) <= upTo && Matches(c, m)
  }

  method FiresBetween(c: Cron, since: nat, now: nat) returns (r: Result<bool>)
    requires HorizonFits(now, 2) && MinuteOf(now) <= LAST_MINUTE
    ensures var start := LookbackStart(since, now);
            var fires := FiresIn(c, start, now);
            r == if MinuteOf(start) >= LAST_MINUTE || (!fires && MinuteOf(now) == LAST_MINUTE)
                 then Failure(OverflowError) else Success(fires)
  {
    var floor := now - InstantOf(Days(2));
    var start := MinuteOf(Max(since, floor)) + 1;
    if start > LAST_MINUTE {
      return Failure(OverflowError);
    }
    var end := MinuteOf(now);
    var cur := start;
    while cur <= end
      invariant start <= cur <= LAST_MINUTE
      invariant forall m: nat :: start <= m < cur ==> !Matches(c, m)
    {
      if Matches(c, cur) {
        assert LookbackStart(since, now) < InstantOf(cur) <= now;
        return Success(true);
      }
      if cur == LAST_MINUTE {
        assert forall m: nat :: LookbackStart(since, now) < InstantOf(m) <= now ==> start <= m <= end;
        return Failure(OverflowError);
      }
      cur := cur + 1;
    }
    r := Success(false);
    assert forall m: nat :: LookbackStart(since, now) < InstantOf(m) <= now ==> start <= m <= end;
  }

  /** Asking whether a schedule fired and asking when it last fired give the same answer. */
  lemma FiresBetweenIsPreviousFire(c: Cron, since: nat, now: nat, horizonDays: nat)
    requires HorizonFits(now, horizonDays) && 2 <= horizonDays
    ensures var last := Latest(Fires(c), MinuteOf(now) - Days(horizonDays), MinuteOf(now));
            FiresIn(c, LookbackStart(since, now), now)
            <==> last.Some? && InstantOf(last.value) > LookbackStart(since, now)
  {
    var floor := MinuteOf(now) - Days(horizonDays);
    var last := Latest(Fires(c), floor, MinuteOf(now));
    var from := LookbackStart(since, now);
    if FiresIn(c, from, now) {
      var m: nat :| from < InstantOf(m) <= now && Matches(c, m);
      assert floor <= m <= MinuteOf(now) && Fires(c)(m);
    } else if last.Some? {
      assert InstantOf(last.value) <= now;
    }
  }

  // ------------------------------------------------------------------- gaps

  // 2025-01-01 00:00
  const EPOCH := 1064521440

  /** The fixed window of the gap scan starts on Wednesday, 1 January 2025. */
  lemma EpochIsWednesday()
    ensures var day := Calendar.Ordinal(Calendar.Date(2025, 1, 1));
            EPOCH == Days(day) && Calendar.Weekday(day) == 2
  {
    assert Calendar.DaysBeforeYear(2025) == 739251;
  }

  function WindowEnd(windowDays: nat): nat {
    EPOCH + Days(windowDays)
  }

  method Gaps(c: Cron, windowDays: nat) returns (gaps: seq<nat>)
    ensures gaps == GapsIn(Fires(c), EPOCH, WindowEnd(windowDays))
  {
    ghost var f := Fires(c);
    var prev: Option<nat> := None;
    gaps := [];
    var cur: nat := EPOCH;
    var end := WindowEnd(windowDays);
    while cur < end
      invariant EPOCH <= cur <= end
      invariant prev == Latest(f, EPOCH, cur - 1)
      invariant gaps == GapsIn(f, EPOCH, cur)
    {
      assert f(cur) == Matches(c, cur);
      if Matches(c, cur) {
        if prev.Some? {
          gaps := gaps + [cur - prev.value];
        }
        prev := Some(cur);
      }
      cur := cur + 1;
    }
  }

  // Without two fires in the window both intervals fall back to the length of the window.
  ghost predicate IsMinInterval(c: Cron, windowDays: nat, r: nat) {
    if exists g: nat :: GapWithin(Fires(c), EPOCH, WindowEnd(windowDays), g)
    then IsSmallestGap(Fires(c), EPOCH, WindowEnd(windowDays), r)
    else r == Days(windowDays)
  }

  ghost predicate IsMaxInterval(c: Cron, windowDays: nat, r: nat) {
    if exists g: nat :: GapWithin(Fires(c), EPOCH, WindowEnd(windowDays), g)
    then IsLargestGap(Fires(c), EPOCH, WindowEnd(windowDays), r)
    else r == Days(windowDays)
  }

  method MinInterval(c: Cron, windowDays: nat) returns (r: nat)
    ensures IsMinInterval(c, windowDays, r)
  {
    var gaps := Gaps(c, windowDays);
    r := if gaps == [] then Days(windowDays) else gaps[0];
    for k := 0 to |gaps|
      invariant if gaps == [] then r == Days(windowDays) else r in gaps
      invariant forall i :: 0 <= i < k ==> r <= gaps[i]
    {
      if gaps[k] < r {
        r := gaps[k];
      }
    }
    GapsBound(c, windowDays, gaps, r);
  }

  method MaxInterval(c: Cron, windowDays: nat) returns (r: nat)
    ensures IsMaxInterval(c, windowDays, r)
  {
    var gaps := Gaps(c, windowDays);
    r := if gaps == [] then Days(windowDays) else gaps[0];
    for k := 0 to |gaps|
      invariant if gaps == [] then r == Days(windowDays) else r in gaps
      invariant forall i :: 0 <= i < k ==> gaps[i] <= r
    {
      if r < gaps[k] {
        r := gaps[k];
      }
    }
    GapsBound(c, windowDays, gaps, r);
  }

  /** A number on the list that bounds the list bounds the gaps of the window. */
  lemma GapsBound(c: Cron, windowDays: nat, gaps: seq<nat>, r: nat)
    requires gaps == GapsIn(Fires(c), EPOCH, WindowEnd(windowDays))
    requires if gaps == [] then r == Days(windowDays) else r in gaps
    ensures (forall i :: 0 <= i < |gaps| ==> r <= gaps[i]) ==> IsMinInterval(c, windowDays, r)
    ensures (forall i :: 0 <= i < |gaps| ==> gaps[i] <= r) ==> IsMaxInterval(c, windowDays, r)
  {
    GapsInMembers(Fires(c), EPOCH, WindowEnd(windowDays));
    if gaps != [] {
      assert GapWithin(Fires(c), EPOCH, WindowEnd(windowDays), r);
    }
  }

  // --------------------------------------------------- the window sees every gap there is

  /** Schedules restricted neither by day of month nor by month. */
  predicate Weekly(c: Cron) {
    Proper(c) && !c.domRestricted && forall v :: 1 <= v <= 12 ==> v in c.month
  }

  lemma DayAndMinute(m: nat, day: nat, minute: nat)
    requires m == 1440 * day + minute && minute < 1440
    ensures m / 1440 == day && m % 1440 == minute && m % 60 == minute % 60
  {
    assert m % 60 == minute % 60 by {
      assert m == 60 * (24 * day) + minute;
    }
  }

  lemma WeekArithmetic(m: nat)
    ensures (m + 10080) % 60 == m % 60
    ensures (m + 10080) % 1440 == m % 1440
    ensures (m + 10080) / 1440 == m / 1440 + 7
  {
    DayAndMinute(m, m / 1440, m % 1440);
    DayAndMinute(m + 10080, m / 1440 + 7, m % 1440);
  }

  lemma RepeatsEveryWeek(c: Cron)
    requires Weekly(c)
    ensures Periodic(Fires(c), 10080)
  {
    forall m: nat
      ensures Fires(c)(m) == Fires(c)(m + 10080)
    {
      WeekArithmetic(m);
      WeeklyIgnoresDate(c, m / 1440);
      WeeklyIgnoresDate(c, m / 1440 + 7);
    }
  }

  lemma WeeklyIgnoresDate(c: Cron, day: nat)
    requires Weekly(c)
    ensures MatchesDay(c, day) <==> !c.dowRestricted || CronDow(day) in c.dow
  {
  }

  lemma NextWithDow(day: nat, dow: int) returns (d: nat)
    requires 0 <= dow < 7
    ensures CronDow(d) == dow && day <= d < day + 7
  {
    var w := day % 7;
    var k := dow - 1 - w;
    d := day + if k < 0 then (if k < -7 then k + 14 else k + 7) else k;
    assert d % 7 == if dow == 0 then 6 else dow - 1;
  }

  lemma FiresOnDay(c: Cron, day: nat, hour: nat, minute: nat) returns (m: nat)
    requires hour < 24 && minute < 60 && hour in c.hour && minute in c.minute && MatchesDay(c, day)
    ensures m == Days(day) + hour * 60 + minute && Fires(c)(m)
  {
    m := Days(day) + hour * 60 + minute;
    DayAndMinute(m, day, hour * 60 + minute);
    ClockOf(hour, minute);
  }

  lemma ClockOf(hour: nat, minute: nat)
    requires minute < 60
    ensures (hour * 60 + minute) / 60 == hour && (hour * 60 + minute) % 60 == minute
  {
  }

  lemma FiresEveryWeek(c: Cron, day: nat) returns (m: nat)
    requires Weekly(c)
    ensures Fires(c)(m) && day <= DayOf(m) < day + 7
  {
    var minute, hour, dow := Any(c.minute), Any(c.hour), Any(c.dow);
    var d := NextWithDow(day, dow);
    WeeklyIgnoresDate(c, d);
    m := FiresOnDay(c, d, hour, minute);
    DayAndMinute(m, d, hour * 60 + minute);
  }

  /** The forty-day window of a weekly schedule shows a gap, and shows exactly the gaps of all time. */
  lemma FortyDaysAreExact(c: Cron, g: nat)
    requires Weekly(c)
    ensures GapWithin(Fires(c), EPOCH, WindowEnd(40), g) <==> GapEver(Fires(c), g)
    ensures exists g': nat :: GapWithin(Fires(c), EPOCH, WindowEnd(40), g')
  {
    RepeatsEveryWeek(c);
    Recurrence.WindowIsExact(Fires(c), 10080, EPOCH, WindowEnd(40), g);
    var a := FiresEveryWeek(c, 0);
    var g' := SomeGap(Fires(c), 10080, EPOCH, WindowEnd(40), a);
  }

  /**
   The tier check: the interval found in the window reaches the floor exactly when any two fires,
   forever, are at least the floor apart.
   */
  lemma TierFloorHoldsForever(c: Cron, interval: nat, floor: nat)
    requires Weekly(c) && IsMinInterval(c, 40, interval)
    ensures floor <= interval <==> AtLeastApart(Fires(c), floor)
  {
    RepeatsEveryWeek(c);
    FortyDaysAreExact(c, 0);
    SmallestGapHoldsForever(Fires(c), 10080, EPOCH, WindowEnd(40), interval, floor);
  }

  /** After any fire the next one comes within the largest interval found in the window. */
  lemma MaxIntervalBoundsEveryWait(c: Cron, interval: nat, a: nat) returns (g: nat)
    requires Weekly(c) && IsMaxInterval(c, 40, interval) && Fires(c)(a)
    ensures GapAt(Fires(c), a, g) && g <= interval
  {
    RepeatsEveryWeek(c);
    FortyDaysAreExact(c, 0);
    g := NextWithinLargestGap(Fires(c), 10080, EPOCH, WindowEnd(40), interval, a);
  }
}
