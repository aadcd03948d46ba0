/**
 What a five-field schedule says in plain words: which numbers its fields list, and on which minutes,
 weekdays and days of the month it matches (collectors/validate.py, collectors/scheduler.py).
 */
module CronDays {
  import opened Results
  import opened Cron
  import Schedules
  import Calendar

  // ------------------------------------------------------------------- the numbers a field lists

  /** Counting from the part's first number in its steps one comes to `v`, and not past its last. */
  ghost predicate Lists(p: Part, lo: int, hi: int, v: int) {
    var step := if p.step.Some? then p.step.value else 1;
    match p.body
    case Star => Reaches(lo, step, v) && v <= hi
    case Single(a) => v == a
    case Range(a, b) => Reaches(a, step, v) && v <= b
  }

  ghost predicate Reaches(from: int, step: int, v: int) {
    exists j: nat :: v == from + j * step
  }

  ghost predicate Listed(parts: seq<Part>, lo: int, hi: int, v: int) {
    exists i :: 0 <= i < |parts| && Lists(parts[i], lo, hi, v)
  }

  /** A part that cannot be expanded: a step that is not positive, a number out of range, or a range backwards. */
  predicate IsBad(p: Part, lo: int, hi: int) {
    || (p.step.Some? && p.step.value <= 0)
    || match p.body
       case Star => false
       case Single(a) => a < lo || a > hi
       case Range(a, b) => a < lo || b > hi || a > b
  }

  lemma ReachesIff(from: int, step: int, v: int)
    requires 0 < step
    ensures Reaches(from, step, v) <==> from <= v && (v - from) % step == 0
  {
    if from <= v && (v - from) % step == 0 {
      var j: nat := (v - from) / step;
      assert v == from + j * step;
    }
    forall j: nat | v == from + j * step
      ensures from <= v && (v - from) % step == 0
    {
      MultipleLeavesNothing(v - from, j, step);
    }
  }

  lemma MultipleLeavesNothing(n: int, j: nat, step: int)
    requires 0 < step && n == j * step
    ensures 0 <= n && n % step == 0
  {
    var q, r := n / step, n % step;
    assert n == q * step + r;
    assert (j - q) * step == r;
    assert j - q >= 1 ==> (j - q) * step >= step;
    assert j - q <= -1 ==> (j - q) * step <= -step;
  }

  lemma PartLists(p: Part, lo: int, hi: int, v: int)
    requires PartOk(p, lo, hi)
    ensures PartHas(p, lo, hi, v) <==> Lists(p, lo, hi, v)
    ensures Lists(p, lo, hi, v) ==> lo <= v <= hi
  {
    ReachesIff(Start(p, lo), Step(p), v);
    if p.body.Single? && v == p.body.value {
      assert (v - Start(p, lo)) % Step(p) == 0;
    }
  }

  /** A field expands to the numbers its parts list, unless one of them is bad. */
  lemma FieldLists(parts: seq<Part>, lo: int, hi: int)
    requires lo <= hi
    ensures Expand(parts, lo, hi).Success? <==> forall i :: 0 <= i < |parts| ==> !IsBad(parts[i], lo, hi)
    ensures Expand(parts, lo, hi).Success? ==>
      forall v :: v in Expand(parts, lo, hi).value <==> Listed(parts, lo, hi, v)
  {
    forall i | 0 <= i < |parts|
      ensures PartOk(parts[i], lo, hi) <==> !IsBad(parts[i], lo, hi)
    {
    }
    if Expand(parts, lo, hi).Success? {
      forall v
        ensures v in Expand(parts, lo, hi).value <==> Listed(parts, lo, hi, v)
      {
        forall i | 0 <= i < |parts|
          ensures PartHas(parts[i], lo, hi, v) <==> Lists(parts[i], lo, hi, v)
          ensures Lists(parts[i], lo, hi, v) ==> lo <= v <= hi
        {
          PartLists(parts[i], lo, hi, v);
        }
      }
    }
  }

  // ------------------------------------------------------------------- the minutes a schedule matches

  /** The day, counted from Monday 1 January of year 1, is the one that cron numbers `k`. */
  predicate IsDay(k: int, day: nat) {
    day % 7 == if k == 0 || k == 7 then 6 else k - 1
  }

  lemma FirstOf2025IsWednesday(k: int)
    requires 0 <= k <= 7
    ensures IsDay(k, Calendar.Ordinal(Calendar.Date(2025, 1, 1))) <==> k == 3
  {
    EpochIsWednesday();
  }

  /** Of two restricted day fields either may pick the day; an unrestricted one picks none, and two of them all. */
  ghost predicate PicksDay(spec: Spec, day: nat) {
    || (spec.dom == STAR && spec.dow == STAR)
    || (spec.dom != STAR && Listed(spec.dom, 1, 31, Calendar.DateOf(day).day))
    || (spec.dow != STAR && exists k :: Listed(spec.dow, 0, 7, k) && IsDay(k, day))
  }

  lemma DayNumber(k: int, day: nat)
    requires 0 <= k <= 7
    ensures IsDay(k, day) <==> CronDow(day) == if k == 7 then 0 else k
  {
    var w := day % 7;
    assert CronDow(day) == (w + 1) % 7;
    assert (w + 1) % 7 == if w == 6 then 0 else w + 1;
  }

  lemma WeekdayListed(spec: Spec, day: nat)
    requires Parse(spec).Success?
    ensures CronDow(day) in Parse(spec).value.dow <==> exists k :: Listed(spec.dow, 0, 7, k) && IsDay(k, day)
  {
    FieldLists(spec.dow, 0, 7);
    var dow, c := Expand(spec.dow, 0, 7).value, Parse(spec).value;
    if CronDow(day) in c.dow {
      var k :| k in dow && CronDow(day) == if k == 7 then 0 else k;
      DayNumber(k, day);
    }
    if k :| Listed(spec.dow, 0, 7, k) && IsDay(k, day) {
      assert k in dow;
      DayNumber(k, day);
      assert (if k == 7 then 0 else k) in c.dow;
    }
  }

  /** A schedule matches a minute exactly when its fields list the minute, the hour and the month, and pick the day. */
  lemma MatchesInWords(spec: Spec, m: nat)
    requires Parse(spec).Success?
    ensures Matches(Parse(spec).value, m) <==>
      && Listed(spec.minute, 0, 59, m % 60)
      && Listed(spec.hour, 0, 23, m / 60 % 24)
      && Listed(spec.month, 1, 12, Calendar.DateOf(m / 1440).month)
      && PicksDay(spec, m / 1440)
  {
    FieldLists(spec.minute, 0, 59);
    FieldLists(spec.hour, 0, 23);
    FieldLists(spec.month, 1, 12);
    FieldLists(spec.dom, 1, 31);
    WeekdayListed(spec, m / 1440);
    HourOf(m);
  }

  lemma HourOf(m: nat)
    ensures m % 1440 / 60 == m / 60 % 24
  {
    var day, minute := m / 1440, m % 1440;
    assert m == 1440 * day + minute;
    assert m / 60 == 24 * day + minute / 60;
  }

  /** With one weekday and nothing else restricted, every match is on that weekday. */
  lemma OneWeekday(spec: Spec, k: int, m: nat)
    requires Parse(spec).Success? && spec.dom == STAR && spec.dow == [Part(Single(k), None)]
    requires Matches(Parse(spec).value, m)
    ensures IsDay(k, m / 1440)
  {
    MatchesInWords(spec, m);
    var j :| Listed(spec.dow, 0, 7, j) && IsDay(j, m / 1440);
  }

  // ------------------------------------------------------------------- the minutes a preset fires at

  lemma StarLists(lo: int, hi: int, v: int)
    requires lo <= v <= hi
    ensures Listed(STAR, lo, hi, v)
  {
    ReachesIff(lo, 1, v);
    assert Lists(STAR[0], lo, hi, v);
  }

  lemma OneLists(a: int, lo: int, hi: int, v: int)
    ensures Listed(Schedules.One(a), lo, hi, v) <==> v == a
  {
    assert Lists(Schedules.One(a)[0], lo, hi, v) <==> v == a;
  }

  lemma RangeLists(a: int, b: int, lo: int, hi: int, v: int)
    ensures Listed([Part(Range(a, b), None)], lo, hi, v) <==> a <= v <= b
  {
    ReachesIff(a, 1, v);
    assert Lists([Part(Range(a, b), None)][0], lo, hi, v) <==> a <= v <= b;
  }

  /** The days of a preset: all, Monday to Friday, one day of the week, one day of the month. */
  ghost predicate IsPresetDay(p: Schedules.Preset, s: Schedules.Slot, day: nat) {
    match p
    case Daily => true
    case Weekdays => day % 7 < 5
    case OnceAWeek => day % 7 == s.dow - 1
    case Monthly => Calendar.DateOf(day).day == s.dom
  }

  lemma PresetPicks(p: Schedules.Preset, s: Schedules.Slot, day: nat)
    requires Schedules.ValidSlot(s)
    ensures PicksDay(Schedules.PresetSpec(p, s), day) <==> IsPresetDay(p, s, day)
  {
    var spec := Schedules.PresetSpec(p, s);
    match p
    case Daily =>
    case Weekdays =>
      assert spec.dow[0] != STAR[0];
      forall k
        ensures Listed(spec.dow, 0, 7, k) <==> 1 <= k <= 5
      {
        RangeLists(1, 5, 0, 7, k);
      }
      if day % 7 < 5 {
        assert IsDay(day % 7 + 1, day);
      }
    case OnceAWeek =>
      assert spec.dow[0] != STAR[0];
      forall k
        ensures Listed(spec.dow, 0, 7, k) <==> k == s.dow
      {
        OneLists(s.dow, 0, 7, k);
      }
      assert IsDay(s.dow, day) <==> day % 7 == s.dow - 1;
    case Monthly =>
      assert spec.dom[0] != STAR[0];
      OneLists(s.dom, 1, 31, Calendar.DateOf(day).day);
  }

  /** A preset fires at its slot's hour and minute on each of its days, and at no other minute. */
  lemma PresetFiresExactly(p: Schedules.Preset, s: Schedules.Slot, m: nat)
    requires Schedules.ValidSlot(s)
    ensures Parse(Schedules.PresetSpec(p, s)).Success?
    ensures Fires(Parse(Schedules.PresetSpec(p, s)).value)(m) <==>
      m % 1440 == 60 * s.hour + s.minute && IsPresetDay(p, s, m / 1440)
  {
    Schedules.PresetParses(p, s);
    MatchesInWords(Schedules.PresetSpec(p, s), m);
    OneLists(s.minute, 0, 59, m % 60);
    OneLists(s.hour, 0, 23, m / 60 % 24);
    StarLists(1, 12, Calendar.DateOf(m / 1440).month);
    PresetPicks(p, s, m / 1440);
    ClockIs(m, s.hour, s.minute);
  }

  lemma ClockIs(m: nat, hour: nat, minute: nat)
    requires hour < 24 && minute < 60
    ensures m % 1440 == 60 * hour + minute <==> m % 60 == minute && m / 60 % 24 == hour
  {
    HourOf(m);
    var inDay := m % 1440;
    assert m == 1440 * (m / 1440) + inDay;
    assert m % 60 == inDay % 60;
    assert inDay == 60 * (inDay / 60) + inDay % 60;
  }
}
