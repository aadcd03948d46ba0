/**
 Pruning configuration snapshots (collectors/retention.py): what a project and host's history of
 hashes looks like afterwards, and which weeks keep a snapshot.
 */
module Retention {
  import opened Calendar

  datatype Group = Group(project: string, host: string)

  /** The key weeks are told apart by. */
  datatype Week = Week(year: nat, number: int)

  datatype Row = Row(id: nat, group: Group, taken: Date, week: Week, hash: string)

  // ------------------------------------------------------------------- weeks

  /** The Thursday of a date's ISO week: the week belongs to that day's year. */
  function Thursday(d: Date): Date
    requires Valid(d)
  {
    DateOf(Ordinal(d) - Ordinal(d) % 7 + 3)
  }

  /** ISO year and week number. */
  function IsoWeek(d: Date): Week
    requires Valid(d)
  {
    var t := Thursday(d);
    Week(t.year, (Ordinal(t) - Ordinal(Date(t.year, 1, 1))) / 7 + 1)
  }

  /** The key the pruner tells weeks apart by: the calendar year of the date, with the ISO week number. */
  function WeekKey(d: Date): Week
    requires Valid(d)
  {
    Week(d.year, IsoWeek(d).number)
  }

  // ------------------------------------------------------------------- what is kept

  /** Each row carries the week key of the date it was taken. */
  ghost predicate Dated(rows: seq<Row>) {
    forall k :: 0 <= k < |rows| ==> Valid(rows[k].taken) && rows[k].week == WeekKey(rows[k].taken)
  }

  /** Rows come ordered by project and host, so that those of one group stand together. */
  ghost predicate Grouped(rows: seq<Row>) {
    forall i, j, k :: 0 <= i < j < k < |rows| && rows[i].group == rows[k].group ==> rows[j].group == rows[i].group
  }

  /** Some row of the group was taken in the week. */
  predicate InWeek(rows: seq<Row>, group: Group, week: Week)
  {
    exists k :: 0 <= k < |rows| && rows[k].group == group && rows[k].week == week
  }

  /** A row is kept if it opens its group, if its hash is new, or if its week is. */
  predicate Kept(earlier: seq<Row>, row: Row)
  {
    || earlier == []
    || earlier[|earlier| - 1].group != row.group
    || earlier[|earlier| - 1].hash != row.hash
    || !InWeek(earlier, row.group, row.week)
  }

  function Survivors(rows: seq<Row>): (s: seq<Row>)
    ensures forall r :: r in s ==> r in rows
  {
    if rows == [] then []
    else
      var earlier, last := rows[..|rows| - 1], rows[|rows| - 1];
      if Kept(earlier, last) then Survivors(earlier) + [last] else Survivors(earlier)
  }

  function Ids(rows: seq<Row>): set<nat> {
    set r | r in rows :: r.id
  }

  ghost predicate UniqueIds(rows: seq<Row>) {
    forall i, j :: 0 <= i < j < |rows| ==> rows[i].id != rows[j].id
  }

  /** One run over the rows older than the cutoff, answering which rows to delete. */
  method PruneConfigSnapshots(rows: seq<Row>) returns (doomed: set<nat>)
    requires Grouped(rows)
    ensures doomed == Ids(rows) - Ids(Survivors(rows))
  {
    var keep: set<nat> := {};
    var weeks: set<Week> := {};
    ghost var kept: seq<Row> := [];
    for k := 0 to |rows|
      invariant kept == Survivors(rows[..k]) && keep == Ids(kept)
      invariant k > 0 ==> WeeksOf(rows[..k], rows[k - 1].group, weeks)
    {
      var r := rows[k];
      var opens := Opens(rows, k);
      Step(rows, k, weeks);
      if opens {
        weeks := {};
      }
      if opens || r.hash != rows[k - 1].hash || r.week !in weeks {
        IdsOfMore(kept, r);
        keep := keep + {r.id};
        weeks := weeks + {r.week};
        kept := kept + [r];
      }
    }
    assert rows[..|rows|] == rows;
    doomed := (set r | r in rows :: r.id) - keep;
  }

  predicate Opens(rows: seq<Row>, k: nat)
    requires k < |rows|
  {
    k == 0 || rows[k - 1].group != rows[k].group
  }

  /** What the loop tests is whether the row is kept, and the weeks it has seen are the group's. */
  lemma Step(rows: seq<Row>, k: nat, weeks: set<Week>)
    requires Grouped(rows) && k < |rows|
    requires k > 0 ==> WeeksOf(rows[..k], rows[k - 1].group, weeks)
    ensures var r, w := rows[k], if Opens(rows, k) then {} else weeks;
            && (Kept(rows[..k], r) <==> Opens(rows, k) || r.hash != rows[k - 1].hash || r.week !in w)
            && WeeksOf(rows[..k + 1], r.group, w + {r.week})
            && Survivors(rows[..k + 1])
               == (if Kept(rows[..k], r) then Survivors(rows[..k]) + [r] else Survivors(rows[..k]))
            && (r.week in w ==> w + {r.week} == w)
  {
    var r, w := rows[k], if Opens(rows, k) then {} else weeks;
    if Opens(rows, k) {
      NewGroup(rows, k);
    }
    assert WeeksOf(rows[..k], r.group, w);
    assert rows[..k + 1] == rows[..k] + [r];
    SurvivorsOfMore(rows[..k], r);
    MoreWeeks(rows[..k], r, w);
  }

  lemma IdsOfMore(rows: seq<Row>, r: Row)
    ensures Ids(rows + [r]) == Ids(rows) + {r.id}
  {
    assert r in rows + [r];
    assert forall x :: x in rows + [r] <==> x in rows || x == r;
  }

  // ------------------------------------------------------------------- what the deletion leaves

  /** The rows left when those with these ids are deleted. */
  function Remaining(rows: seq<Row>, doomed: set<nat>): seq<Row> {
    if rows == [] then []
    else
      var rest, last := Remaining(rows[..|rows| - 1], doomed), rows[|rows| - 1];
      if last.id in doomed then rest else rest + [last]
  }

  /** Deleting what the pruner answers leaves exactly the survivors, in order, ids being unique. */
  lemma {:induction false} DeletionLeavesSurvivors(rows: seq<Row>)
    requires UniqueIds(rows)
    ensures Remaining(rows, Ids(rows) - Ids(Survivors(rows))) == Survivors(rows)
  {
    if rows != [] {
      var earlier, last := rows[..|rows| - 1], rows[|rows| - 1];
      DeletionLeavesSurvivors(earlier);
      assert rows == earlier + [last];
      IdsOfMore(earlier, last);
      IdsOfMore(Survivors(earlier), last);
      assert last.id !in Ids(earlier);
      var doomed := Ids(earlier) - Ids(Survivors(earlier));
      if Kept(earlier, last) {
        assert Ids(rows) - Ids(Survivors(rows)) == doomed;
      } else {
        assert Ids(Survivors(earlier)) <= Ids(earlier);
        assert Ids(rows) - Ids(Survivors(rows)) == doomed + {last.id};
        OtherIdIsIdle(earlier, doomed, last.id);
      }
    }
  }

  lemma {:induction false} OtherIdIsIdle(rows: seq<Row>, doomed: set<nat>, id: nat)
    requires id !in Ids(rows)
    ensures Remaining(rows, doomed + {id}) == Remaining(rows, doomed)
  {
    if rows != [] {
      var earlier, last := rows[..|rows| - 1], rows[|rows| - 1];
      assert last in rows && Ids(earlier) <= Ids(rows);
      OtherIdIsIdle(earlier, doomed, id);
    }
  }

  // ------------------------------------------------------------------- the weeks seen so far

  /** The set holds exactly the week keys of the group's rows. */
  ghost predicate WeeksOf(rows: seq<Row>, group: Group, weeks: set<Week>)
  {
    forall week :: week in weeks <==> InWeek(rows, group, week)
  }

  lemma NewGroup(rows: seq<Row>, k: nat)
    requires Grouped(rows) && k < |rows|
    requires k == 0 || rows[k - 1].group != rows[k].group
    ensures WeeksOf(rows[..k], rows[k].group, {})
  {
  }

  lemma MoreWeeks(rows: seq<Row>, r: Row, weeks: set<Week>)
    requires WeeksOf(rows, r.group, weeks)
    ensures WeeksOf(rows + [r], r.group, weeks + {r.week})
  {
    forall week
      ensures InWeek(rows + [r], r.group, week) <==> InWeek(rows, r.group, week) || week == r.week
    {
      InWeekOfMore(rows, r, r.group, week);
    }
  }

  lemma InWeekOfMore(rows: seq<Row>, r: Row, group: Group, week: Week)
    ensures InWeek(rows + [r], group, week) <==> InWeek(rows, group, week) || (r.group == group && week == r.week)
  {
    assert (rows + [r])[|rows|] == r;
    assert forall k :: 0 <= k < |rows| ==> (rows + [r])[k] == rows[k];
  }

  // ------------------------------------------------------------------- what stays the same

  /** A sequence without its repeats next to each other. */
  function Compress(s: seq<string>): (c: seq<string>)
    ensures s == [] <==> c == []
    ensures s != [] ==> c[|c| - 1] == s[|s| - 1]
  {
    if s == [] then []
    else
      var c, last := Compress(s[..|s| - 1]), s[|s| - 1];
      if c != [] && c[|c| - 1] == last then c else c + [last]
  }

  /** The hashes of one group, oldest first. */
  function Hashes(rows: seq<Row>, group: Group): seq<string> {
    if rows == [] then []
    else
      var last := rows[|rows| - 1];
      var h := Hashes(rows[..|rows| - 1], group);
      if last.group == group then h + [last.hash] else h
  }

  lemma HashesOfMore(rows: seq<Row>, r: Row, group: Group)
    ensures Hashes(rows + [r], group)
         == if r.group == group then Hashes(rows, group) + [r.hash] else Hashes(rows, group)
  {
    assert (rows + [r])[..|rows|] == rows;
  }

  lemma CompressOfMore(s: seq<string>, h: string)
    ensures Compress(s + [h]) == if s != [] && s[|s| - 1] == h then Compress(s) else Compress(s) + [h]
  {
    assert (s + [h])[..|s|] == s;
  }

  lemma SurvivorsOfMore(rows: seq<Row>, r: Row)
    ensures Survivors(rows + [r]) == if Kept(rows, r) then Survivors(rows) + [r] else Survivors(rows)
  {
    assert (rows + [r])[..|rows|] == rows;
  }

  /** What the survivors share with the rows they come from. */
  ghost predicate SameHistory(kept: seq<Row>, rows: seq<Row>, group: Group) {
    Compress(Hashes(kept, group)) == Compress(Hashes(rows, group))
  }

  /** The last survivor has the group and hash of the last row. */
  ghost predicate SameEnd(kept: seq<Row>, rows: seq<Row>) {
    rows != [] ==>
      && kept != []
      && kept[|kept| - 1].group == rows[|rows| - 1].group
      && kept[|kept| - 1].hash == rows[|rows| - 1].hash
  }

  lemma {:induction false} EndsStay(rows: seq<Row>)
    ensures SameEnd(Survivors(rows), rows)
  {
    if rows != [] {
      EndsStay(rows[..|rows| - 1]);
    }
  }

  /** Each group's succession of distinct hashes is what it was. */
  lemma {:induction false} HistoryStays(rows: seq<Row>, group: Group)
    ensures SameHistory(Survivors(rows), rows, group)
  {
    if rows != [] {
      var earlier, last := rows[..|rows| - 1], rows[|rows| - 1];
      HistoryStays(earlier, group);
      assert rows == earlier + [last];
      HashesOfMore(earlier, last, group);
      if last.group == group {
        CompressOfMore(Hashes(earlier, group), last.hash);
        CompressOfMore(Hashes(Survivors(earlier), group), last.hash);
        HashesOfMore(Survivors(earlier), last, group);
        LastHash(earlier, group);
      } else {
        HashesOfMore(Survivors(earlier), last, group);
      }
    }
  }

  /** So it is with the younger snapshots after them, which the pruner does not look at. */
  lemma WholeHistoryStays(rows: seq<Row>, group: Group, younger: seq<string>)
    ensures Compress(Hashes(Survivors(rows), group) + younger) == Compress(Hashes(rows, group) + younger)
  {
    HistoryStays(rows, group);
    CompressBefore(Hashes(Survivors(rows), group), Hashes(rows, group), younger);
  }

  lemma {:induction false} CompressBefore(a: seq<string>, b: seq<string>, more: seq<string>)
    requires Compress(a) == Compress(b)
    ensures Compress(a + more) == Compress(b + more)
    decreases more
  {
    if more == [] {
      assert a + more == a && b + more == b;
    } else {
      var h, rest := more[0], more[1..];
      CompressBeforeOne(a, b, h);
      CompressBefore(a + [h], b + [h], rest);
      MoveOne(a, more);
      MoveOne(b, more);
    }
  }

  lemma CompressBeforeOne(a: seq<string>, b: seq<string>, h: string)
    requires Compress(a) == Compress(b)
    ensures Compress(a + [h]) == Compress(b + [h])
  {
    CompressOfMore(a, h);
    CompressOfMore(b, h);
  }

  lemma MoveOne(a: seq<string>, more: seq<string>)
    requires more != []
    ensures (a + [more[0]]) + more[1..] == a + more
  {
  }

  lemma LastHash(rows: seq<Row>, group: Group)
    ensures rows != [] && rows[|rows| - 1].group == group ==>
      var h := Hashes(rows, group); h != [] && h[|h| - 1] == rows[|rows| - 1].hash
  {
  }

  /** Every week key of every group keeps a snapshot. */
  lemma {:induction false} WeeksStay(rows: seq<Row>, group: Group, week: Week)
    ensures InWeek(Survivors(rows), group, week) <==> InWeek(rows, group, week)
  {
    if rows != [] {
      var earlier, last := rows[..|rows| - 1], rows[|rows| - 1];
      WeeksStay(earlier, group, week);
      assert rows == earlier + [last];
      InWeekOfMore(earlier, last, group, week);
      InWeekOfMore(Survivors(earlier), last, group, week);
    }
  }

  /** A second run with the same cutoff deletes nothing. */
  lemma {:induction false} PruningTwiceIsOnce(rows: seq<Row>)
    requires Grouped(rows)
    ensures Survivors(Survivors(rows)) == Survivors(rows)
  {
    if rows != [] {
      var earlier, last := rows[..|rows| - 1], rows[|rows| - 1];
      PruningTwiceIsOnce(earlier);
      if Kept(earlier, last) {
        EndsStay(earlier);
        WeeksStay(earlier, last.group, last.week);
        assert Kept(Survivors(earlier), last);
        SurvivorsOfMore(Survivors(earlier), last);
      }
    }
  }

  // ------------------------------------------------------------------- ISO weeks

  ghost predicate TakenIn(r: Row, week: Week) {
    Valid(r.taken) && IsoWeek(r.taken) == week
  }

  /** Some row of the group was taken in the ISO week. */
  ghost predicate InIsoWeek(rows: seq<Row>, group: Group, week: Week) {
    exists k :: 0 <= k < |rows| && rows[k].group == group && TakenIn(rows[k], week)
  }

  /** The row is one of the group's from the ISO week. */
  ghost predicate IsFrom(r: Row, group: Group, week: Week) {
    r.group == group && TakenIn(r, week)
  }

  /** Some row of the week opens its group, or has a new hash, or a new key. */
  ghost predicate KeepsOneOf(rows: seq<Row>, group: Group, week: Week) {
    exists k :: 0 <= k < |rows| && IsFrom(rows[k], group, week) && Kept(rows[..k], rows[k])
  }

  lemma KeepsOneOfMore(rows: seq<Row>, r: Row, group: Group, week: Week)
    ensures KeepsOneOf(rows + [r], group, week) <==>
      KeepsOneOf(rows, group, week) || (IsFrom(r, group, week) && Kept(rows, r))
  {
    var more := rows + [r];
    assert more[..|rows|] == rows && more[|rows|] == r;
    forall k | 0 <= k < |rows|
      ensures more[k] == rows[k] && more[..k] == rows[..k]
    {
    }
  }

  lemma InIsoWeekOfMore(rows: seq<Row>, r: Row, group: Group, week: Week)
    ensures InIsoWeek(rows + [r], group, week) <==> InIsoWeek(rows, group, week) || IsFrom(r, group, week)
  {
    var more := rows + [r];
    assert more[|rows|] == r;
    forall k | 0 <= k < |rows|
      ensures more[k] == rows[k]
    {
    }
  }

  /** An ISO week of a group keeps a snapshot exactly when one taken in it is itself kept. */
  lemma {:induction false} IsoWeeksStay(rows: seq<Row>, group: Group, week: Week)
    ensures InIsoWeek(Survivors(rows), group, week) <==> KeepsOneOf(rows, group, week)
  {
    if rows != [] {
      var earlier, last := rows[..|rows| - 1], rows[|rows| - 1];
      IsoWeeksStay(earlier, group, week);
      assert rows == earlier + [last];
      KeepsOneOfMore(earlier, last, group, week);
      InIsoWeekOfMore(Survivors(earlier), last, group, week);
    }
  }

  /** No earlier row of the group from another ISO week has this row's key. */
  ghost predicate OwnKey(rows: seq<Row>, k: nat, week: Week)
    requires k < |rows|
  {
    forall i | 0 <= i < k && rows[i].group == rows[k].group && rows[i].week == rows[k].week :: TakenIn(rows[i], week)
  }

  /** So it keeps one if one of its rows has a key that no earlier row from another week has. */
  lemma {:induction false} OwnKeysStay(rows: seq<Row>, group: Group, week: Week, k: nat)
    requires k < |rows| && IsFrom(rows[k], group, week) && OwnKey(rows, k, week)
    ensures InIsoWeek(Survivors(rows), group, week)
    decreases k
  {
    IsoWeeksStay(rows, group, week);
    if InWeek(rows[..k], group, rows[k].week) {
      var i :| 0 <= i < k && rows[..k][i].group == group && rows[..k][i].week == rows[k].week;
      assert rows[i] == rows[..k][i];
      OwnKeysStay(rows, group, week, i);
    } else {
      assert Kept(rows[..k], rows[k]);
    }
  }

  /**
   Around New Year keys are shared: 1 January 2023 takes the key of the year's last week, which then keeps
   nothing.
   */
  lemma LastWeekOf2023IsLost(newYear: Row, late: Row)
    requires newYear.taken == Date(2023, 1, 1) && late.taken == Date(2023, 12, 25)
    requires Dated([newYear, late]) && newYear.group == late.group && newYear.hash == late.hash
    ensures TakenIn(newYear, Week(2022, 52)) && TakenIn(late, Week(2023, 52))
    ensures Survivors([newYear, late]) == [newYear]
  {
    LastDays();
    var rows := [newYear, late];
    assert rows[0].week == WeekKey(rows[0].taken) && rows[1].week == WeekKey(rows[1].taken);
    SecondIsDropped(newYear, late);
  }

  lemma SecondIsDropped(a: Row, b: Row)
    requires a.group == b.group && a.week == b.week && a.hash == b.hash
    ensures Survivors([a, b]) == [a]
  {
    assert [] + [a] == [a] && [a] + [b] == [a, b];
    SurvivorsOfMore([], a);
    assert InWeek([a], b.group, b.week) by {
      assert [a][0] == a;
    }
    SurvivorsOfMore([a], b);
  }

  lemma LastDays()
    ensures Valid(Date(2023, 1, 1)) && IsoWeek(Date(2023, 1, 1)) == Week(2022, 52)
    ensures Valid(Date(2023, 12, 25)) && IsoWeek(Date(2023, 12, 25)) == Week(2023, 52)
  {
    MonthsOfYear(2022);
    MonthsOfYear(2023);
    assert Ordinal(Date(2022, 1, 1)) == 738155 && Ordinal(Date(2023, 1, 1)) == 738520;
    assert Ordinal(Date(2022, 12, 29)) == 738517;
    IsoWeekOf(Date(2023, 1, 1), Date(2022, 12, 29));
    assert Ordinal(Date(2023, 12, 25)) == 738878 && Ordinal(Date(2023, 12, 28)) == 738881;
    IsoWeekOf(Date(2023, 12, 25), Date(2023, 12, 28));
  }

  lemma IsoWeekOf(d: Date, thursday: Date)
    requires Valid(d) && Valid(thursday) && Ordinal(thursday) == Ordinal(d) - Ordinal(d) % 7 + 3
    ensures IsoWeek(d) == Week(thursday.year, (Ordinal(thursday) - Ordinal(Date(thursday.year, 1, 1))) / 7 + 1)
  {
    DateOfOrdinal(thursday);
  }
}
