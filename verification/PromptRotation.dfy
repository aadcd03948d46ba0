/**
 What the prompt scan makes of a rotated file: a new, shorter one in place of the one it was reading
 (collectors/prompts.py).
 */
module PromptRotation {
  import opened PromptScan

  /** One pass: the file it finds, the fallback stamp and the cap. */
  datatype Visit = Visit(file: string, fallback: string, cap: nat)

  function Visited(read: Reader, s: State, visits: seq<Visit>): State {
    if visits == [] then s
    else
      var v := visits[|visits| - 1];
      Pass(read, Visited(read, s, visits[..|visits| - 1]), v.file, v.fallback, v.cap)
  }

  /** The passes find a file that only grows, towards `file`. */
  predicate Growing(visits: seq<Visit>, file: string) {
    && (forall i, j :: 0 <= i <= j < |visits| ==> visits[i].file <= visits[j].file)
    && (forall i :: 0 <= i < |visits| ==> visits[i].file <= file)
  }

  /** The pass finds the file shorter than the offset, and a line of it ends within the cap. */
  ghost predicate SeesShort(offset: nat, v: Visit) {
    |v.file| < offset && LineEndsWithin(v.file, 0, v.cap)
  }

  ghost predicate SeenShort(offset: nat, visits: seq<Visit>) {
    exists k :: 0 <= k < |visits| && SeesShort(offset, visits[k])
  }

  /** The pass stores rows from the top of the file. */
  predicate ReadsTop(s: State, v: Visit) {
    (s.offset == 0 || s.offset > |v.file|) && WholeLines(v.file, 0, v.cap) > 0
  }

  /** Some pass does. */
  predicate TopIsRead(read: Reader, s: State, visits: seq<Visit>) {
    visits != []
    && var init := visits[..|visits| - 1];
       TopIsRead(read, s, init) || ReadsTop(Visited(read, s, init), visits[|visits| - 1])
  }

  lemma SeenShortSnoc(offset: nat, visits: seq<Visit>)
    requires visits != []
    ensures SeenShort(offset, visits) <==>
      SeenShort(offset, visits[..|visits| - 1]) || SeesShort(offset, visits[|visits| - 1])
  {
    var init := visits[..|visits| - 1];
    assert forall k :: 0 <= k < |init| ==> init[k] == visits[k];
  }

  /** Where the offset stands: unmoved while the file is short of it and unread, and within the file otherwise. */
  ghost predicate OffsetFits(s: State, t: State, visits: seq<Visit>) {
    if visits == [] || (|visits[|visits| - 1].file| < s.offset && !SeenShort(s.offset, visits)) then t == s
    else 0 < t.offset <= |visits[|visits| - 1].file|
  }

  /**
   After a rotation the new file's top is read exactly when some pass finds the file shorter than the old
   offset with a line end inside the cap.  A file that regrows before that loses its head.
   */
  lemma {:induction false} TopIsReadIffSeenShort(read: Reader, s: State, visits: seq<Visit>, file: string)
    requires Growing(visits, file) && s.offset > 0
    ensures OffsetFits(s, Visited(read, s, visits), visits)
    ensures TopIsRead(read, s, visits) <==> SeenShort(s.offset, visits)
    decreases |visits|
  {
    if visits != [] {
      var init, v := visits[..|visits| - 1], visits[|visits| - 1];
      TopIsReadIffSeenShort(read, s, init, file);
      SeenShortSnoc(s.offset, visits);
      WholeLinesIffLineEnds(v.file, 0, v.cap);
      assert init != [] ==> init[|init| - 1].file <= v.file;
      if SeenShort(s.offset, init) {
        ShortIsNotSeenAtFirst(s.offset, init);
      }
    }
  }

  lemma ShortIsNotSeenAtFirst(offset: nat, visits: seq<Visit>)
    requires SeenShort(offset, visits)
    ensures visits != []
  {
  }

  function Fallbacks(visits: seq<Visit>): set<string> {
    set v | v in visits :: v.fallback
  }

  lemma MoreFallbacks(visits: seq<Visit>)
    requires visits != []
    ensures Fallbacks(visits) == Fallbacks(visits[..|visits| - 1]) + {visits[|visits| - 1].fallback}
  {
    var init, v := visits[..|visits| - 1], visits[|visits| - 1];
    assert visits == init + [v];
    assert forall u :: u in visits <==> u in init || u == v;
  }

  /** A pass over a file as long as the offset carries on. */
  lemma LongPass(read: Reader, base: set<Row>, from: nat, t: State, v: Visit, file: string, used: set<string>)
    requires InStep(read, base, from, t, file, used) && t.offset <= |v.file| && v.file <= file
    ensures InStep(read, base, from, Pass(read, t, v.file, v.fallback, v.cap), file, used + {v.fallback})
  {
    GrowthKeepsInStep(read, base, from, t, v.file, file, used);
    PassKeepsInStep(read, base, from, t, v.file, v.file, used, v.fallback, v.cap);
    GrowthKeepsInStep(read, base, from, Pass(read, t, v.file, v.fallback, v.cap), v.file, file, used + {v.fallback});
  }

  /** A pass over a shorter file starts at its top, if a line ends within the cap. */
  lemma ShortPass(read: Reader, t: State, v: Visit, file: string, used: set<string>)
    requires t.offset > |v.file| && v.file <= file
    ensures var u := Pass(read, t, v.file, v.fallback, v.cap);
            if LineEndsWithin(v.file, 0, v.cap) then InStep(read, t.rows, 0, u, file, used + {v.fallback}) else u == t
  {
    WholeLinesIffLineEnds(v.file, 0, v.cap);
    if LineEndsWithin(v.file, 0, v.cap) {
      var u := Pass(read, t, v.file, v.fallback, v.cap);
      ShortFileIsReadAgain(read, t, v.file, v.fallback, v.cap);
      GrowthKeepsInStep(read, t.rows, 0, u, v.file, file, {v.fallback});
      MoreUsed(read, t.rows, 0, u, file, {v.fallback}, used + {v.fallback});
    }
  }

  lemma MoreUsed(read: Reader, base: set<Row>, from: nat, s: State, file: string, used: set<string>, more: set<string>)
    requires InStep(read, base, from, s, file, used) && used <= more
    ensures InStep(read, base, from, s, file, more)
  {
    var lines := LinesOf(file[from..s.offset]);
    var stamps :| IsStamped(read, base, s.rows, lines, used, stamps);
    assert IsStamped(read, base, s.rows, lines, more, stamps);
  }

  /** What a pass makes of the rows stored since the rotation; `seen` says that the file was seen short before. */
  lemma VisitStep(read: Reader, s: State, t: State, v: Visit, file: string, used: set<string>, seen: bool)
    requires v.file <= file && 0 < s.offset
    requires t == s || t.offset <= |v.file|
    requires if seen then InStep(read, s.rows, 0, t, file, used) && t.offset <= |v.file|
             else t == s || InStep(read, s.rows, s.offset, t, file, used)
    ensures var u := Pass(read, t, v.file, v.fallback, v.cap);
            if seen || SeesShort(s.offset, v) then InStep(read, s.rows, 0, u, file, used + {v.fallback})
            else u == s || InStep(read, s.rows, s.offset, u, file, used + {v.fallback})
  {
    if t.offset > |v.file| {
      ShortPass(read, t, v, file, used);
    } else if seen {
      LongPass(read, s.rows, 0, t, v, file, used);
    } else {
      NothingYet(read, s, file);
      if t == s {
        MoreUsed(read, s.rows, s.offset, s, file, {}, used);
      }
      LongPass(read, s.rows, s.offset, t, v, file, used);
    }
  }

  /**
   Exactly which rows are stored after a rotation: of each line once, from the top of the file, or only from
   the old offset on.
   */
  lemma {:induction false} RegrownFileLosesItsHead(read: Reader, s: State, visits: seq<Visit>, file: string)
    requires Growing(visits, file) && 0 < s.offset
    ensures var t := Visited(read, s, visits);
            if SeenShort(s.offset, visits) then InStep(read, s.rows, 0, t, file, Fallbacks(visits))
            else t == s || InStep(read, s.rows, s.offset, t, file, Fallbacks(visits))
    decreases |visits|
  {
    if visits != [] {
      var init, v := visits[..|visits| - 1], visits[|visits| - 1];
      RegrownFileLosesItsHead(read, s, init, file);
      TopIsReadIffSeenShort(read, s, init, file);
      SeenShortSnoc(s.offset, visits);
      MoreFallbacks(visits);
      if init == [] {
        assert !SeenShort(s.offset, init);
      } else {
        assert init[|init| - 1].file <= v.file;
      }
      VisitStep(read, s, Visited(read, s, init), v, file, Fallbacks(init), SeenShort(s.offset, init));
    }
  }

  /** Passes over a growing file that is as long as the offset never find it shorter. */
  lemma {:induction false} OffsetStaysWithin(read: Reader, s: State, visits: seq<Visit>, file: string)
    requires Growing(visits, file) && forall v :: v in visits ==> s.offset <= |v.file|
    ensures visits == [] || Visited(read, s, visits).offset <= |visits[|visits| - 1].file|
  {
    if visits != [] {
      var n := |visits| - 1;
      OffsetStaysWithin(read, s, visits[..n], file);
      assert n > 0 ==> visits[n - 1].file <= visits[n].file;
      assert visits[n] in visits;
    }
  }

  /**
   While a file only grows, any passes store of each line they consume one row, under the stamp of one of
   them.
   */
  lemma {:induction false} EachLineIsStoredOnce(read: Reader, s: State, visits: seq<Visit>, file: string)
    requires Growing(visits, file) && s.offset <= |file| && forall v :: v in visits ==> s.offset <= |v.file|
    ensures InStep(read, s.rows, s.offset, Visited(read, s, visits), file, Fallbacks(visits))
  {
    if visits == [] {
      NoVisitYet(read, s, file);
    } else {
      var n := |visits| - 1;
      EachLineIsStoredOnce(read, s, visits[..n], file);
      LastVisit(read, s, visits, file);
    }
  }

  lemma NoVisitYet(read: Reader, s: State, file: string)
    requires s.offset <= |file|
    ensures InStep(read, s.rows, s.offset, Visited(read, s, []), file, Fallbacks([]))
  {
    NothingYet(read, s, file);
    assert Fallbacks([]) == {};
  }

  lemma LastVisit(read: Reader, s: State, visits: seq<Visit>, file: string)
    requires visits != [] && Growing(visits, file) && forall v :: v in visits ==> s.offset <= |v.file|
    requires var init := visits[..|visits| - 1];
             InStep(read, s.rows, s.offset, Visited(read, s, init), file, Fallbacks(init))
    ensures InStep(read, s.rows, s.offset, Visited(read, s, visits), file, Fallbacks(visits))
  {
    var init, v := visits[..|visits| - 1], visits[|visits| - 1];
    MoreFallbacks(visits);
    OffsetFitsNext(read, s, visits, file);
    NextVisit(read, s.rows, s.offset, Visited(read, s, init), Visited(read, s, visits), v, file,
              Fallbacks(init), Fallbacks(visits));
  }

  lemma NextVisit(read: Reader, base: set<Row>, from: nat, t: State, u: State, v: Visit, file: string,
                  used: set<string>, all: set<string>)
    requires InStep(read, base, from, t, file, used) && t.offset <= |v.file| && v.file <= file
    requires u == Pass(read, t, v.file, v.fallback, v.cap) && all == used + {v.fallback}
    ensures InStep(read, base, from, u, file, all)
  {
    LongPass(read, base, from, t, v, file, used);
  }

  lemma OffsetFitsNext(read: Reader, s: State, visits: seq<Visit>, file: string)
    requires visits != [] && Growing(visits, file) && forall v :: v in visits ==> s.offset <= |v.file|
    ensures Visited(read, s, visits[..|visits| - 1]).offset <= |visits[|visits| - 1].file|
  {
    var n := |visits| - 1;
    OffsetStaysWithin(read, s, visits[..n], file);
    assert n > 0 ==> visits[n - 1].file <= visits[n].file;
    assert visits[n] in visits;
  }
}
