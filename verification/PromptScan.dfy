/**
 The hourly prompt scan (collectors/prompts.py): a transcript is read forward from a saved offset, at
 most `cap` bytes a pass, on line boundaries, into a store that ignores rows it already has.
 */
module PromptScan {
  import opened Results
  import opened Text
  import Transcripts

  datatype Record = Record(ts: Option<string>, text: string)

  datatype Row = Row(ts: string, text: string)

  /** The human prompt on a line, if there is one: JSON, the record's shape and redaction stay abstract. */
  type Reader = string -> Option<Record>

  function RowsOfLine(read: Reader, fallback: string, line: string): set<Row> {
    if line == "" || read(line).None? then {}
    else
      var ts := read(line).value.ts;
      {Row(if ts.Some? && ts.value != "" then ts.value else fallback, read(line).value.text)}
  }

  function RowsOfLines(read: Reader, fallback: string, lines: seq<string>): set<Row> {
    if lines == [] then {} else RowsOfLine(read, fallback, lines[0]) + RowsOfLines(read, fallback, lines[1..])
  }

  function Rows(read: Reader, fallback: string, t: string): set<Row> {
    RowsOfLines(read, fallback, Split(t, '\n'))
  }

  /** The rows of the part of a file from one offset to another. */
  function RowsBetween(read: Reader, fallback: string, file: string, i: nat, j: nat): set<Row>
    requires i <= j <= |file|
  {
    Rows(read, fallback, file[i..j])
  }

  // ------------------------------------------------------------------- one pass

  /** The bytes a pass reads. */
  function Window(file: string, start: nat, cap: nat): string
    requires start <= |file|
  {
    if start + cap <= |file| then file[start..start + cap] else file[start..]
  }

  /** How much of the window holds whole lines: up to its last `\n`. */
  function WholeLines(file: string, start: nat, cap: nat): (n: nat)
    requires start <= |file|
    ensures start + n <= |file| && n <= cap
    ensures n > 0 ==> file[start + n - 1] == '\n'
  {
    Transcripts.NewlinePrefix(Window(file, start, cap))
  }

  ghost predicate LineEndsWithin(file: string, start: nat, cap: nat) {
    exists i :: start <= i < |file| && i < start + cap && file[i] == '\n'
  }

  lemma WholeLinesReachNewlines(file: string, start: nat, cap: nat, i: nat)
    requires start <= i < |file| && i < start + cap && file[i] == '\n'
    ensures i < start + WholeLines(file, start, cap)
  {
    assert Window(file, start, cap)[i - start] == '\n';
  }

  lemma WholeLinesIffLineEnds(file: string, start: nat, cap: nat)
    requires start <= |file|
    ensures WholeLines(file, start, cap) > 0 <==> LineEndsWithin(file, start, cap)
  {
    forall i: nat | start <= i < |file| && i < start + cap && file[i] == '\n'
      ensures WholeLines(file, start, cap) > 0
    {
      WholeLinesReachNewlines(file, start, cap, i);
    }
  }

  lemma WholeLinesStayWithin(file: string, start: nat, cap: nat)
    requires start <= Transcripts.NewlinePrefix(file)
    ensures start + WholeLines(file, start, cap) <= Transcripts.NewlinePrefix(file)
  {
    var end := start + WholeLines(file, start, cap);
    if end > start {
      NewlineIsCounted(file, end - 1);
    }
  }

  lemma NewlineIsCounted(t: string, i: nat)
    requires i < |t| && t[i] == '\n'
    ensures i < Transcripts.NewlinePrefix(t)
  {
  }

  datatype State = State(offset: nat, rows: set<Row>)

  function Pass(read: Reader, s: State, file: string, fallback: string, cap: nat): State {
    var start := if s.offset > |file| then 0 else s.offset;
    var whole := WholeLines(file, start, cap);
    if whole == 0 then s
    else State(start + whole, s.rows + RowsBetween(read, fallback, file, start, start + whole))
  }

  class Store {
    var offset: nat
    var rows: set<Row>

    constructor ()
      ensures offset == 0 && rows == {}
    {
      offset, rows := 0, {};
    }

    /** Scans the file once, answering how many rows were new. */
    method Scan(read: Reader, file: string, fallback: string, cap: nat) returns (added: nat)
      modifies this
      ensures State(offset, rows) == Pass(read, State(old(offset), old(rows)), file, fallback, cap)
      ensures added == |rows| - |old(rows)|
    {
      added := 0;
      var start := offset;
      if start > |file| {
        start := 0;
      }
      if start == |file| {
        return;
      }
      var whole := WholeLines(file, start, cap);
      if whole == 0 {
        return;
      }
      var consumed := file[start..start + whole];
      added := Insert(read, fallback, consumed, Split(consumed, '\n'));
      offset := start + whole;
    }

    method Insert(read: Reader, fallback: string, ghost text: string, lines: seq<string>) returns (added: nat)
      requires lines == Split(text, '\n')
      modifies this`rows
      ensures rows == old(rows) + Rows(read, fallback, text)
      ensures added == |rows| - |old(rows)|
    {
      added := 0;
      ghost var all := rows + RowsOfLines(read, fallback, lines);
      for k := 0 to |lines|
        invariant rows + RowsOfLines(read, fallback, lines[k..]) == all
        invariant added == |rows| - |old(rows)|
      {
        assert lines[k..][1..] == lines[k + 1..];
        var found := RowsOfLine(read, fallback, lines[k]) - rows;
        added := added + |found|;
        rows := rows + found;
      }
    }
  }

  // ------------------------------------------------------------------- windows add up

  lemma {:induction false} RowsOfMoreLines(read: Reader, fallback: string, a: seq<string>, b: seq<string>)
    ensures RowsOfLines(read, fallback, a + b) == RowsOfLines(read, fallback, a) + RowsOfLines(read, fallback, b)
  {
    if a == [] {
      assert a + b == b;
    } else {
      assert (a + b)[1..] == a[1..] + b;
      RowsOfMoreLines(read, fallback, a[1..], b);
    }
  }

  /** Whole lines, followed by more, yield the rows of both. */
  lemma RowsOfMore(read: Reader, fallback: string, a: string, b: string)
    requires a == "" || Transcripts.Terminated(a)
    ensures Rows(read, fallback, a + b) == Rows(read, fallback, a) + Rows(read, fallback, b)
  {
    SplitOfMore(a, b, '\n');
    var lines := Split(a, '\n');
    var n := |lines| - 1;
    assert lines == lines[..n] + [""];
    RowsOfMoreLines(read, fallback, lines[..n], [""]);
    RowsOfMoreLines(read, fallback, lines[..n], Split(b, '\n'));
    BlankLine(read, fallback);
  }

  lemma BlankLine(read: Reader, fallback: string)
    ensures RowsOfLines(read, fallback, [""]) == {}
  {
    assert [""][1..] == [];
  }

  /** The lines of a text that ends with a line feed, or is empty. */
  function LinesOf(t: string): seq<string> {
    var parts := Split(t, '\n');
    parts[..|parts| - 1]
  }

  lemma LinesOfMore(a: string, b: string)
    requires a == "" || Transcripts.Terminated(a)
    ensures LinesOf(a + b) == LinesOf(a) + LinesOf(b)
  {
    SplitOfMore(a, b, '\n');
  }

  lemma RowsAreOfLines(read: Reader, fallback: string, t: string)
    requires t == "" || Transcripts.Terminated(t)
    ensures Rows(read, fallback, t) == RowsOfLines(read, fallback, LinesOf(t))
  {
    SplitOfMore(t, "", '\n');
    var parts := Split(t, '\n');
    assert parts == LinesOf(t) + [""];
    RowsOfMoreLines(read, fallback, LinesOf(t), [""]);
    BlankLine(read, fallback);
  }

  // ------------------------------------------------------------------- each line once

  /** The rows of lines that were each read under a stamp of their own. */
  function RowsStamped(read: Reader, lines: seq<string>, stamps: seq<string>): set<Row>
    requires |lines| == |stamps|
  {
    if lines == [] then {} else RowsOfLine(read, stamps[0], lines[0]) + RowsStamped(read, lines[1..], stamps[1..])
  }

  lemma {:induction false} StampedOfMore(read: Reader, a: seq<string>, b: seq<string>, f: seq<string>, g: seq<string>)
    requires |a| == |f| && |b| == |g|
    ensures RowsStamped(read, a + b, f + g) == RowsStamped(read, a, f) + RowsStamped(read, b, g)
  {
    if a == [] {
      assert a + b == b && f + g == g;
    } else {
      assert (a + b)[1..] == a[1..] + b && (f + g)[1..] == f[1..] + g;
      StampedOfMore(read, a[1..], b, f[1..], g);
    }
  }

  function Repeat(stamp: string, n: nat): (r: seq<string>)
    ensures |r| == n && forall k :: 0 <= k < n ==> r[k] == stamp
  {
    if n == 0 then [] else [stamp] + Repeat(stamp, n - 1)
  }

  lemma {:induction false} StampedAlike(read: Reader, lines: seq<string>, stamp: string)
    ensures RowsStamped(read, lines, Repeat(stamp, |lines|)) == RowsOfLines(read, stamp, lines)
  {
    if lines != [] {
      StampedAlike(read, lines[1..], stamp);
    }
  }

  /** Reading from `from` on ends a pass here. */
  predicate StopsAt(file: string, from: nat, k: nat) {
    from <= k <= |file| && (k == from || file[k - 1] == '\n')
  }

  ghost predicate IsStamped(read: Reader, base: set<Row>, rows: set<Row>, lines: seq<string>, used: set<string>,
                            stamps: seq<string>) {
    && |stamps| == |lines| && (forall k :: 0 <= k < |stamps| ==> stamps[k] in used)
    && rows == base + RowsStamped(read, lines, stamps)
  }

  /**
   The store holds `base` and, of each line of the file from `from` up to the offset, the row it has under one
   of the stamps used.
   */
  ghost predicate InStep(read: Reader, base: set<Row>, from: nat, s: State, file: string, used: set<string>) {
    && StopsAt(file, from, s.offset)
    && exists stamps :: IsStamped(read, base, s.rows, LinesOf(file[from..s.offset]), used, stamps)
  }

  /** Growing leaves the store in step. */
  lemma GrowthKeepsInStep(read: Reader, base: set<Row>, from: nat, s: State, before: string, file: string,
                          used: set<string>)
    requires s.offset <= |before| && before <= file
    ensures InStep(read, base, from, s, before, used) <==> InStep(read, base, from, s, file, used)
  {
    if from <= s.offset {
      assert file[from..s.offset] == before[from..s.offset];
      assert s.offset > 0 ==> file[s.offset - 1] == before[s.offset - 1];
    }
  }

  lemma NothingYet(read: Reader, s: State, file: string)
    ensures s.offset <= |file| ==> InStep(read, s.rows, s.offset, s, file, {})
  {
    if s.offset <= |file| {
      assert file[s.offset..s.offset] == "";
      assert IsStamped(read, s.rows, s.rows, LinesOf(""), {}, []);
    }
  }

  /**
   Exactly once: a pass over a file that only grew stores of each line it consumes the row under its own
   stamp, and of each earlier line nothing more; and it moves the offset exactly when a line ends within the
   window.
   */
  lemma PassKeepsInStep(read: Reader, base: set<Row>, from: nat, s: State, before: string, file: string,
                        used: set<string>, fallback: string, cap: nat)
    requires InStep(read, base, from, s, before, used) && before <= file
    ensures var t := Pass(read, s, file, fallback, cap);
            && InStep(read, base, from, t, file, used + {fallback})
            && (t.offset > s.offset <==> LineEndsWithin(file, s.offset, cap))
            && t.offset >= s.offset
  {
    GrowthKeepsInStep(read, base, from, s, before, file, used);
    WholeLinesIffLineEnds(file, s.offset, cap);
    if WholeLines(file, s.offset, cap) > 0 {
      AdvanceKeepsInStep(read, base, from, s, Pass(read, s, file, fallback, cap), file, used, fallback);
    } else {
      UsedMore(read, base, from, s, file, used, fallback);
    }
  }

  lemma UsedMore(read: Reader, base: set<Row>, from: nat, s: State, file: string, used: set<string>, fallback: string)
    requires InStep(read, base, from, s, file, used)
    ensures InStep(read, base, from, s, file, used + {fallback})
  {
    var lines := LinesOf(file[from..s.offset]);
    var stamps :| IsStamped(read, base, s.rows, lines, used, stamps);
    assert IsStamped(read, base, s.rows, lines, used + {fallback}, stamps);
  }

  lemma AdvanceKeepsInStep(read: Reader, base: set<Row>, from: nat, s: State, t: State, file: string,
                           used: set<string>, fallback: string)
    requires InStep(read, base, from, s, file, used) && StopsAt(file, s.offset, t.offset)
    requires t.rows == s.rows + RowsBetween(read, fallback, file, s.offset, t.offset)
    ensures InStep(read, base, from, t, file, used + {fallback})
  {
    var a, b := file[from..s.offset], file[s.offset..t.offset];
    assert file[from..t.offset] == a + b;
    var stamps :| IsStamped(read, base, s.rows, LinesOf(a), used, stamps);
    TextStamped(read, base, s.rows, t.rows, a, b, used, stamps, fallback);
  }

  lemma TextStamped(read: Reader, base: set<Row>, before: set<Row>, after: set<Row>, a: string, b: string,
                    used: set<string>, stamps: seq<string>, fallback: string)
    requires (a == "" || Transcripts.Terminated(a)) && (b == "" || Transcripts.Terminated(b))
    requires IsStamped(read, base, before, LinesOf(a), used, stamps) && after == before + Rows(read, fallback, b)
    ensures exists more :: IsStamped(read, base, after, LinesOf(a + b), used + {fallback}, more)
  {
    LinesOfMore(a, b);
    RowsAreOfLines(read, fallback, b);
    StampMore(read, base, before, after, LinesOf(a), LinesOf(b), used, stamps, fallback);
  }

  lemma StampMore(read: Reader, base: set<Row>, before: set<Row>, after: set<Row>, a: seq<string>, b: seq<string>,
                  used: set<string>, stamps: seq<string>, fallback: string)
    requires IsStamped(read, base, before, a, used, stamps) && after == before + RowsOfLines(read, fallback, b)
    ensures IsStamped(read, base, after, a + b, used + {fallback}, stamps + Repeat(fallback, |b|))
  {
    StampedAlike(read, b, fallback);
    StampedOfMore(read, a, b, stamps, Repeat(fallback, |b|));
  }

  /** A file found shorter than the offset is read again from its top: every row of its first lines is stored. */
  lemma ShortFileIsReadAgain(read: Reader, s: State, file: string, fallback: string, cap: nat)
    requires s.offset > |file| && LineEndsWithin(file, 0, cap)
    ensures InStep(read, s.rows, 0, Pass(read, s, file, fallback, cap), file, {fallback})
  {
    WholeLinesIffLineEnds(file, 0, cap);
    NothingYet(read, State(0, s.rows), file);
    AdvanceKeepsInStep(read, s.rows, 0, State(0, s.rows), Pass(read, s, file, fallback, cap), file, {}, fallback);
    assert {} + {fallback} == {fallback};
  }

  // ------------------------------------------------------------------- stamps that matter

  /** A prompt on the line has no timestamp of its own. */
  predicate IsUndated(read: Reader, line: string) {
    line != "" && read(line).Some? && (read(line).value.ts.None? || read(line).value.ts.value == "")
  }

  /** Dated lines have the same rows under all stamps. */
  lemma {:induction false} StampsAreIdle(read: Reader, lines: seq<string>, f: seq<string>, g: seq<string>)
    requires |lines| == |f| == |g| && forall k :: 0 <= k < |lines| ==> !IsUndated(read, lines[k])
    ensures RowsStamped(read, lines, f) == RowsStamped(read, lines, g)
  {
    if lines != [] {
      StampsAreIdle(read, lines[1..], f[1..], g[1..]);
    }
  }

  /**
   Lines whose rows are stored add none under another stamp exactly when their undated prompts are stored
   under it too.
   */
  lemma {:induction false} RereadAddsNothingIff(read: Reader, lines: seq<string>, stamps: seq<string>, stamp: string,
                                                rows: set<Row>)
    requires |stamps| == |lines| && RowsStamped(read, lines, stamps) <= rows
    ensures RowsOfLines(read, stamp, lines) <= rows <==>
      forall k :: 0 <= k < |lines| && IsUndated(read, lines[k]) ==> Row(stamp, read(lines[k]).value.text) in rows
  {
    if lines != [] {
      var rest := lines[1..];
      RereadAddsNothingIff(read, rest, stamps[1..], stamp, rows);
      assert forall k :: 1 <= k < |lines| ==> lines[k] == rest[k - 1];
      assert RowsOfLine(read, stamps[0], lines[0]) <= rows;
    }
  }

  /**
   When a file whose first lines are stored already is read from its top again, the pass stores rows a second
   time exactly when one of those lines has an undated prompt that is not stored under the pass's own stamp.
   */
  lemma RereadDuplicatesIff(read: Reader, s: State, file: string, stamps: seq<string>, fallback: string, cap: nat)
    requires s.offset > |file| && LineEndsWithin(file, 0, cap)
    requires var lines := LinesOf(file[0..WholeLines(file, 0, cap)]);
             |stamps| == |lines| && RowsStamped(read, lines, stamps) <= s.rows
    ensures var lines := LinesOf(file[0..WholeLines(file, 0, cap)]);
            Pass(read, s, file, fallback, cap).rows != s.rows <==>
              exists k ::
                0 <= k < |lines| && IsUndated(read, lines[k]) && Row(fallback, read(lines[k]).value.text) !in s.rows
  {
    WholeLinesIffLineEnds(file, 0, cap);
    var t := file[0..WholeLines(file, 0, cap)];
    RowsAreOfLines(read, fallback, t);
    RereadAddsNothingIff(read, LinesOf(t), stamps, fallback, s.rows);
  }

  // ------------------------------------------------------------------- catching up

  predicate LineStart(file: string, k: nat) {
    k <= |file| && (k == 0 || file[k - 1] == '\n')
  }

  function Passes(read: Reader, s: State, file: string, fallback: string, cap: nat, n: nat): State
    decreases n
  {
    if n == 0 then s else Passes(read, Pass(read, s, file, fallback, cap), file, fallback, cap, n - 1)
  }

  /** Every line of the file fits in a window of its own. */
  ghost predicate LinesFit(file: string, cap: nat) {
    forall k | 0 <= k < Transcripts.NewlinePrefix(file) && LineStart(file, k) :: LineEndsWithin(file, k, cap)
  }

  /** A window that reaches a newline ends a step nearer the last newline of the file, never past it. */
  lemma PassAdvances(read: Reader, s: State, file: string, fallback: string, cap: nat)
    requires LineStart(file, s.offset) && s.offset <= Transcripts.NewlinePrefix(file)
    ensures var t := Pass(read, s, file, fallback, cap);
            && LineStart(file, t.offset) && s.offset <= t.offset <= Transcripts.NewlinePrefix(file)
            && (t.offset == s.offset <==> !LineEndsWithin(file, s.offset, cap))
  {
    WholeLinesIffLineEnds(file, s.offset, cap);
    WholeLinesStayWithin(file, s.offset, cap);
  }

  lemma PassGetsNearer(read: Reader, s: State, file: string, fallback: string, cap: nat)
    requires LineStart(file, s.offset) && s.offset <= Transcripts.NewlinePrefix(file) && LinesFit(file, cap)
    ensures var t := Pass(read, s, file, fallback, cap);
            && LineStart(file, t.offset) && t.offset <= Transcripts.NewlinePrefix(file)
            && (s.offset < Transcripts.NewlinePrefix(file) ==> s.offset < t.offset)
            && t.offset >= s.offset
  {
    PassAdvances(read, s, file, fallback, cap);
  }

  /** When every line fits the cap, enough passes reach the last newline. */
  lemma {:induction false} EveryLineIsReached(read: Reader, s: State, file: string, fallback: string, cap: nat, n: nat)
    requires LineStart(file, s.offset) && s.offset <= Transcripts.NewlinePrefix(file) <= s.offset + n
    requires LinesFit(file, cap)
    decreases n
    ensures Passes(read, s, file, fallback, cap, n).offset == Transcripts.NewlinePrefix(file)
  {
    if n > 0 {
      PassGetsNearer(read, s, file, fallback, cap);
      EveryLineIsReached(read, Pass(read, s, file, fallback, cap), file, fallback, cap, n - 1);
    }
  }

  /** No number of passes gets beyond a line that does not fit. */
  lemma {:induction false} LongLineStalls(read: Reader, s: State, file: string, fallback: string, cap: nat, n: nat,
                                          k: nat)
    requires LineStart(file, s.offset) && s.offset <= k < Transcripts.NewlinePrefix(file)
    requires LineStart(file, k) && !LineEndsWithin(file, k, cap)
    decreases n
    ensures Passes(read, s, file, fallback, cap, n).offset <= k
  {
    if n > 0 {
      PassAdvances(read, s, file, fallback, cap);
      PassStopsAt(read, s, file, fallback, cap, k);
      LongLineStalls(read, Pass(read, s, file, fallback, cap), file, fallback, cap, n - 1, k);
    }
  }

  lemma PassStopsAt(read: Reader, s: State, file: string, fallback: string, cap: nat, k: nat)
    requires s.offset <= k <= |file| && !LineEndsWithin(file, k, cap)
    ensures Pass(read, s, file, fallback, cap).offset <= k
  {
    var end := s.offset + WholeLines(file, s.offset, cap);
    assert end > s.offset ==> file[end - 1] == '\n';
  }

  /**
   A file scanned from its top is scanned to its last newline, sooner or later, exactly when every line fits
   the cap.
   */
  lemma CatchesUpIffLinesFit(read: Reader, file: string, fallback: string, cap: nat)
    ensures (exists n :: CaughtUp(read, file, fallback, cap, n)) <==> LinesFit(file, cap)
  {
    if LinesFit(file, cap) {
      EveryLineIsReached(read, State(0, {}), file, fallback, cap, |file|);
      assert CaughtUp(read, file, fallback, cap, |file|);
    }
    forall n: nat | CaughtUp(read, file, fallback, cap, n)
      ensures LinesFit(file, cap)
    {
      forall k | 0 <= k < Transcripts.NewlinePrefix(file) && LineStart(file, k)
        ensures LineEndsWithin(file, k, cap)
      {
        if !LineEndsWithin(file, k, cap) {
          LongLineStalls(read, State(0, {}), file, fallback, cap, n, k);
        }
      }
    }
  }

  ghost predicate CaughtUp(read: Reader, file: string, fallback: string, cap: nat, n: nat) {
    Passes(read, State(0, {}), file, fallback, cap, n).offset == Transcripts.NewlinePrefix(file)
  }

  // ------------------------------------------------------------------- limits of the law

  /** A prompt without a timestamp is stored once for every fallback it was read under. */
  lemma UndatedPromptIsStoredTwice(read: Reader, line: string, f: string, g: string, cap: nat)
    requires line != "" && '\n' !in line && f != g && cap > |line|
    requires read(line).Some? && read(line).value.ts.None?
    ensures var file := line + "\n";
            var s := Pass(read, State(0, {}), file, f, cap);
            var text := read(line).value.text;
            Pass(read, State(|file| + 1, s.rows), file, g, cap).rows == {Row(f, text), Row(g, text)}
  {
    var file := line + "\n";
    var s := Pass(read, State(0, {}), file, f, cap);
    PassOfOneLine(read, State(0, {}), line, f, cap);
    PassOfOneLine(read, State(|file| + 1, s.rows), line, g, cap);
  }

  lemma PassOfOneLine(read: Reader, s: State, line: string, fallback: string, cap: nat)
    requires '\n' !in line && cap > |line| && (s.offset == 0 || s.offset > |line| + 1)
    ensures Pass(read, s, line + "\n", fallback, cap).rows == s.rows + RowsOfLine(read, fallback, line)
  {
    var file := line + "\n";
    assert Window(file, 0, cap) == file;
    assert file[0..0 + |file|] == file;
    RowsOfOneLine(read, fallback, line);
  }

  lemma RowsOfOneLine(read: Reader, fallback: string, line: string)
    requires '\n' !in line
    ensures Rows(read, fallback, line + "\n") == RowsOfLine(read, fallback, line)
  {
    SplitAfterFirst(line, '\n', "");
    assert line + "\n" == line + ['\n'] + "";
    BlankLine(read, fallback);
    assert [line, ""][1..] == [""];
  }
}
