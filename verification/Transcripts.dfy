/**
 Tailing a transcript from a saved offset (collectors/transcripts.py): the pieces read in any number
 of passes add up to what one pass over the whole file would have found.  Files are ASCII, so that a
 character is a byte.
 */
module Transcripts {
  import opened Results

  // ------------------------------------------------------------------- lines, as splitlines(keepends=True) makes them

  /** The characters besides `\n` at which Python also breaks lines. */
  predicate OtherBreak(c: char) {
    c in {'\r', '\U{0B}', '\U{0C}', '\U{1C}', '\U{1D}', '\U{1E}'}
  }

  function LineLength(t: string): (n: nat)
    requires t != []
    ensures 1 <= n <= |t|
  {
    if t[0] == '\n' then 1
    else if t[0] == '\r' && |t| > 1 && t[1] == '\n' then 2
    else if OtherBreak(t[0]) || |t| == 1 then 1
    else 1 + LineLength(t[1..])
  }

  predicate Terminated(line: string) {
    line != [] && line[|line| - 1] == '\n'
  }

  /** What one line yields: rows for the two tables, nothing if it is blank, or a shape error. */
  datatype Outcome = Bad | Rows(decisions: seq<string>, fires: seq<string>)

  type Parser = string -> Outcome

  datatype Extracted = Extracted(decisions: seq<string>, fires: seq<string>) {
    function Then(o: Extracted): Extracted {
      Extracted(decisions + o.decisions, fires + o.fires)
    }
  }

  const NOTHING := Extracted([], [])

  function Split(t: string): seq<string> {
    if t == [] then [] else [t[..LineLength(t)]] + Split(t[LineLength(t)..])
  }

  function Total(lines: seq<string>): nat {
    if lines == [] then 0 else |lines[0]| + Total(lines[1..])
  }

  // ------------------------------------------------------------------- one window

  function Yield(o: Outcome): Extracted
    requires o.Rows?
  {
    Extracted(o.decisions, o.fires)
  }

  function Prepend(rows: Extracted, n: nat, rest: Result<(Extracted, nat)>): Result<(Extracted, nat)> {
    if rest.Failure? then rest else Success((rows.Then(rest.value.0), n + rest.value.1))
  }

  /** Rows and length of the complete lines that come first. */
  function ParsedLines(parse: Parser, lines: seq<string>): Result<(Extracted, nat)> {
    if lines == [] || !Terminated(lines[0]) then Success((NOTHING, 0))
    else if parse(lines[0]).Bad? then Failure(EnvelopeShapeError)
    else Prepend(Yield(parse(lines[0])), |lines[0]|, ParsedLines(parse, lines[1..]))
  }

  function Parsed(parse: Parser, t: string): Result<(Extracted, nat)> {
    ParsedLines(parse, Split(t))
  }

  method ParseWindow(parse: Parser, text: string) returns (r: Result<(Extracted, nat)>)
    ensures r == Parsed(parse, text)
  {
    var lines := Split(text);
    var out := NOTHING;
    var consumed: nat := 0;
    PrependNothing(ParsedLines(parse, lines));
    for k := 0 to |lines|
      invariant ParsedLines(parse, lines) == Prepend(out, consumed, ParsedLines(parse, lines[k..]))
    {
      var rest := lines[k..];
      assert rest[0] == lines[k] && rest[1..] == lines[k + 1..];
      if !Terminated(lines[k]) {
        break;
      }
      var outcome := parse(lines[k]);
      if outcome.Bad? {
        return Failure(EnvelopeShapeError);
      }
      PrependTwice(out, consumed, Yield(outcome), |lines[k]|, ParsedLines(parse, rest[1..]));
      out := out.Then(Yield(outcome));
      consumed := consumed + |lines[k]|;
    }
    ThenUnit(out);
    r := Success((out, consumed));
  }

  lemma ThenUnit(a: Extracted)
    ensures NOTHING.Then(a) == a && a.Then(NOTHING) == a
  {
  }

  lemma PrependNothing(r: Result<(Extracted, nat)>)
    ensures Prepend(NOTHING, 0, r) == r
  {
    if r.Success? {
      ThenUnit(r.value.0);
    }
  }

  lemma PrependTwice(a: Extracted, i: nat, b: Extracted, j: nat, rest: Result<(Extracted, nat)>)
    ensures Prepend(a, i, Prepend(b, j, rest)) == Prepend(a.Then(b), i + j, rest)
  {
    if rest.Success? {
      var c := rest.value.0;
      assert a.decisions + b.decisions + c.decisions == a.decisions + (b.decisions + c.decisions);
      assert a.fires + b.fires + c.fires == a.fires + (b.fires + c.fires);
    }
  }

  // ------------------------------------------------------------------- joining windows

  lemma {:induction false} TotalOfSplit(t: string)
    ensures Total(Split(t)) == |t|
  {
    if t != [] {
      TotalOfSplit(t[LineLength(t)..]);
    }
  }

  lemma {:induction false} ConsumedFits(parse: Parser, lines: seq<string>)
    ensures ParsedLines(parse, lines).Success? ==> ParsedLines(parse, lines).value.1 <= Total(lines)
    ensures ParsedLines(parse, lines).Failure? ==> ParsedLines(parse, lines).error == EnvelopeShapeError
  {
    if lines != [] {
      ConsumedFits(parse, lines[1..]);
    }
  }

  lemma {:induction false} LineLengthOfMore(a: string, b: string)
    requires Terminated(a)
    ensures LineLength(a + b) == LineLength(a)
  {
    if a[0] != '\n' {
      assert (a + b)[1..] == a[1..] + b;
      if !(a[0] == '\r' && a[1] == '\n') && !OtherBreak(a[0]) {
        LineLengthOfMore(a[1..], b);
      }
    }
  }

  /** After a final newline a text splits independently of what comes before. */
  lemma {:induction false} SplitOfMore(a: string, b: string)
    requires a == [] || Terminated(a)
    ensures Split(a + b) == Split(a) + Split(b)
  {
    if a == [] {
      assert a + b == b;
    } else {
      var n := LineLength(a);
      LineLengthOfMore(a, b);
      assert (a + b)[..n] == a[..n] && (a + b)[n..] == a[n..] + b;
      SplitOfMore(a[n..], b);
    }
  }

  /** Lines wholly consumed, followed by more: the parse is the one followed by the other. */
  lemma {:induction false} ParsedLinesOfMore(parse: Parser, a: seq<string>, b: seq<string>)
    requires ParsedLines(parse, a).Success? && ParsedLines(parse, a).value.1 == Total(a)
    requires forall i :: 0 <= i < |a| ==> a[i] != []
    ensures ParsedLines(parse, a + b) == Prepend(ParsedLines(parse, a).value.0, Total(a), ParsedLines(parse, b))
    ensures a != [] ==> Terminated(a[|a| - 1])
  {
    if a == [] {
      assert a + b == b;
      PrependNothing(ParsedLines(parse, b));
    } else {
      assert Terminated(a[0]);
      ConsumedFits(parse, a[1..]);
      assert (a + b)[1..] == a[1..] + b;
      ParsedLinesOfMore(parse, a[1..], b);
      PrependTwice(Yield(parse(a[0])), |a[0]|, ParsedLines(parse, a[1..]).value.0, Total(a[1..]),
                   ParsedLines(parse, b));
    }
  }

  lemma {:induction false} LinesAreNonEmpty(t: string)
    ensures forall i :: 0 <= i < |Split(t)| ==> Split(t)[i] != []
    ensures t != [] ==> Split(t) != [] && Terminated(Split(t)[|Split(t)| - 1]) == Terminated(t)
  {
    if t != [] {
      var n := LineLength(t);
      LinesAreNonEmpty(t[n..]);
      assert n == |t| ==> t[..n] == t;
    }
  }

  /** A text wholly consumed, followed by more: the parse is the one followed by the other. */
  lemma ParsedOfMore(parse: Parser, a: string, b: string)
    requires Parsed(parse, a).Success? && Parsed(parse, a).value.1 == |a|
    ensures Parsed(parse, a + b) == Prepend(Parsed(parse, a).value.0, |a|, Parsed(parse, b))
  {
    TotalOfSplit(a);
    LinesAreNonEmpty(a);
    ParsedLinesOfMore(parse, Split(a), Split(b));
    SplitOfMore(a, b);
  }

  /** The first line of a text and the rest of it. */
  lemma ParsedByLine(parse: Parser, t: string)
    requires t != []
    ensures var n := LineLength(t);
            Parsed(parse, t) == if !Terminated(t[..n]) then Success((NOTHING, 0))
                                else if parse(t[..n]).Bad? then Failure(EnvelopeShapeError)
                                else Prepend(Yield(parse(t[..n])), n, Parsed(parse, t[n..]))
  {
    assert Split(t)[1..] == Split(t[LineLength(t)..]);
  }

  /** What a parse consumed is itself wholly consumed, with the same rows. */
  lemma {:induction false} ParsedOfConsumed(parse: Parser, t: string)
    requires Parsed(parse, t).Success?
    ensures Parsed(parse, t).value.1 <= |t|
    ensures Parsed(parse, t[..Parsed(parse, t).value.1]) == Parsed(parse, t)
  {
    TotalOfSplit(t);
    ConsumedFits(parse, Split(t));
    var consumed := Parsed(parse, t).value.1;
    if consumed > 0 {
      var n := LineLength(t);
      ParsedByLine(parse, t);
      ParsedOfConsumed(parse, t[n..]);
      PrefixByLine(parse, t, n, consumed - n);
    } else if t != [] {
      ParsedByLine(parse, t);
    }
  }

  lemma PrefixByLine(parse: Parser, t: string, n: nat, k: nat)
    requires t != [] && n == LineLength(t) && n + k <= |t|
    requires Terminated(t[..n]) && !parse(t[..n]).Bad?
    ensures Parsed(parse, t[..n + k]) == Prepend(Yield(parse(t[..n])), n, Parsed(parse, t[n..][..k]))
  {
    FirstLineOfPrefix(t, n + k);
    PrefixCut(t, n, k);
    ParsedByCut(parse, t[..n + k], t[..n], t[n..][..k]);
  }

  lemma ParsedByCut(parse: Parser, t: string, line: string, rest: string)
    requires t != [] && LineLength(t) == |line| && t[..|line|] == line && t[|line|..] == rest
    requires Terminated(line) && !parse(line).Bad?
    ensures Parsed(parse, t) == Prepend(Yield(parse(line)), |line|, Parsed(parse, rest))
  {
    ParsedByLine(parse, t);
  }

  lemma PrefixCut(t: string, n: nat, k: nat)
    requires n + k <= |t|
    ensures t[..n + k][..n] == t[..n] && t[..n + k][n..] == t[n..][..k]
  {
  }

  lemma FirstLineOfPrefix(t: string, k: nat)
    requires t != [] && LineLength(t) <= k <= |t| && Terminated(t[..LineLength(t)])
    ensures LineLength(t[..k]) == LineLength(t)
  {
    var n := LineLength(t);
    assert t[..k] == t[..n] + t[n..k];
    FirstLineIsItsOwn(t);
    LineLengthOfMore(t[..n], t[n..k]);
  }

  lemma {:induction false} FirstLineIsItsOwn(t: string)
    requires t != []
    ensures LineLength(t[..LineLength(t)]) == LineLength(t)
  {
    if t[0] != '\n' && !(t[0] == '\r' && |t| > 1 && t[1] == '\n') && !OtherBreak(t[0]) && |t| > 1 {
      FirstLineIsItsOwn(t[1..]);
      assert t[..LineLength(t)][1..] == t[1..][..LineLength(t[1..])];
    }
  }

  // ------------------------------------------------------------------- a tailed session

  /** What lies beyond the offset: nothing, if the file has become shorter. */
  function Unread(file: string, offset: nat): string {
    if offset <= |file| then file[offset..] else ""
  }

  class Session {
    var offset: nat
    var rows: Extracted
    var oversized: bool

    constructor ()
      ensures offset == 0 && rows == NOTHING
    {
      offset, rows, oversized := 0, NOTHING, false;
    }

    /** One pass over the file as it is now, never reading more than `cap` bytes. */
    method Tail(parse: Parser, file: string, cap: nat) returns (r: Result<bool>)
      modifies this
      ensures var pass := Pass(parse, old(offset), old(rows), file, cap);
              offset == pass.offset && rows == pass.rows && r == pass.reply
      ensures oversized == if r.Success? then |file| - old(offset) > cap else old(oversized)
    {
      if |file| - offset > cap {
        oversized := true;
        return Success(false);
      }
      var parsed := ParseWindow(parse, Unread(file, offset));
      if parsed.Failure? {
        return Failure(parsed.error);
      }
      rows := rows.Then(parsed.value.0);
      offset := offset + parsed.value.1;
      oversized := false;
      r := Success(true);
    }
  }

  lemma ConsumedWithin(parse: Parser, t: string)
    ensures Parsed(parse, t).Success? ==> Parsed(parse, t).value.1 <= |t|
    ensures Parsed(parse, t).Failure? ==> Parsed(parse, t).error == EnvelopeShapeError
  {
    TotalOfSplit(t);
    ConsumedFits(parse, Split(t));
  }

  /** The state a pass leaves, and whether it read, skipped or failed. */
  datatype Passed = Passed(offset: nat, rows: Extracted, reply: Result<bool>)

  function Pass(parse: Parser, offset: nat, rows: Extracted, file: string, cap: nat): Passed {
    if |file| - offset > cap then Passed(offset, rows, Success(false))
    else
      var parsed := Parsed(parse, Unread(file, offset));
      if parsed.Failure? then Passed(offset, rows, Failure(parsed.error))
      else Passed(offset + parsed.value.1, rows.Then(parsed.value.0), Success(true))
  }

  /** The state is what one parse of the file up to the offset gives. */
  ghost predicate InStep(parse: Parser, offset: nat, rows: Extracted, file: string) {
    offset <= |file| && Parsed(parse, file[..offset]) == Success((rows, offset))
  }

  /**
   One pass over a file that may have grown: it keeps the state in step; if it fails or skips it
   changes nothing; and if it reads, the state is that of one parse of the whole file from the start.
   */
  lemma PassKeepsInStep(parse: Parser, offset: nat, rows: Extracted, before: string, file: string, cap: nat)
    requires InStep(parse, offset, rows, before) && before <= file
    ensures var pass := Pass(parse, offset, rows, file, cap);
            && InStep(parse, pass.offset, pass.rows, file)
            && (pass.reply != Success(true) ==> pass.offset == offset && pass.rows == rows)
            && (pass.reply == Success(true) ==> Parsed(parse, file) == Success((pass.rows, pass.offset)))
            && (pass.reply.Failure? ==> Parsed(parse, file) == Failure(EnvelopeShapeError))
  {
    assert file[..offset] == before[..offset];
    assert file == file[..offset] + file[offset..];
    ParsedOfMore(parse, file[..offset], file[offset..]);
    ConsumedWithin(parse, file[offset..]);
    if Pass(parse, offset, rows, file, cap).reply == Success(true) {
      ParsedOfConsumed(parse, file);
    }
  }

  /** The state after passes over successive contents of the file. */
  function Passes(parse: Parser, files: seq<string>, cap: nat): Passed
    decreases |files|
  {
    if files == [] then Passed(0, NOTHING, Success(false))
    else
      var s := Passes(parse, files[..|files| - 1], cap);
      Pass(parse, s.offset, s.rows, files[|files| - 1], cap)
  }

  /** Each content of the file starts with the one before. */
  ghost predicate Growing(files: seq<string>) {
    forall i :: 0 < i < |files| ==> files[i - 1] <= files[i]
  }

  /** However an append-only file is cut into passes, a pass that reads leaves what one parse of it all would. */
  lemma {:induction false} TailingIsOneParse(parse: Parser, files: seq<string>, cap: nat)
    requires files != [] && Growing(files)
    ensures var s, file := Passes(parse, files, cap), files[|files| - 1];
            && InStep(parse, s.offset, s.rows, file)
            && (s.reply == Success(true) ==> Parsed(parse, file) == Success((s.rows, s.offset)))
    decreases |files|
  {
    var init, file := files[..|files| - 1], files[|files| - 1];
    if init == [] {
      PassKeepsInStep(parse, 0, NOTHING, "", file, cap);
    } else {
      TailingIsOneParse(parse, init, cap);
      var before := init[|init| - 1];
      assert before == files[|files| - 2] <= file;
      var s := Passes(parse, init, cap);
      PassKeepsInStep(parse, s.offset, s.rows, before, file, cap);
    }
  }

  // ------------------------------------------------------------------- how far a pass gets

  /** The length of the part of a text that ends with its last `\n`. */
  function NewlinePrefix(t: string): (n: nat)
    ensures n <= |t|
    ensures n > 0 ==> t[n - 1] == '\n'
    ensures forall i :: n <= i < |t| ==> t[i] != '\n'
  {
    if t == [] then 0
    else if t[|t| - 1] == '\n' then |t|
    else NewlinePrefix(t[..|t| - 1])
  }

  /** Lines are broken only by `\n` or by `\r\n`. */
  predicate Clean(t: string) {
    forall i :: 0 <= i < |t| && OtherBreak(t[i]) ==> t[i] == '\r' && i + 1 < |t| && t[i + 1] == '\n'
  }

  /** Two texts are clean together exactly when both are, unless a `\r\n` was cut in two. */
  lemma CleanTogether(a: string, b: string)
    requires a != [] && (b == [] || a[|a| - 1] != '\r' || b[0] != '\n')
    ensures Clean(a + b) <==> Clean(a) && Clean(b)
  {
    var t := a + b;
    assert b != [] ==> t[|a|] == b[0];
    assert a[|a| - 1] == t[|a| - 1];
    if Clean(t) {
      forall i | 0 <= i < |b| && OtherBreak(b[i])
        ensures b[i] == '\r' && i + 1 < |b| && b[i + 1] == '\n'
      {
        assert t[|a| + i] == b[i] && (i + 1 < |b| ==> t[|a| + i + 1] == b[i + 1]);
      }
      forall i | 0 <= i < |a| && OtherBreak(a[i])
        ensures a[i] == '\r' && i + 1 < |a| && a[i + 1] == '\n'
      {
        assert t[i] == a[i];
        assert i + 1 < |a| ==> t[i + 1] == a[i + 1];
      }
    }
    if Clean(a) && Clean(b) {
      forall i | 0 <= i < |t| && OtherBreak(t[i])
        ensures t[i] == '\r' && i + 1 < |t| && t[i + 1] == '\n'
      {
        if i >= |a| {
          assert t[i] == b[i - |a|] && t[i + 1] == b[i - |a| + 1];
        } else {
          assert t[i] == a[i] && t[i + 1] == a[i + 1];
        }
      }
    }
  }

  lemma CleanFirstLine(t: string)
    requires Terminated(t)
    ensures Terminated(t[..LineLength(t)]) <==> Clean(t[..LineLength(t)])
    ensures Clean(t) <==> Clean(t[..LineLength(t)]) && Clean(t[LineLength(t)..])
  {
    var n := LineLength(t);
    FirstLineShape(t);
    CleanLine(t[..n]);
    assert t == t[..n] + t[n..];
    CleanTogether(t[..n], t[n..]);
  }

  lemma CleanLine(line: string)
    requires line != []
    requires forall i :: 0 <= i < |line| - 2 ==> !OtherBreak(line[i])
    requires |line| >= 2 && line[|line| - 1] != '\n' ==> !OtherBreak(line[|line| - 2])
    requires |line| >= 2 && OtherBreak(line[|line| - 2]) ==> line[|line| - 2] == '\r'
    requires line[|line| - 1] == '\n' || OtherBreak(line[|line| - 1])
    ensures Terminated(line) <==> Clean(line)
  {
    if Clean(line) {
      assert !OtherBreak(line[|line| - 1]);
    }
  }

  /** A line holds one break, at its end. */
  lemma {:induction false} FirstLineShape(t: string)
    requires t != []
    ensures var n := LineLength(t);
            && (forall i :: 0 <= i < n - 2 ==> !OtherBreak(t[i]) && t[i] != '\n')
            && (n >= 2 && t[n - 1] != '\n' ==> !OtherBreak(t[n - 2]))
            && (n >= 2 && t[n - 1] == '\n' && OtherBreak(t[n - 2]) ==> t[n - 2] == '\r')
            && (n >= 2 ==> t[n - 2] != '\n')
            && (n < |t| && t[n - 1] != '\n' ==> OtherBreak(t[n - 1]))
            && (n < |t| && t[n - 1] == '\r' ==> t[n] != '\n')
  {
    if t[0] != '\n' && !(t[0] == '\r' && |t| > 1 && t[1] == '\n') && !OtherBreak(t[0]) && |t| > 1 {
      FirstLineShape(t[1..]);
      var n := LineLength(t);
      assert forall i :: 1 <= i < |t| ==> t[i] == t[1..][i - 1];
    }
  }

  /** The part up to the last newline is clean exactly when its first line is and the rest of it is. */
  lemma CleanByLine(t: string)
    requires NewlinePrefix(t) > 0
    ensures var n, m := LineLength(t), NewlinePrefix(t);
            && n <= m
            && NewlinePrefix(t[n..]) == m - n
            && (Clean(t[..m]) <==> Terminated(t[..n]) && Clean(t[n..][..m - n]))
  {
    var n, m := LineLength(t), NewlinePrefix(t);
    FirstLineEndsBefore(t, m);
    NewlinePrefixOfRest(t, n);
    CleanUpTo(t, n, m);
  }

  lemma CleanUpTo(t: string, n: nat, m: nat)
    requires 0 < m <= |t| && t[m - 1] == '\n' && n == LineLength(t) && n <= m
    ensures Clean(t[..m]) <==> Terminated(t[..n]) && Clean(t[n..][..m - n])
  {
    FirstLineEndsBefore(t, m);
    CleanFirstOf(t, m, n);
  }

  lemma CleanFirstOf(t: string, m: nat, n: nat)
    requires 0 < m <= |t| && t[m - 1] == '\n' && n <= m && n == LineLength(t[..m])
    ensures Clean(t[..m]) <==> Terminated(t[..n]) && Clean(t[n..][..m - n])
  {
    CutTwice(t, n, m);
    CleanParts(t[..m], t[..n], t[n..][..m - n]);
  }

  lemma CutTwice(t: string, n: nat, m: nat)
    requires n <= m <= |t|
    ensures t[..m][..n] == t[..n] && t[..m][n..] == t[n..][..m - n]
  {
  }

  lemma CleanParts(t: string, line: string, rest: string)
    requires Terminated(t) && line == t[..LineLength(t)] && rest == t[LineLength(t)..]
    ensures Clean(t) <==> Terminated(line) && Clean(rest)
  {
    CleanFirstLine(t);
  }

  /** A parse reaches the last newline exactly when no other line break lies before it. */
  lemma {:induction false} ReachesLastNewline(parse: Parser, t: string)
    requires Parsed(parse, t).Success?
    ensures Parsed(parse, t).value.1 == NewlinePrefix(t) <==> Clean(t[..NewlinePrefix(t)])
    ensures Parsed(parse, t).value.1 <= NewlinePrefix(t)
  {
    if t != [] {
      var n := LineLength(t);
      ParsedByLine(parse, t);
      if NewlinePrefix(t) > 0 {
        CleanByLine(t);
        if Terminated(t[..n]) {
          ReachesLastNewline(parse, t[n..]);
        }
      } else {
        assert !Terminated(t[..n]);
      }
    }
  }

  lemma {:induction false} FirstLineEndsBefore(t: string, m: nat)
    requires 0 < m <= |t| && t[m - 1] == '\n'
    ensures LineLength(t) <= m && LineLength(t[..m]) == LineLength(t)
  {
    assert t == t[..m] + t[m..];
    LineLengthOfMore(t[..m], t[m..]);
  }

  lemma NewlinePrefixOfRest(t: string, n: nat)
    requires n <= NewlinePrefix(t)
    ensures NewlinePrefix(t[n..]) == NewlinePrefix(t) - n
  {
    var m, k := NewlinePrefix(t), NewlinePrefix(t[n..]);
    assert k > 0 ==> t[n..][k - 1] == t[n + k - 1];
  }

  /** A line broken by anything else stops the tail for good: no later pass gets past it. */
  lemma StrayBreakStallsForever(parse: Parser, t: string, more: string)
    requires t != [] && LineLength(t) < |t| && !Terminated(t[..LineLength(t)])
    ensures Parsed(parse, t + more) == Success((NOTHING, 0))
  {
    LineLengthStays(t, more);
    ParsedByLine(parse, t + more);
    assert (t + more)[..LineLength(t)] == t[..LineLength(t)];
  }

  lemma {:induction false} LineLengthStays(t: string, more: string)
    requires t != [] && LineLength(t) < |t|
    ensures LineLength(t + more) == LineLength(t)
  {
    if t[0] != '\n' && !(t[0] == '\r' && |t| > 1 && t[1] == '\n') && !OtherBreak(t[0]) {
      LineLengthStays(t[1..], more);
      assert (t + more)[1..] == t[1..] + more;
    }
  }
}
