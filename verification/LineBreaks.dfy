/** Line breaks, and the lines `str.splitlines` makes of an ASCII text. */
module LineBreaks {
  import Transcripts

  predicate IsBreak(c: char) {
    c == '\n' || Transcripts.OtherBreak(c)
  }

  predicate HasBreak(s: string) {
    exists k :: 0 <= k < |s| && IsBreak(s[k])
  }

  /** A line without the break that ends it. */
  function Chop(line: string): string {
    if |line| >= 2 && line[|line| - 2] == '\r' && line[|line| - 1] == '\n' then line[..|line| - 2]
    else if line != "" && IsBreak(line[|line| - 1]) then line[..|line| - 1]
    else line
  }

  lemma BreakOfMore(a: string, b: string)
    ensures HasBreak(a + b) <==> HasBreak(a) || HasBreak(b)
  {
    assert forall k :: 0 <= k < |a| ==> (a + b)[k] == a[k];
    assert forall k :: 0 <= k < |b| ==> (a + b)[|a| + k] == b[k];
    if HasBreak(b) {
      var k :| 0 <= k < |b| && IsBreak(b[k]);
      assert IsBreak((a + b)[|a| + k]);
    }
    if HasBreak(a) {
      var k :| 0 <= k < |a| && IsBreak(a[k]);
      assert IsBreak((a + b)[k]);
    }
  }

  lemma NoBreakInPart(s: string, i: nat, j: nat)
    requires !HasBreak(s) && i <= j <= |s|
    ensures !HasBreak(s[i..j])
  {
  }

  /** The first line of a text that has no break before its last character. */
  lemma {:induction false} FirstLine(line: string, rest: string)
    requires !HasBreak(line)
    ensures Transcripts.Split(line + "\n" + rest) == [line + "\n"] + Transcripts.Split(rest)
  {
    var text := line + "\n" + rest;
    UnbrokenLength(line, rest);
    assert text[..|line| + 1] == line + "\n";
    assert text[|line| + 1..] == rest;
  }

  lemma {:induction false} UnbrokenLength(line: string, rest: string)
    requires !HasBreak(line)
    ensures Transcripts.LineLength(line + "\n" + rest) == |line| + 1
  {
    var text := line + "\n" + rest;
    if line == "" {
      assert text[0] == '\n';
    } else {
      assert !IsBreak(line[0]) && text[0] == line[0];
      NoBreakInPart(line, 1, |line|);
      assert line[1..|line|] == line[1..];
      assert text[1..] == line[1..] + "\n" + rest;
      UnbrokenLength(line[1..], rest);
    }
  }

  /** Where a text has a break, its first line ends at the first of them. */
  lemma {:induction false} BrokenLine(text: string) returns (n: nat)
    requires HasBreak(text)
    ensures n < |text| && !HasBreak(text[..n]) && IsBreak(text[n])
    ensures Transcripts.Split(text) != [] && Chop(Transcripts.Split(text)[0]) == text[..n]
  {
    n := 0;
    while !IsBreak(text[n])
      invariant n < |text| && !HasBreak(text[..n])
      invariant exists k :: n <= k < |text| && IsBreak(text[k])
      decreases |text| - n
    {
      n := n + 1;
    }
    BrokenLength(text, n);
    var line := text[..Transcripts.LineLength(text)];
    assert Transcripts.Split(text)[0] == line;
    ChopAt(text, n, Transcripts.LineLength(text));
  }

  lemma {:induction false} BrokenLength(text: string, n: nat)
    requires n < |text| && !HasBreak(text[..n]) && IsBreak(text[n])
    ensures Transcripts.LineLength(text)
         == n + if text[n] == '\r' && n + 1 < |text| && text[n + 1] == '\n' then 2 else 1
  {
    if n > 0 {
      assert text[..n][0] == text[0];
      assert text[1..][..n - 1] == text[..n][1..n];
      NoBreakInPart(text[..n], 1, n);
      BrokenLength(text[1..], n - 1);
    }
  }

  lemma ChopAt(text: string, n: nat, length: nat)
    requires n < |text| && !HasBreak(text[..n]) && IsBreak(text[n])
    requires length == n + if text[n] == '\r' && n + 1 < |text| && text[n + 1] == '\n' then 2 else 1
    ensures Chop(text[..length]) == text[..n]
  {
    if length == n + 1 {
      ChopOne(text[..n], text[n]);
      assert text[..n] + [text[n]] == text[..n + 1];
    } else {
      assert text[..n + 2] == text[..n] + "\r\n";
      ChopTwo(text[..n]);
    }
  }

  lemma ChopOne(line: string, c: char)
    requires !HasBreak(line) && IsBreak(c)
    ensures Chop(line + [c]) == line
  {
    var l := line + [c];
    assert l[|l| - 1] == c && l[..|l| - 1] == line;
    if |l| >= 2 {
      assert l[|l| - 2] == line[|line| - 1] && !IsBreak(line[|line| - 1]);
    }
  }

  lemma ChopTwo(line: string)
    ensures Chop(line + "\r\n") == line
  {
    var l := line + "\r\n";
    assert l[|l| - 2] == '\r' && l[|l| - 1] == '\n' && l[..|l| - 2] == line;
  }

  // ------------------------------------------------------------------- splitlines and join

  function Splitlines(text: string): (lines: seq<string>)
    ensures text != "" ==> lines != []
  {
    if text == "" then []
    else
      var n := Transcripts.LineLength(text);
      [Chop(text[..n])] + Splitlines(text[n..])
  }

  /** `"\n".join(lines)`. */
  function Join(lines: seq<string>): string {
    if lines == [] then ""
    else if |lines| == 1 then lines[0]
    else lines[0] + "\n" + Join(lines[1..])
  }

  /** Lines end with `\n` and with nothing else. */
  predicate OnlyNewlines(s: string) {
    forall k :: 0 <= k < |s| && IsBreak(s[k]) ==> s[k] == '\n'
  }

  lemma UnbrokenChop(line: string)
    requires !HasBreak(line)
    ensures Chop(line) == line
  {
  }

  lemma {:induction false} UnbrokenWhole(line: string)
    requires line != "" && !HasBreak(line)
    ensures Transcripts.LineLength(line) == |line|
  {
    assert !IsBreak(line[0]);
    if |line| > 1 {
      NoBreakInPart(line, 1, |line|);
      assert line[1..|line|] == line[1..];
      UnbrokenWhole(line[1..]);
    }
  }

  /**
   The first line, without its break, holds none, and is shorter than what was taken off for it unless
   nothing follows.
   */
  lemma FirstOfSplitlines(text: string, n: nat, first: string)
    requires text != "" && n == Transcripts.LineLength(text) && first == Chop(text[..n])
    ensures !HasBreak(first) && |first| <= n && (n < |text| ==> |first| < n)
  {
    if HasBreak(text) {
      var m := BrokenLine(text);
      assert Transcripts.Split(text)[0] == text[..n];
      BrokenLength(text, m);
    } else {
      UnbrokenWhole(text);
      assert text[..n] == text;
      UnbrokenChop(text);
    }
  }

  /** Whatever the breaks of a text, its lines joined again have only `\n`, and are no longer. */
  lemma {:induction false} JoinedLines(text: string, joined: string)
    requires joined == Join(Splitlines(text))
    ensures OnlyNewlines(joined) && |joined| <= |text|
    decreases |text|
  {
    if text != "" {
      var n := Transcripts.LineLength(text);
      FirstOfSplitlines(text, n, Chop(text[..n]));
      JoinedLines(text[n..], Join(Splitlines(text[n..])));
      OneLineMore(Chop(text[..n]), Splitlines(text[n..]));
    }
  }

  lemma OneLineMore(first: string, rest: seq<string>)
    requires !HasBreak(first) && OnlyNewlines(Join(rest))
    ensures OnlyNewlines(Join([first] + rest))
    ensures |Join([first] + rest)| == if rest == [] then |first| else |first| + 1 + |Join(rest)|
  {
    assert ([first] + rest)[1..] == rest;
    if rest != [] {
      var j := Join(rest);
      assert Join([first] + rest) == first + "\n" + j;
      forall k | 0 <= k < |first + "\n" + j| && IsBreak((first + "\n" + j)[k])
        ensures (first + "\n" + j)[k] == '\n'
      {
        if k > |first| {
          assert (first + "\n" + j)[k] == j[k - |first| - 1];
        }
      }
    }
  }

  lemma LinesByFirst(text: string, line: string, rest: string)
    requires !HasBreak(line) && text == line + "\n" + rest
    ensures Splitlines(text) == [line] + Splitlines(rest)
  {
    UnbrokenLength(line, rest);
    assert text[..|line| + 1] == line + ['\n'];
    assert text[|line| + 1..] == rest;
    ChopOne(line, '\n');
  }

  /** Text whose only breaks are `\n` is what its lines join to. */
  lemma {:induction false} JoinUndoes(text: string)
    requires OnlyNewlines(text)
    ensures Join(Splitlines(text + "\n")) == text
  {
    if HasBreak(text) {
      var n := BrokenLine(text);
      var a, b := text[..n], text[n + 1..];
      assert text == a + "\n" + b;
      assert forall k :: 0 <= k < |b| ==> b[k] == text[n + 1 + k];
      JoinUndoes(b);
      JoinWithFirst(a, b);
    } else {
      LinesByFirst(text + "\n", text, "");
    }
  }

  lemma JoinWithFirst(a: string, b: string)
    requires !HasBreak(a)
    ensures Join(Splitlines(a + "\n" + b + "\n")) == a + "\n" + Join(Splitlines(b + "\n"))
  {
    var rest := Splitlines(b + "\n");
    assert a + "\n" + b + "\n" == a + "\n" + (b + "\n");
    LinesByFirst(a + "\n" + b + "\n", a, b + "\n");
    assert ([a] + rest)[1..] == rest;
  }
}
