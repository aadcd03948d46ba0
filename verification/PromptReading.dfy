/**
 What is read from a prompt file of any kind, one written by hand included (collectors/loops.py).
 */
module PromptReading {
  import opened Text
  import opened LineBreaks
  import opened PromptText

  /** Without a marker nothing is cut off. */
  lemma {:induction false} NothingIsCut(s: string, m: string)
    requires m != "" && !Contains(s, m)
    ensures BeforeMarker(s, m) == s
  {
    if s != "" {
      assert !At(s, m, 0);
      forall i: nat
        ensures !At(s[1..], m, i)
      {
        AtRest(s, m, i);
        assert !At(s, m, i + 1);
      }
      NothingIsCut(s[1..], m);
    }
  }

  lemma {:induction false} UnendedLines(x: string)
    requires OnlyNewlines(x) && x != "" && x[|x| - 1] != '\n'
    ensures Splitlines(x) == Splitlines(x + "\n")
    decreases |x|
  {
    if HasBreak(x) {
      var a, b := FirstApart(x);
      UnendedLines(b);
      FirstThenMore(x, a, b);
    } else {
      LastLine(x);
    }
  }

  lemma FirstApart(x: string) returns (a: string, b: string)
    requires OnlyNewlines(x) && HasBreak(x)
    ensures x == a + "\n" + b && !HasBreak(a) && OnlyNewlines(b)
    ensures x[|x| - 1] != '\n' ==> b != "" && b[|b| - 1] == x[|x| - 1]
  {
    var n := BrokenLine(x);
    assert x[n] == '\n';
    a, b := x[..n], x[n + 1..];
    assert forall k :: 0 <= k < |b| ==> b[k] == x[n + 1 + k];
  }

  lemma FirstThenMore(x: string, a: string, b: string)
    requires x == a + "\n" + b && !HasBreak(a) && Splitlines(b) == Splitlines(b + "\n")
    ensures Splitlines(x) == Splitlines(x + "\n")
  {
    LinesByFirst(x, a, b);
    LinesByFirst(x + "\n", a, b + "\n");
  }

  lemma LastLine(x: string)
    requires x != "" && !HasBreak(x)
    ensures Splitlines(x) == [x] && Splitlines(x + "\n") == [x]
  {
    UnbrokenWhole(x);
    assert x[..|x|] == x && x[|x|..] == "";
    UnbrokenChop(x);
    LinesByFirst(x + "\n", x, "");
  }

  lemma {:induction false} StripDropsLast(s: string, c: char)
    requires IsSpace(c)
    ensures Strip(s + [c]) == Strip(s)
  {
    var t := s + [c];
    if s == "" {
      assert t[1..] == "";
    } else if IsSpace(s[0]) {
      assert t[1..] == s[1..] + [c];
      StripDropsLast(s[1..], c);
    } else {
      assert t[..|t| - 1] == s;
    }
  }

  /** Joining the lines of a text keeps all but white space around it. */
  lemma JoinKeeps(x: string)
    requires OnlyNewlines(x)
    ensures Strip(Join(Splitlines(x))) == Strip(x)
  {
    if x != "" && x[|x| - 1] == '\n' {
      var y := x[..|x| - 1];
      assert x == y + ['\n'];
      JoinUndoes(y);
      StripDropsLast(y, '\n');
    } else if x != "" {
      UnendedLines(x);
      JoinUndoes(x);
    }
  }

  /** The first line begins as the text does. */
  lemma TitleComesFirst(x: string)
    requires OnlyNewlines(x) && x != ""
    ensures "# " <= Splitlines(x)[0] <==> "# " <= x
  {
    if HasBreak(x) {
      var a, rest := FirstApart(x);
      LinesByFirst(x, a, rest);
      assert x[|a|] == '\n';
      assert "# " <= x ==> |a| >= 2;
    } else {
      LastLine(x);
    }
  }

  lemma UntitledBody(raw: string, x: string)
    requires x == BeforeMarker(raw, MARKER) && OnlyNewlines(x) && !("# " <= x)
    ensures PromptBody(raw) == Strip(x)
  {
    JoinKeeps(x);
    if x != "" {
      TitleComesFirst(x);
    }
  }

  lemma TitledBody(raw: string, x: string, title: string, rest: string)
    requires x == BeforeMarker(raw, MARKER) && OnlyNewlines(x) && x == "# " + title + "\n" + rest && !HasBreak(title)
    ensures PromptBody(raw) == Strip(rest)
  {
    BodyBelowTitle(title, rest);
    assert forall k :: 0 <= k < |rest| ==> rest[k] == x[|title| + 3 + k];
    JoinKeeps(rest);
  }

  /** Of what stands before the marker the first line goes if it is a title, and the rest is kept, trimmed. */
  lemma BodyInWords(raw: string, x: string, title: string, rest: string)
    requires x == BeforeMarker(raw, MARKER) && OnlyNewlines(x)
    ensures !("# " <= x) ==> PromptBody(raw) == Strip(x)
    ensures x == "# " + title + "\n" + rest && !HasBreak(title) ==> PromptBody(raw) == Strip(rest)
  {
    if !("# " <= x) {
      UntitledBody(raw, x);
    } else if x == "# " + title + "\n" + rest && !HasBreak(title) {
      TitledBody(raw, x, title, rest);
    }
  }
}
