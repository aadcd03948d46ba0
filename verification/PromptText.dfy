/**
 The prompt file of a hand-written loop (collectors/loops.py): wrapping the author's instructions in
 the reporting contract, and recovering them for editing.
 */
module PromptText {
  import opened Text
  import opened LineBreaks

  /** Where the generated contract starts. */
  const MARKER: string := "## Report \U{2014} do this last"

  /** The file: a title, the instructions or a placeholder for them, the marker, and the generated contract. */
  function Scaffold(name: string, body: string, placeholder: string, contract: string): string {
    var text := if Strip(body) == "" then placeholder else Strip(body);
    "# " + name + "\n" + "\n" + text + "\n\n" + MARKER + contract
  }

  predicate At(s: string, m: string, k: int) {
    0 <= k && k + |m| <= |s| && s[k..k + |m|] == m
  }

  ghost predicate Contains(s: string, m: string) {
    exists k: nat :: At(s, m, k)
  }

  /** `s.split(m, 1)[0]`. */
  function BeforeMarker(s: string, m: string): string {
    if m <= s || s == "" then "" else [s[0]] + BeforeMarker(s[1..], m)
  }

  /** The instructions in a prompt file. */
  function PromptBody(raw: string): string {
    var lines := Splitlines(BeforeMarker(raw, MARKER));
    Strip(Join(if lines != [] && "# " <= lines[0] then lines[1..] else lines))
  }

  // ------------------------------------------------------------------- finding the marker

  /** What comes before the marker is the text up to its first occurrence. */
  lemma {:induction false} MarkerFound(s: string, m: string, k: nat)
    requires At(s, m, k) && m != "" && forall i :: 0 <= i < k ==> !At(s, m, i)
    ensures BeforeMarker(s, m) == s[..k]
  {
    if k == 0 {
      assert s[0..|m|] == s[..|m|];
    } else {
      assert !At(s, m, 0);
      forall i | 0 <= i < |s| ensures At(s[1..], m, i) == At(s, m, i + 1) {
        AtRest(s, m, i);
      }
      MarkerFound(s[1..], m, k - 1);
      assert s[..k] == [s[0]] + s[1..][..k - 1];
    }
  }

  lemma AtRest(s: string, m: string, i: nat)
    requires s != ""
    ensures At(s[1..], m, i) == At(s, m, i + 1)
  {
    if i + |m| <= |s| - 1 {
      assert s[1..][i..i + |m|] == s[i + 1..i + 1 + |m|];
    }
  }

  /** The first place where the marker stands. */
  lemma First(s: string, m: string, k: nat) returns (f: nat)
    requires At(s, m, k) && m != ""
    ensures f <= k && At(s, m, f) && BeforeMarker(s, m) == s[..f]
    ensures forall i :: 0 <= i < f ==> !At(s, m, i)
  {
    f := 0;
    while !At(s, m, f)
      invariant f <= k && forall i :: 0 <= i < f ==> !At(s, m, i)
      decreases k - f
    {
      f := f + 1;
    }
    MarkerFound(s, m, f);
  }

  /** What matters about a marker: it starts with two hashes and stays on one line. */
  predicate IsMarker(m: string) {
    |m| >= 2 && m[0] == '#' && m[1] == '#' && !HasBreak(m)
  }

  lemma MarkerIsMarker()
    ensures IsMarker(MARKER)
  {
    assert MARKER == "## Report " + "\U{2014} do this last";
    BreakOfMore("## Report ", "\U{2014} do this last");
  }

  /** The text around the instructions. */
  predicate Framed(t: string, name: string, text: string, m: string, contract: string) {
    t == "# " + name + "\n" + "\n" + text + "\n\n" + m + contract
  }

  predicate PlainName(name: string) {
    '#' !in name && !HasBreak(name)
  }

  lemma NotBeforeText(t: string, name: string, text: string, m: string, contract: string, i: nat)
    requires Framed(t, name, text, m, contract) && IsMarker(m) && PlainName(name) && i < |name| + 4
    ensures !At(t, m, i)
  {
    assert t[1] == ' ' && t[|name| + 2] == '\n' && t[|name| + 3] == '\n';
    assert forall k :: 0 <= k < |name| ==> t[k + 2] == name[k];
    if At(t, m, i) {
    }
  }

  lemma InText(t: string, name: string, text: string, m: string, contract: string, i: nat)
    requires Framed(t, name, text, m, contract) && IsMarker(m) && i < |text| + 2
    ensures At(t, m, |name| + 4 + i) <==> At(text, m, i)
  {
    var h := |name| + 4;
    assert t[h..] == text + "\n\n" + m + contract;
    assert t[h + |text|] == '\n' && t[h + |text| + 1] == '\n';
    assert h + i + |m| <= |t|;
    if i + |m| <= |text| {
      assert t[h + i..h + i + |m|] == text[i..i + |m|];
    }
  }

  // ------------------------------------------------------------------- recovering the instructions

  /** What the marker leaves is the title line and, below it, the whole text or less than it. */
  lemma CutAtMarker(t: string, name: string, text: string, m: string, contract: string) returns (x: string)
    requires Framed(t, name, text, m, contract) && IsMarker(m) && PlainName(name)
    ensures BeforeMarker(t, m) == "# " + name + "\n" + x
    ensures !Contains(text, m) ==> x == "\n" + text + "\n" + "\n"
    ensures Contains(text, m) ==> |x| < |text|
  {
    var h := |name| + 4;
    var end := h + |text| + 2;
    assert t[end..end + |m|] == m;
    var f := First(t, m, end);
    assert f >= h by {
      if f < h {
        NotBeforeText(t, name, text, m, contract, f);
      }
    }
    x := t[h - 1..f];
    assert t[..h - 1] == "# " + name + "\n";
    assert t[..f] == t[..h - 1] + x;
    if Contains(text, m) {
      var k: nat :| At(text, m, k);
      InText(t, name, text, m, contract, k);
      assert f <= h + k;
    } else {
      if f < end {
        InText(t, name, text, m, contract, f - h);
        assert false;
      }
      assert t[h - 1..end] == "\n" + text + "\n" + "\n";
    }
  }

  lemma BodyBelowTitle(name: string, x: string)
    requires !HasBreak(name)
    ensures var lines := Splitlines("# " + name + "\n" + x);
            lines != [] && "# " <= lines[0] && lines[1..] == Splitlines(x)
  {
    BreakOfMore("# ", name);
    LinesByFirst("# " + name + "\n" + x, "# " + name, x);
    assert ["# " + name] + Splitlines(x) == [("# " + name)] + Splitlines(x);
  }

  lemma {:induction false} LStripIsEnd(s: string)
    ensures |LStrip(s)| <= |s| && LStrip(s) == s[|s| - |LStrip(s)|..]
  {
    if s != "" && IsSpace(s[0]) {
      LStripIsEnd(s[1..]);
    }
  }

  lemma StripKeepsNewlines(s: string)
    requires OnlyNewlines(s)
    ensures OnlyNewlines(Strip(s)) && |Strip(s)| <= |s|
  {
    LStripIsEnd(s);
    var l := LStrip(s);
    assert forall k :: 0 <= k < |l| ==> l[k] == s[|s| - |l| + k];
    assert Strip(s) <= l;
  }

  /** Instructions of one's own are recovered, trimmed, exactly when they hold no marker and no line break but `\n`. */
  lemma BodyIsRecovered(name: string, body: string, placeholder: string, contract: string)
    requires PlainName(name) && Strip(body) != ""
    ensures PromptBody(Scaffold(name, body, placeholder, contract)) == Strip(body)
            <==> !Contains(Strip(body), MARKER) && OnlyNewlines(Strip(body))
  {
    var text := Strip(body);
    var t := Scaffold(name, body, placeholder, contract);
    MarkerIsMarker();
    StripIsTrimmed(body);
    var x := CutAtMarker(t, name, text, MARKER, contract);
    BodyBelowTitle(name, x);
    assert PromptBody(t) == Strip(Join(Splitlines(x)));
    JoinedLines(x, Join(Splitlines(x)));
    StripKeepsNewlines(Join(Splitlines(x)));
    if !Contains(text, MARKER) && OnlyNewlines(text) {
      CleanTextIsRecovered(text);
    }
  }

  lemma CleanTextIsRecovered(text: string)
    requires Trimmed(text) && text != "" && OnlyNewlines(text)
    ensures Strip(Join(Splitlines("\n" + text + "\n" + "\n"))) == text
  {
    var u := "\n" + text + "\n";
    assert forall k :: 0 <= k < |text| ==> u[k + 1] == text[k];
    JoinUndoes(u);
    StripAfterSpace(u);
    assert u[1..] == text + "\n";
    StripBeforeSpaces(text, "\n");
  }
}
