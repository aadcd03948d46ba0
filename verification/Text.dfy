/** Python's string methods, as far as the editors and printers use them, on ASCII text. */
module Text {

  /** What `str.strip` takes off: ASCII white space. */
  predicate IsSpace(c: char) {
    c in {' ', '\t', '\n', '\r', '\U{0B}', '\U{0C}', '\U{1C}', '\U{1D}', '\U{1E}', '\U{1F}'}
  }

  function LStrip(s: string): (r: string)
    ensures r == "" || !IsSpace(r[0])
    ensures |r| <= |s|
  {
    if s == "" || !IsSpace(s[0]) then s else LStrip(s[1..])
  }

  function RStrip(s: string): (r: string)
    ensures r == "" || !IsSpace(r[|r| - 1])
    ensures r <= s
  {
    if s == "" || !IsSpace(s[|s| - 1]) then s else RStrip(s[..|s| - 1])
  }

  function Strip(s: string): string {
    RStrip(LStrip(s))
  }

  /** No white space at either end. */
  predicate Trimmed(s: string) {
    s == "" || (!IsSpace(s[0]) && !IsSpace(s[|s| - 1]))
  }

  lemma StripOfTrimmed(s: string)
    requires Trimmed(s)
    ensures Strip(s) == s
  {
  }

  lemma StripIsTrimmed(s: string)
    ensures Trimmed(Strip(s))
  {
  }

  lemma StripAfterSpace(s: string)
    requires s != "" && IsSpace(s[0])
    ensures Strip(s) == Strip(s[1..])
  {
  }

  lemma {:induction false} StripBeforeSpaces(s: string, t: string)
    requires Trimmed(s) && forall k :: 0 <= k < |t| ==> IsSpace(t[k])
    ensures Strip(s + t) == s
  {
    if t == "" {
      assert s + t == s;
    } else {
      StripBeforeSpaces(s, t[..|t| - 1]);
      var u := s + t;
      assert u[..|u| - 1] == s + t[..|t| - 1];
      if s == "" {
        assert u == t;
        AllSpaces(t);
      }
    }
  }

  lemma {:induction false} AllSpaces(t: string)
    requires forall k :: 0 <= k < |t| ==> IsSpace(t[k])
    ensures LStrip(t) == ""
  {
    if t != "" {
      AllSpaces(t[1..]);
    }
  }

  /** The text before the first `c`, or all of it: `s.split(c)[0]`. */
  function Before(s: string, c: char): (r: string)
    ensures r <= s && c !in r
    ensures |r| < |s| ==> s[|r|] == c
  {
    if s == "" || s[0] == c then ""
    else
      var rest := Before(s[1..], c);
      assert forall k :: 0 < k < |rest| + 1 ==> ([s[0]] + rest)[k] == rest[k - 1];
      [s[0]] + rest
  }

  lemma BeforeOfFound(s: string, c: char, t: string)
    requires c !in s
    ensures Before(s + [c] + t, c) == s
    ensures Before(s, c) == s
  {
    var u := s + [c] + t;
    assert u[|s|] == c;
    assert forall k :: 0 <= k < |s| ==> u[k] == s[k];
  }

  // ------------------------------------------------------------------- split

  /** `s.split(sep)`. */
  function Split(s: string, sep: char): (parts: seq<string>)
    ensures parts != []
  {
    if s == "" then [""] else Led(s[0], sep, Split(s[1..], sep))
  }

  /** The parts of a text one character longer. */
  function Led(c: char, sep: char, parts: seq<string>): (r: seq<string>)
    requires parts != []
    ensures r != []
  {
    if c == sep then [""] + parts else [[c] + parts[0]] + parts[1..]
  }

  /** A separator cuts a text in two that are split apart. */
  lemma {:induction false} SplitAfterFirst(s: string, sep: char, t: string)
    requires sep !in s
    ensures Split(s + [sep] + t, sep) == [s] + Split(t, sep)
    ensures Split(s, sep) == [s]
  {
    var u := s + [sep] + t;
    if s == "" {
      assert u[1..] == t;
    } else {
      assert u[1..] == s[1..] + [sep] + t;
      SplitAfterFirst(s[1..], sep, t);
      assert [s[0]] + s[1..] == s;
    }
  }

  /** Split after its last separator a text begins as it did, whatever follows. */
  lemma {:induction false} SplitOfMore(a: string, b: string, sep: char)
    requires a == "" || a[|a| - 1] == sep
    ensures var n := |Split(a, sep)| - 1;
            (a != "" ==> n > 0) && Split(a, sep)[n] == "" && Split(a + b, sep) == Split(a, sep)[..n] + Split(b, sep)
  {
    if a == "" {
      assert a + b == b;
    } else {
      assert (a + b)[1..] == a[1..] + b;
      SplitOfMore(a[1..], b, sep);
      LedOfMore(a[0], sep, Split(a[1..], sep), Split(b, sep));
    }
  }

  lemma LedOfMore(c: char, sep: char, a: seq<string>, b: seq<string>)
    requires a != [] && b != [] && (c == sep || |a| > 1)
    ensures var n := |Led(c, sep, a)| - 1;
            && n > 0
            && Led(c, sep, a)[n] == a[|a| - 1]
            && Led(c, sep, a[..|a| - 1] + b) == Led(c, sep, a)[..n] + b
  {
  }

  lemma {:induction false} PartsHoldNoSeparator(s: string, sep: char)
    ensures forall k :: 0 <= k < |Split(s, sep)| ==> sep !in Split(s, sep)[k]
  {
    if s != "" {
      PartsHoldNoSeparator(s[1..], sep);
    }
  }
}
