/**
 What the reader of `.env` files makes of one line, said of the characters on it (collectors/secrets.py).
 */
module DotEnvValues {
  import opened Results
  import opened Text
  import opened DotEnv

  predicate IsBlank(s: string) {
    forall k :: 0 <= k < |s| ==> IsSpace(s[k])
  }

  lemma {:induction false} LStripOf(blank: string, s: string)
    requires IsBlank(blank) && (s == "" || !IsSpace(s[0]))
    ensures LStrip(blank + s) == s
  {
    if blank == "" {
      assert blank + s == s;
    } else {
      assert (blank + s)[1..] == blank[1..] + s;
      LStripOf(blank[1..], s);
    }
  }

  lemma {:induction false} LStripLeaves(s: string) returns (blank: string)
    ensures IsBlank(blank) && s == blank + LStrip(s)
  {
    if s == "" || !IsSpace(s[0]) {
      blank := "";
    } else {
      var rest := LStripLeaves(s[1..]);
      blank := [s[0]] + rest;
      assert s == [s[0]] + s[1..];
    }
  }

  // ------------------------------------------------------------------- the value

  predicate IsQuoted(raw: string) {
    |raw| >= 2 && (raw[0] == '\'' || raw[0] == '"') && raw[|raw| - 1] == raw[0]
  }

  /** A remark begins at a `#` after white space. */
  predicate RemarkAt(s: string, k: int) {
    0 < k < |s| && s[k] == '#' && IsSpace(s[k - 1])
  }

  /** The text without the white space at its end. */
  predicate EndsTrimmed(v: string, s: string) {
    v <= s && IsBlank(s[|v|..]) && (v == "" || !IsSpace(v[|v| - 1]))
  }

  lemma {:induction false} RStripTrims(s: string)
    ensures EndsTrimmed(RStrip(s), s)
  {
    if s != "" && IsSpace(s[|s| - 1]) {
      RStripTrims(s[..|s| - 1]);
      var v := RStrip(s);
      assert forall k :: 0 <= k < |s| - |v| - 1 ==> s[|v|..][k] == s[..|s| - 1][|v|..][k];
    }
  }

  lemma {:induction false} CutsAtRemark(s: string, from: nat, cut: nat)
    requires from <= cut <= |s| && (cut == |s| || RemarkAt(s, cut))
    requires forall k :: from <= k < cut ==> !RemarkAt(s, k)
    ensures BeforeRemark(s, from) == s[..cut]
    decreases cut - from
  {
    if from < cut {
      assert !RemarkAt(s, from);
      CutsAtRemark(s, from + 1, cut);
    }
  }

  /** A quoted value is what the quotes hold; any other ends before its first remark and the white space there. */
  lemma ValueInWords(raw: string, cut: nat)
    requires cut <= |raw| && (cut == |raw| || RemarkAt(raw, cut))
    requires forall k :: 0 <= k < cut ==> !RemarkAt(raw, k)
    ensures IsQuoted(raw) ==> [raw[0]] + Unquoted(raw) + [raw[0]] == raw
    ensures !IsQuoted(raw) ==> EndsTrimmed(Unquoted(raw), raw[..cut])
  {
    CutsAtRemark(raw, 0, cut);
    RStripTrims(raw[..cut]);
  }

  // ------------------------------------------------------------------- the name

  ghost predicate IsAssignment(s: string, name: string, raw: string) {
    IsName(name) && exists gap :: IsBlank(gap) && s == name + gap + "=" + raw
  }

  /** An assignment is a name, white space if any, an equals sign, and anything. */
  lemma AssignmentInWords(s: string, name: string, raw: string)
    ensures Assignment(s) == Some((name, raw)) <==> IsAssignment(s, name, raw)
  {
    if Assignment(s) == Some((name, raw)) {
      IsWellFormed(s, name, raw);
    }
    if IsAssignment(s, name, raw) {
      var gap :| IsBlank(gap) && s == name + gap + "=" + raw;
      IsRead(s, name, gap, raw);
    }
  }

  lemma IsWellFormed(s: string, name: string, raw: string)
    requires Assignment(s) == Some((name, raw))
    ensures IsAssignment(s, name, raw)
  {
    var rest := s[NameLength(s)..];
    var gap := LStripLeaves(rest);
    assert LStrip(rest) == "=" + raw;
    NameStartsIt(s, name);
    Reassembled(s, name, gap, LStrip(rest), raw);
  }

  lemma NameStartsIt(s: string, name: string)
    requires s != "" && NameStart(s[0]) && name == s[..NameLength(s)]
    ensures IsName(name) && s == name + s[NameLength(s)..]
  {
  }

  lemma Reassembled(s: string, name: string, gap: string, rest: string, raw: string)
    requires s == name + (gap + rest) && rest == "=" + raw
    ensures s == name + gap + "=" + raw
  {
  }

  lemma IsRead(s: string, name: string, gap: string, raw: string)
    requires IsName(name) && IsBlank(gap) && s == name + gap + "=" + raw
    ensures Assignment(s) == Some((name, raw))
  {
    var rest := gap + ("=" + raw);
    assert s == name + rest && s[0] == name[0];
    assert gap != "" ==> rest[0] == gap[0];
    NameLengthOf(name, rest);
    assert s[..|name|] == name && s[|name|..] == rest;
    LStripOf(gap, "=" + raw);
    assert ("=" + raw)[1..] == raw;
  }

  // ------------------------------------------------------------------- the line

  /** An assignment after white space, or after `export` and more of it. */
  ghost predicate Plainly(line: string, name: string, raw: string) {
    exists blank, s :: IsBlank(blank) && line == blank + s && IsAssignment(s, name, raw)
  }

  ghost predicate Exported(line: string, name: string, raw: string) {
    exists blank, more, s ::
      IsBlank(blank) && IsBlank(more) && more != "" && line == blank + "export" + more + s
      && IsAssignment(s, name, raw)
  }

  lemma NameComesFirst(s: string, name: string, raw: string)
    requires IsAssignment(s, name, raw)
    ensures s != "" && NameStart(s[0])
  {
    var gap :| IsBlank(gap) && s == name + gap + "=" + raw;
    assert s[0] == name[0];
  }

  lemma PlainlyIff(line: string, name: string, raw: string)
    ensures Plainly(line, name, raw) <==> Assignment(LStrip(line)) == Some((name, raw))
  {
    AssignmentInWords(LStrip(line), name, raw);
    if Plainly(line, name, raw) {
      var blank, s :| IsBlank(blank) && line == blank + s && IsAssignment(s, name, raw);
      NameComesFirst(s, name, raw);
      LStripOf(blank, s);
    }
    var b := LStripLeaves(line);
  }

  /** What the reader finds after `export`. */
  function AfterExport(s: string): Option<(string, string)> {
    if "export" <= s && |s| > 6 && IsSpace(s[6]) then Assignment(LStrip(s[6..])) else None
  }

  lemma ExportedIff(line: string, name: string, raw: string)
    ensures Exported(line, name, raw) <==> AfterExport(LStrip(line)) == Some((name, raw))
  {
    var t := LStrip(line);
    if Exported(line, name, raw) {
      var blank, more, s :| IsBlank(blank) && IsBlank(more) && more != "" && line == blank + "export" + more + s
        && IsAssignment(s, name, raw);
      ExportIsSeen(line, blank, more, s, name, raw);
      AssignmentInWords(s, name, raw);
    }
    if AfterExport(t) == Some((name, raw)) {
      ExportIsThere(line, t, name, raw);
    }
  }

  lemma ExportIsThere(line: string, t: string, name: string, raw: string)
    requires t == LStrip(line) && AfterExport(t) == Some((name, raw))
    ensures Exported(line, name, raw)
  {
    var blank := LStripLeaves(line);
    var more := LStripLeaves(t[6..]);
    var s := LStrip(t[6..]);
    AssignmentInWords(s, name, raw);
    NameComesFirst(s, name, raw);
    assert IsSpace(t[6..][0]);
    assert t == "export" + t[6..];
    assert line == blank + "export" + more + s;
  }

  lemma ExportIsSeen(line: string, blank: string, more: string, s: string, name: string, raw: string)
    requires IsBlank(blank) && IsBlank(more) && more != "" && line == blank + "export" + more + s
    requires IsAssignment(s, name, raw)
    ensures var t := LStrip(line); "export" <= t && |t| > 6 && IsSpace(t[6]) && LStrip(t[6..]) == s
  {
    var t := "export" + more + s;
    assert line == blank + t;
    LStripOf(blank, t);
    assert t[6..] == more + s && t[6] == more[0];
    NameComesFirst(s, name, raw);
    LStripOf(more, s);
  }

  /** After `export` and white space, no assignment can be the plain one of a variable of that name. */
  lemma NotBoth(s: string)
    requires AfterExport(s).Some?
    ensures Assignment(s).None?
  {
    var a := AfterExport(s).value;
    AssignmentInWords(LStrip(s[6..]), a.0, a.1);
    NameComesFirst(LStrip(s[6..]), a.0, a.1);
    assert s == "export" + s[6..];
    NameLengthOf("export", s[6..]);
  }

  /** A line gives a variable its value exactly when it is an assignment, exported or not, that holds the value. */
  lemma LineInWords(line: string, name: string, value: string)
    ensures ParseLine(line) == Some((name, value)) <==>
      exists raw :: (Plainly(line, name, raw) || Exported(line, name, raw)) && value == Unquoted(Strip(raw))
  {
    var s := LStrip(line);
    forall raw
      ensures Plainly(line, name, raw) <==> Assignment(s) == Some((name, raw))
      ensures Exported(line, name, raw) <==> AfterExport(s) == Some((name, raw))
    {
      PlainlyIff(line, name, raw);
      ExportedIff(line, name, raw);
    }
    if AfterExport(s).Some? {
      NotBoth(s);
    }
    var a := if AfterExport(s).Some? then AfterExport(s) else Assignment(s);
    assert a.Some? && a.value.0 == name ==> Plainly(line, name, a.value.1) || Exported(line, name, a.value.1);
  }
}
