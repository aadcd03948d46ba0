/**
 The `.env` file Foreman writes, and the reader it scans such files with (collectors/secrets.py): for
 which values one undoes the other.
 */
module DotEnv {
  import opened Results
  import opened Text
  import opened LineBreaks
  import Transcripts

  // ------------------------------------------------------------------- the reader

  predicate NameStart(c: char) {
    'a' <= c <= 'z' || 'A' <= c <= 'Z' || c == '_'
  }

  predicate NamePart(c: char) {
    NameStart(c) || '0' <= c <= '9'
  }

  /** How many characters of a name come first. */
  function NameLength(s: string): (n: nat)
    ensures n <= |s|
    ensures forall k :: 0 <= k < n ==> NamePart(s[k])
    ensures n < |s| ==> !NamePart(s[n])
  {
    if s == "" || !NamePart(s[0]) then 0 else 1 + NameLength(s[1..])
  }

  /** A name, white space, an equals sign; and what follows it. */
  function Assignment(s: string): Option<(string, string)> {
    var n := NameLength(s);
    if s == "" || !NameStart(s[0]) then None
    else
      var rest := LStrip(s[n..]);
      if rest == "" || rest[0] != '=' then None else Some((s[..n], rest[1..]))
  }

  /** What stands before a remark: a `#` after white space. */
  function BeforeRemark(s: string, k: nat): string
    requires k <= |s|
    decreases |s| - k
  {
    if k == |s| then s
    else if s[k] == '#' && k > 0 && IsSpace(s[k - 1]) then s[..k]
    else BeforeRemark(s, k + 1)
  }

  /** The value that stands after the equals sign. */
  function Unquoted(raw: string): string {
    if |raw| >= 2 && (raw[0] == '\'' || raw[0] == '"') && raw[|raw| - 1] == raw[0] then raw[1..|raw| - 1]
    else RStrip(BeforeRemark(raw, 0))
  }

  function ParseLine(line: string): Option<(string, string)> {
    var s := LStrip(line);
    var exported := if "export" <= s && |s| > 6 && IsSpace(s[6]) then Assignment(LStrip(s[6..])) else None;
    var a := if exported.Some? then exported else Assignment(s);
    if a.None? then None else Some((a.value.0, Unquoted(Strip(a.value.1))))
  }

  /** The map with an assignment that takes precedence. */
  function Under(first: Option<(string, string)>, rest: map<string, string>): map<string, string> {
    if first.None? then rest else rest[first.value.0 := first.value.1]
  }

  /** What the lines say; of several assignments to a name the first counts. */
  function ParsedLines(lines: seq<string>): map<string, string> {
    if lines == [] then map[] else Under(ParseLine(Chop(lines[0])), ParsedLines(lines[1..]))
  }

  function Parsed(text: string): map<string, string> {
    ParsedLines(Transcripts.Split(text))
  }

  method ParseEnv(text: string) returns (out: map<string, string>)
    ensures out == Parsed(text)
  {
    out := map[];
    var lines := Transcripts.Split(text);
    ghost var all := ParsedLines(lines);
    for k := 0 to |lines|
      invariant ParsedLines(lines[k..]) + out == all
    {
      var m := ParseLine(Chop(lines[k]));
      ParsedByFirst(lines, k, m, out);
      if m.Some? && m.value.0 !in out {
        out := out[m.value.0 := m.value.1];
      }
    }
  }

  lemma ParsedByFirst(lines: seq<string>, k: nat, m: Option<(string, string)>, out: map<string, string>)
    requires k < |lines| && m == ParseLine(Chop(lines[k]))
    ensures ParsedLines(lines[k..]) + out ==
            ParsedLines(lines[k + 1..]) + if m.Some? && m.value.0 !in out then out[m.value.0 := m.value.1] else out
  {
    assert lines[k..][1..] == lines[k + 1..];
    Precedence(m, ParsedLines(lines[k + 1..]), out);
  }

  lemma Precedence(m: Option<(string, string)>, rest: map<string, string>, out: map<string, string>)
    ensures Under(m, rest) + out == rest + if m.Some? && m.value.0 !in out then out[m.value.0 := m.value.1] else out
  {
  }

  // ------------------------------------------------------------------- the writer

  /** Each quote closed, escaped and opened again. */
  function Escaped(value: string): string {
    if value == "" then ""
    else (if value[0] == '\'' then "'\\''" else [value[0]]) + Escaped(value[1..])
  }

  function DotenvLine(name: string, value: string): string {
    name + "=" + ("'" + Escaped(value) + "'") + "\n"
  }

  function Written(values: seq<(string, string)>): string {
    if values == [] then "" else DotenvLine(values[0].0, values[0].1) + Written(values[1..])
  }

  /** The file: a remark on the first line, then the entries. */
  function WriteEnv(remark: string, values: seq<(string, string)>): string {
    "#" + remark + "\n" + Written(values)
  }

  /** A shell variable's name. */
  predicate IsName(name: string) {
    name != "" && NameStart(name[0]) && forall k :: 0 <= k < |name| ==> NamePart(name[k])
  }

  predicate Names(values: seq<(string, string)>) {
    && (forall k :: 0 <= k < |values| ==> IsName(values[k].0))
    && (forall i, j :: 0 <= i < j < |values| ==> values[i].0 != values[j].0)
  }

  function MapOf(values: seq<(string, string)>): map<string, string> {
    if values == [] then map[] else MapOf(values[1..])[values[0].0 := values[0].1]
  }

  predicate Safe(value: string) {
    '\'' !in value && !HasBreak(value)
  }

  // ------------------------------------------------------------------- one line

  lemma {:induction false} EscapedIfQuoted(value: string)
    ensures |Escaped(value)| >= |value|
    ensures '\'' !in value ==> Escaped(value) == value
    ensures '\'' in value ==> |Escaped(value)| > |value|
  {
    if value != "" {
      EscapedIfQuoted(value[1..]);
      assert value == [value[0]] + value[1..];
    }
  }

  lemma {:induction false} EscapedKeepsBreaks(value: string)
    ensures HasBreak(Escaped(value)) <==> HasBreak(value)
  {
    if value != "" {
      EscapedKeepsBreaks(value[1..]);
      var first := if value[0] == '\'' then "'\\''" else [value[0]];
      assert Escaped(value) == first + Escaped(value[1..]);
      BreakOfMore(first, Escaped(value[1..]));
      BreakOfMore([value[0]], value[1..]);
      assert value == [value[0]] + value[1..];
      assert HasBreak(first) <==> IsBreak(value[0]) by {
        assert [value[0]][0] == value[0];
      }
      assert HasBreak([value[0]]) <==> IsBreak(value[0]) by {
        assert [value[0]][0] == value[0];
      }
    }
  }

  lemma {:induction false} NameLengthOf(name: string, rest: string)
    requires forall k :: 0 <= k < |name| ==> NamePart(name[k])
    requires rest == "" || !NamePart(rest[0])
    ensures NameLength(name + rest) == |name|
  {
    if name == "" {
      assert name + rest == rest;
    } else {
      assert (name + rest)[1..] == name[1..] + rest;
      NameLengthOf(name[1..], rest);
    }
  }

  /** An assignment is read as one, whatever stands after the equals sign. */
  lemma AssignmentIsRead(name: string, raw: string)
    requires IsName(name)
    ensures ParseLine(name + "=" + raw) == Some((name, Unquoted(Strip(raw))))
  {
    var line := name + "=" + raw;
    assert line == name + ("=" + raw);
    NameLengthOf(name, "=" + raw);
    assert line[0] == name[0] && LStrip(line) == line;
    assert line[..|name|] == name && line[|name|..] == "=" + raw;
    assert ("=" + raw)[1..] == raw;
    assert Assignment(line) == Some((name, raw));
    assert |line| > 6 && IsSpace(line[6]) ==> !("export" <= line) by {
      if |line| > 6 && IsSpace(line[6]) && "export" <= line {
        NoSpaceInAssignment(name, raw);
      }
    }
  }

  lemma NoSpaceInAssignment(name: string, raw: string)
    requires IsName(name)
    ensures var line := name + "=" + raw;
            "export" <= line && |line| > 6 ==> !IsSpace(line[6])
  {
    var line := name + "=" + raw;
    if "export" <= line && |line| > 6 {
      assert forall k :: 0 <= k < 6 ==> line[k] == "export"[k];
      assert line[|name|] == '=';
      assert |name| >= 6;
    }
  }

  lemma {:induction false} BeforeRemarkIsPrefix(s: string, k: nat)
    requires k <= |s|
    ensures BeforeRemark(s, k) <= s
    decreases |s| - k
  {
    if k < |s| {
      BeforeRemarkIsPrefix(s, k + 1);
    }
  }

  lemma {:induction false} NoBreakAfterStrip(s: string)
    requires !HasBreak(s)
    ensures !HasBreak(LStrip(s))
  {
    if s != "" && IsSpace(s[0]) {
      NoBreakInPart(s, 1, |s|);
      assert s[1..|s|] == s[1..];
      NoBreakAfterStrip(s[1..]);
    }
  }

  /** A value read off a line has no line break in it. */
  lemma NoBreakInValue(raw: string)
    requires !HasBreak(raw)
    ensures !HasBreak(Unquoted(Strip(raw)))
  {
    NoBreakAfterStrip(raw);
    var l := LStrip(raw);
    var r := Strip(raw);
    assert r == l[0..|r|];
    NoBreakInPart(l, 0, |r|);
    if |r| >= 2 {
      NoBreakInPart(r, 1, |r| - 1);
    }
    BeforeRemarkIsPrefix(r, 0);
    var b := BeforeRemark(r, 0);
    assert b == r[0..|b|];
    var c := RStrip(b);
    assert c == r[0..|c|];
    NoBreakInPart(r, 0, |c|);
  }

  // ------------------------------------------------------------------- the first line of what was written

  /** The first entry is read back, and what follows apart from it, if its value is safe. */
  lemma FirstIsRead(name: string, value: string, rest: string)
    requires IsName(name) && Safe(value)
    ensures Parsed(DotenvLine(name, value) + rest) == Parsed(rest)[name := value]
  {
    EscapedIfQuoted(value);
    var raw := "'" + value + "'";
    var line := name + "=" + raw;
    NoBreakInLine(name, value);
    assert DotenvLine(name, value) + rest == line + "\n" + rest;
    FirstLine(line, rest);
    var lines := Transcripts.Split(line + "\n" + rest);
    assert lines[1..] == Transcripts.Split(rest);
    ChopOne(line, '\n');
    AssignmentIsRead(name, raw);
    StripOfTrimmed(raw);
    assert raw[1..|raw| - 1] == value;
  }

  lemma NoBreakInLine(name: string, value: string)
    requires IsName(name)
    ensures HasBreak(name + "=" + ("'" + value + "'")) <==> HasBreak(value)
  {
    assert name + "=" + ("'" + value + "'") == (name + "='") + (value + "'");
    BreakOfMore(name + "='", value + "'");
    BreakOfMore(value, "'");
    BreakOfMore(name, "='");
  }

  /** Whatever else it reads, the reader gives the name a value that is not the one written, if that was not safe. */
  lemma FirstIsMisread(text: string, name: string, value: string, rest: string)
    requires IsName(name) && !Safe(value) && text == DotenvLine(name, value) + rest
    ensures Misread(Parsed(text), name, value)
  {
    var raw := "'" + Escaped(value) + "'";
    var line := name + "=" + raw;
    EscapedIfQuoted(value);
    EscapedKeepsBreaks(value);
    NoBreakInLine(name, Escaped(value));
    assert text == line + "\n" + rest;
    if HasBreak(value) {
      FirstIsCut(name, raw, rest, value);
    } else {
      FirstLine(line, rest);
      ChopOne(line, '\n');
      AssignmentIsRead(name, raw);
      StripOfTrimmed(raw);
      assert raw[1..|raw| - 1] == Escaped(value);
    }
  }

  lemma FirstIsCut(name: string, raw: string, rest: string, value: string)
    requires IsName(name) && HasBreak(name + "=" + raw) && HasBreak(value)
    ensures var m := Parsed(name + "=" + raw + "\n" + rest); name in m && m[name] != value
  {
    var text := name + "=" + raw + "\n" + rest;
    assert text == (name + "=" + raw) + ("\n" + rest);
    BreakOfMore(name + "=" + raw, "\n" + rest);
    var n := BrokenLine(text);
    assert text[n] != '=' && !NamePart(text[n]);
    assert forall k :: 0 <= k <= |name| ==> text[k] == (name + "=")[k];
    assert n > |name|;
    var cut := text[..n][|name| + 1..n];
    assert text[..n] == name + "=" + cut;
    AssignmentIsRead(name, cut);
    NoBreakInPart(text[..n], |name| + 1, n);
    NoBreakInValue(cut);
  }

  // ------------------------------------------------------------------- the whole file

  lemma {:induction false} SafeIsRead(values: seq<(string, string)>)
    requires Names(values) && forall k :: 0 <= k < |values| ==> Safe(values[k].1)
    ensures Parsed(Written(values)) == MapOf(values)
  {
    if values != [] {
      SafeIsRead(values[1..]);
      FirstIsRead(values[0].0, values[0].1, Written(values[1..]));
    }
  }

  ghost predicate Misread(m: map<string, string>, name: string, value: string) {
    name in m && m[name] != value
  }

  lemma {:induction false} UnsafeIsMisread(values: seq<(string, string)>) returns (k: nat)
    requires Names(values) && exists i :: 0 <= i < |values| && !Safe(values[i].1)
    ensures k < |values| && Misread(Parsed(Written(values)), values[k].0, values[k].1)
  {
    if Safe(values[0].1) {
      SomeUnsafeLater(values);
      var j := UnsafeIsMisread(values[1..]);
      k := j + 1;
      StillMisread(values, k);
    } else {
      k := 0;
      FirstIsMisread(Written(values), values[0].0, values[0].1, Written(values[1..]));
    }
  }

  lemma SomeUnsafeLater(values: seq<(string, string)>)
    requires Names(values) && values != [] && Safe(values[0].1) && exists i :: 0 <= i < |values| && !Safe(values[i].1)
    ensures Names(values[1..]) && exists i :: 0 <= i < |values[1..]| && !Safe(values[1..][i].1)
  {
    var i :| 0 <= i < |values| && !Safe(values[i].1);
    assert values[1..][i - 1] == values[i];
  }

  lemma StillMisread(values: seq<(string, string)>, k: nat)
    requires Names(values) && 0 < k < |values| && Safe(values[0].1)
    requires Misread(Parsed(Written(values[1..])), values[k].0, values[k].1)
    ensures Misread(Parsed(Written(values)), values[k].0, values[k].1)
  {
    FirstIsRead(values[0].0, values[0].1, Written(values[1..]));
  }

  lemma {:induction false} MapOfHolds(values: seq<(string, string)>, k: nat)
    requires Names(values) && k < |values|
    ensures values[k].0 in MapOf(values) && MapOf(values)[values[k].0] == values[k].1
  {
    if k > 0 {
      MapOfHolds(values[1..], k - 1);
      assert values[1..][k - 1] == values[k];
    }
  }

  /** The reader gets back the map that was written exactly when no value holds a quote or a line break. */
  lemma RoundTrip(remark: string, values: seq<(string, string)>)
    requires Names(values) && !HasBreak(remark)
    ensures Parsed(WriteEnv(remark, values)) == MapOf(values) <==> forall k :: 0 <= k < |values| ==> Safe(values[k].1)
  {
    RemarkSaysNothing(remark, Written(values));
    if forall k :: 0 <= k < |values| ==> Safe(values[k].1) {
      SafeIsRead(values);
    } else {
      var k := UnsafeIsMisread(values);
      MapOfHolds(values, k);
    }
  }

  lemma RemarkSaysNothing(remark: string, rest: string)
    requires !HasBreak(remark)
    ensures Parsed("#" + remark + "\n" + rest) == Parsed(rest)
  {
    var line := "#" + remark;
    BreakOfMore("#", remark);
    FirstLine(line, rest);
    ChopOne(line, '\n');
    RemarkIsNoAssignment(line);
    assert ([line + "\n"] + Transcripts.Split(rest))[1..] == Transcripts.Split(rest);
  }

  lemma RemarkIsNoAssignment(line: string)
    requires line != "" && line[0] == '#'
    ensures ParseLine(line).None?
  {
    assert LStrip(line) == line;
  }
}
