/**
 An override for a loop named `slug`: its line reads as the start of a project (collectors/scheduler.py).
 */
module RegistrySlugs {
  import opened Results
  import opened Text
  import opened RegistryEdit

  /** What a set leaves that is followed by a removal of the same key, when the new entry is read as a project. */
  ghost predicate SlugPut(lines: seq<Line>, mid: seq<Line>, after: seq<Line>, project: string, put: Edit, undo: Edit,
                          s: nat, e: nat, place: Place, t: nat, g: nat, q: Place) {
    && Edited(lines, mid, project, put, s, e, place) && !put.remove
    && IsPrinted(put.header, lines[s].indent + 2, put.block) && put.entry.slug.Some?
    && IsHeader(put.header, put.block, lines[s].indent + 2)
    && undo.remove && undo.block == put.block && undo.key == put.key && Edited(mid, after, project, undo, t, g, q)
  }

  lemma SlugInNewBlock(lines: seq<Line>, mid: seq<Line>, after: seq<Line>, project: string, put: Edit, undo: Edit,
                       s: nat, e: nat, t: nat, g: nat, q: Place)
    requires SlugPut(lines, mid, after, project, put, undo, s, e, NoBlock, t, g, q)
    ensures after == mid && mid != lines
  {
    PutInAt(lines, s + 1, [put.header, put.entry], mid);
    assert mid[s + 1] == put.header && mid[s + 2] == put.entry;
    assert IsSpan(mid, project, s, s + 2);
    SpanIsUnique(mid, project, s, s + 2, t, g);
  }

  lemma SpanEndsAtEntry(lines: seq<Line>, mid: seq<Line>, project: string, s: nat, e: nat, k: nat, entry: Line)
    requires IsSpan(lines, project, s, e) && s < k <= e && PutIn(lines, k, [entry], mid) && entry.slug.Some?
    ensures IsSpan(mid, project, s, k) && |mid| > |lines| && forall i :: 0 <= i < k ==> mid[i] == lines[i]
  {
    PutInAt(lines, k, [entry], mid);
    assert mid[k] == entry;
  }

  lemma SlugInOldBlock(lines: seq<Line>, mid: seq<Line>, after: seq<Line>, project: string, put: Edit, undo: Edit,
                       s: nat, e: nat, place: Place, t: nat, g: nat, q: Place)
    requires SlugPut(lines, mid, after, project, put, undo, s, e, place, t, g, q) && place.Block? && place.entry.None?
    ensures after == mid && mid != lines
  {
    SpanEndsAtEntry(lines, mid, project, s, e, place.end, put.entry);
    SpanIsUnique(mid, project, s, place.end, t, g);
    SlugHidesEntry(lines, mid, s, e, t, g, put, place, q);
  }

  lemma SlugHidesEntry(lines: seq<Line>, mid: seq<Line>, s: nat, e: nat, t: nat, g: nat, put: Edit, place: Place,
                       q: Place)
    requires s < e <= |lines| && place.Block? && place.entry.None? && s < place.end <= |mid|
    requires IsPlace(lines, s, e, lines[s].indent + 2, put.block, put.key, place)
    requires t == s && g == place.end && forall i :: 0 <= i < place.end ==> mid[i] == lines[i]
    requires IsPlace(mid, t, g, mid[t].indent + 2, put.block, put.key, q)
    ensures q.NoBlock? || q.entry.None?
  {
    NoEntryBefore(lines, mid, s, e, lines[s].indent + 2, put.block, put.key, place, q);
  }

  /** Up to where an entry was put in there is none with its key. */
  lemma NoEntryBefore(lines: seq<Line>, mid: seq<Line>, s: nat, e: nat, indent: nat, block: string, key: string,
                      place: Place, q: Place)
    requires e <= |lines| && IsPlace(lines, s, e, indent, block, key, place) && place.Block? && place.entry.None?
    requires place.end <= |mid| && forall i :: 0 <= i < place.end ==> mid[i] == lines[i]
    requires IsPlace(mid, s, place.end, indent, block, key, q)
    ensures q.NoBlock? || q.entry.None?
  {
    assert IsHeader(mid[place.block], block, indent);
  }

  /**
   A loop named `slug` is taken for a project: once newly set, in a new block or an old one, its override is
   not found again, and cannot be removed.
   */
  lemma SlugCannotBeRemoved(lines: seq<Line>, mid: seq<Line>, after: seq<Line>, project: string, put: Edit, undo: Edit,
                            s: nat, e: nat, place: Place, t: nat, g: nat, q: Place)
    requires SlugPut(lines, mid, after, project, put, undo, s, e, place, t, g, q)
    requires place.NoBlock? || place.entry.None?
    ensures after == mid && mid != lines
  {
    if place.NoBlock? {
      SlugInNewBlock(lines, mid, after, project, put, undo, s, e, t, g, q);
    } else {
      SlugInOldBlock(lines, mid, after, project, put, undo, s, e, place, t, g, q);
    }
  }

  lemma SlugIsRead(indent: nat, value: string)
    ensures Entry(indent, "slug", value).slug.Some?
  {
    var text := "slug" + ":" + " " + value;
    assert DropDashes(text) == text;
    var cut := Before(text, '#');
    assert |cut| > 4 && cut[4] == ':' && cut[0] == 's';
    assert LStrip(cut) == cut;
    NotAllSpace(cut, 4);
    assert forall k :: 0 <= k < 5 ==> Strip(cut)[k] == "slug:"[k];
  }

  /** A plain project line is read as the start of that project, whatever remark follows the name. */
  lemma PlainSlugIsRead(name: string, remark: string)
    requires Trimmed(name) && '#' !in name
    ensures SlugOf("- slug: " + name + " #" + remark) == Some(name)
    ensures SlugOf("- slug: " + name) == Some(name)
  {
    SlugAfterDash(name, "");
    SlugAfterDash(name, " #" + remark);
    assert "- slug: " + name + "" == "- slug: " + name;
    assert "- slug: " + name + (" #" + remark) == "- slug: " + name + " #" + remark;
  }

  lemma SlugAfterDash(name: string, rest: string)
    requires Trimmed(name) && '#' !in name && (rest == "" || (|rest| > 1 && rest[0] == ' ' && rest[1] == '#'))
    ensures SlugOf("- slug: " + name + rest) == Some(name)
  {
    var text, body := "- slug: " + name + rest, "slug: " + name;
    var tail := " " + body;
    assert text == "-" + (tail + rest);
    DashDropped(tail + rest);
    CutAtRemark(tail, rest);
    StripOfTail(body, rest);
    SlugBody(name);
    SlugFrom(text, tail + rest, if rest == "" then tail else tail + " ", Strip(body), name);
  }

  lemma SlugFrom(text: string, dashed: string, cut: string, body: string, name: string)
    requires dashed == DropDashes(text) && cut == Before(dashed, '#') && body == Strip(cut)
    requires "slug:" <= body && Strip(body[5..]) == name
    ensures SlugOf(text) == Some(name)
  {
  }

  lemma DashDropped(t: string)
    requires t != "" && t[0] == ' '
    ensures DropDashes("-" + t) == t
  {
    assert ("-" + t)[1..] == t;
  }

  lemma StripOfTail(body: string, rest: string)
    ensures Strip(if rest == "" then " " + body else " " + body + " ") == Strip(body)
  {
    StripTrailingSpace(" " + body);
    StripAfterSpace(" " + body);
    assert (" " + body)[1..] == body;
  }

  lemma CutAtRemark(tail: string, rest: string)
    requires '#' !in tail && (rest == "" || (|rest| > 1 && rest[0] == ' ' && rest[1] == '#'))
    ensures Before(tail + rest, '#') == if rest == "" then tail else tail + " "
  {
    if rest == "" {
      assert tail + rest == tail;
      BeforeOfFound(tail, '#', "");
    } else {
      assert tail + rest == (tail + " ") + ['#'] + rest[2..];
      BeforeOfFound(tail + " ", '#', rest[2..]);
    }
  }

  lemma StripTrailingSpace(s: string)
    ensures Strip(s + " ") == Strip(s)
  {
    LStripMore(s);
  }

  lemma {:induction false} LStripMore(s: string)
    ensures RStrip(LStrip(s + " ")) == RStrip(LStrip(s))
  {
    if s != "" && IsSpace(s[0]) {
      assert (s + " ")[1..] == s[1..] + " ";
      LStripMore(s[1..]);
    } else if s != "" {
      assert (s + " ")[..|s|] == s;
    } else {
      assert s + " " == " " && " "[1..] == "";
    }
  }

  lemma SlugBody(name: string)
    requires Trimmed(name)
    ensures var body := Strip("slug: " + name); "slug:" <= body && Strip(body[5..]) == name
  {
    var body := "slug: " + name;
    assert LStrip(body) == body;
    if name == "" {
      assert body[..5] == "slug:" && body == "slug:" + " ";
      assert RStrip(body) == "slug:" by {
        assert body[..|body| - 1] == "slug:";
      }
      assert "slug:"[5..] == "";
    } else {
      assert RStrip(body) == body;
      assert body[5..] == " " + name;
      StripAfterSpace(" " + name);
      assert (" " + name)[1..] == name;
      StripOfTrimmed(name);
    }
  }
}
