/**
 Editing one project's overrides in the text of `registry.yaml` (collectors/scheduler.py): where an
 entry is found, what a change does to the lines, and when a change can be taken back.
 */
module RegistryEdit {
  import opened Results
  import opened Text

  /**
   One line of the file: its leading spaces and the rest, without the line break that ends it; and what
   the editor reads off it.  `Read` makes a line.
   */
  datatype Line = Line(indent: nat, text: string, slug: Option<string>, blank: bool, key: string)

  function Read(indent: nat, text: string): Line {
    Line(indent, text, SlugOf(text), Strip(text) == "", Strip(Before(text, ':')))
  }

  function DropDashes(s: string): string {
    if s != "" && s[0] == '-' then DropDashes(s[1..]) else s
  }

  /** The project a line starts the block of: `- slug: name  # remark`. */
  function SlugOf(text: string): Option<string> {
    var body := Strip(Before(DropDashes(text), '#'));
    if "slug:" <= body then Some(Strip(body[5..])) else None
  }

  /** What stands after the first colon. */
  function ValueOf(line: Line): string {
    var key := Before(line.text, ':');
    if |key| < |line.text| then Strip(line.text[|key| + 1..]) else ""
  }

  function Header(indent: nat, block: string): Line {
    Read(indent, block + ":")
  }

  function Entry(indent: nat, key: string, value: string): Line {
    Read(indent, key + ":" + " " + value)
  }

  // ------------------------------------------------------------------- where things are

  /** Lines from `s` up to `e` are the first block of the project. */
  ghost predicate IsSpan(lines: seq<Line>, project: string, s: nat, e: nat) {
    && s < e <= |lines|
    && lines[s].slug == Some(project)
    && (forall i :: 0 <= i < s ==> lines[i].slug != Some(project))
    && (forall i :: s < i < e ==> lines[i].slug.None?)
    && (e < |lines| ==> lines[e].slug.Some?)
  }

  ghost predicate Unknown(lines: seq<Line>, project: string) {
    forall i :: 0 <= i < |lines| ==> lines[i].slug != Some(project)
  }

  method ProjectSpan(lines: seq<Line>, project: string) returns (r: Result<(nat, nat)>)
    ensures r.Success? ==> IsSpan(lines, project, r.value.0, r.value.1)
    ensures r.Failure? <==> Unknown(lines, project)
    ensures r.Failure? ==> r.error == ValueError
  {
    var start: Option<nat> := None;
    for i := 0 to |lines|
      invariant start.None? ==> forall k :: 0 <= k < i ==> lines[k].slug != Some(project)
      invariant start.Some? ==>
        && start.value < i && lines[start.value].slug == Some(project)
        && (forall k :: 0 <= k < start.value ==> lines[k].slug != Some(project))
        && (forall k :: start.value < k < i ==> lines[k].slug.None?)
    {
      var slug := lines[i].slug;
      if slug.Some? {
        if start.None? && slug.value == project {
          start := Some(i);
        } else if start.Some? {
          return Success((start.value, i));
        }
      }
    }
    r := if start.None? then Failure(ValueError) else Success((start.value, |lines|));
  }

  predicate IsHeader(line: Line, block: string, indent: nat) {
    !line.blank && line.indent == indent && block + ":" <= line.text
  }

  /** The line ends a block of the given indentation. */
  predicate Closes(line: Line, indent: nat) {
    !line.blank && line.indent <= indent
  }

  /** The line counts as an entry of such a block. */
  predicate IsItem(line: Line, indent: nat) {
    !line.blank && line.indent == indent + 2
  }

  /**
   Where the override is, or would go: `block` the header, `end` the end of the block, `entry` the entry, and
   whether it is the only one.
   */
  datatype Place = NoBlock | Block(block: nat, end: nat, entry: Option<nat>, alone: bool)

  ghost predicate IsBlock(lines: seq<Line>, s: nat, e: nat, block: string, indent: nat, b: nat)
    requires e <= |lines|
  {
    && s < b < e
    && IsHeader(lines[b], block, indent)
    && forall i :: s < i < b ==> !IsHeader(lines[i], block, indent)
  }

  /** The first closing line after `b`, or `e`. */
  ghost predicate IsBlockEnd(lines: seq<Line>, b: nat, e: nat, indent: nat, f: nat)
    requires e <= |lines|
  {
    && b < f <= e
    && (forall i :: b < i < f ==> !Closes(lines[i], indent))
    && (f < e ==> Closes(lines[f], indent))
  }

  ghost predicate IsEntry(lines: seq<Line>, b: nat, f: nat, indent: nat, key: string, entry: Option<nat>)
    requires f <= |lines|
  {
    if entry.None? then forall i :: b < i < f && IsItem(lines[i], indent) ==> lines[i].key != key
    else
      && b < entry.value < f && IsItem(lines[entry.value], indent) && lines[entry.value].key == key
      && forall i :: entry.value < i < f && IsItem(lines[i], indent) ==> lines[i].key != key
  }

  ghost predicate NoItem(lines: seq<Line>, b: nat, f: nat, indent: nat)
    requires f <= |lines|
  {
    forall i :: b < i < f ==> !IsItem(lines[i], indent)
  }

  ghost predicate OneItem(lines: seq<Line>, b: nat, f: nat, indent: nat)
    requires f <= |lines|
  {
    forall i, j :: b < i < f && b < j < f && IsItem(lines[i], indent) && IsItem(lines[j], indent) ==> i == j
  }

  ghost predicate IsPlace(lines: seq<Line>, s: nat, e: nat, indent: nat, block: string, key: string, place: Place)
    requires e <= |lines|
  {
    match place
    case NoBlock => forall i :: s < i < e ==> !IsHeader(lines[i], block, indent)
    case Block(b, f, entry, alone) =>
      && IsBlock(lines, s, e, block, indent, b)
      && IsBlockEnd(lines, b, e, indent, f)
      && IsEntry(lines, b, f, indent, key, entry)
      && (alone <==> OneItem(lines, b, f, indent))
  }

  method Locate(lines: seq<Line>, s: nat, e: nat, indent: nat, block: string, key: string) returns (place: Place)
    requires s < e <= |lines|
    ensures IsPlace(lines, s, e, indent, block, key, place)
    ensures place.Block? ==>
      && !lines[place.block].blank && lines[place.block].indent == indent && block + ":" <= lines[place.block].text
      && (forall i :: place.block < i < place.end ==> lines[i].blank || lines[i].indent > indent)
      && (place.end < e ==> !lines[place.end].blank && lines[place.end].indent <= indent)
    ensures place.Block? && place.entry.Some? ==>
      var entry := lines[place.entry.value];
      !entry.blank && entry.indent == indent + 2 && entry.key == key
    ensures place.Block? && place.entry.None? ==>
      forall i :: place.block < i < place.end && !lines[i].blank && lines[i].indent == indent + 2 ==>
        lines[i].key != key
    ensures place.Block? ==>
      (place.alone <==> forall i, j :: place.block < i < j < place.end && !lines[i].blank && !lines[j].blank ==>
                          lines[i].indent != indent + 2 || lines[j].indent != indent + 2)
  {
    var b := s + 1;
    while b < e && !IsHeader(lines[b], block, indent)
      invariant s < b <= e
      invariant forall i :: s < i < b ==> !IsHeader(lines[i], block, indent)
    {
      b := b + 1;
    }
    if b == e {
      return NoBlock;
    }
    var entry, alone, f := ScanBlock(lines, b, e, indent, key);
    place := Block(b, f, entry, alone);
  }

  method ScanBlock(lines: seq<Line>, b: nat, e: nat, indent: nat, key: string)
      returns (entry: Option<nat>, alone: bool, f: nat)
    requires b < e <= |lines|
    ensures IsBlockEnd(lines, b, e, indent, f)
    ensures IsEntry(lines, b, f, indent, key, entry)
    ensures alone <==> OneItem(lines, b, f, indent)
  {
    var items := 0;
    entry, f := None, b + 1;
    while f < e && !Closes(lines[f], indent)
      invariant b < f <= e
      invariant forall i :: b < i < f ==> !Closes(lines[i], indent)
      invariant IsEntry(lines, b, f, indent, key, entry)
      invariant items >= 0 && (items == 0 <==> NoItem(lines, b, f, indent))
      invariant items <= 1 <==> OneItem(lines, b, f, indent)
    {
      OneLineMore(lines, b, f, indent, key, entry);
      if IsItem(lines[f], indent) {
        items := items + 1;
        if lines[f].key == key {
          entry := Some(f);
        }
      }
      f := f + 1;
    }
    alone := items <= 1;
  }

  lemma OneLineMore(lines: seq<Line>, b: nat, f: nat, indent: nat, key: string, entry: Option<nat>)
    requires b < f < |lines| && IsEntry(lines, b, f, indent, key, entry)
    ensures var found := IsItem(lines[f], indent) && lines[f].key == key;
            IsEntry(lines, b, f + 1, indent, key, if found then Some(f) else entry)
    ensures NoItem(lines, b, f + 1, indent) <==> NoItem(lines, b, f, indent) && !IsItem(lines[f], indent)
    ensures OneItem(lines, b, f + 1, indent) <==>
            if IsItem(lines[f], indent) then NoItem(lines, b, f, indent) else OneItem(lines, b, f, indent)
  {
    if OneItem(lines, b, f + 1, indent) && IsItem(lines[f], indent) {
      assert NoItem(lines, b, f, indent);
    }
  }

  // ------------------------------------------------------------------- the change

  function Without(lines: seq<Line>, k: nat): seq<Line>
    requires k < |lines|
  {
    lines[..k] + lines[k + 1..]
  }

  function Removed(lines: seq<Line>, place: Place): seq<Line>
    requires place.Block? && place.entry.Some? ==> place.block < place.entry.value < |lines|
  {
    if place.NoBlock? || place.entry.None? then lines
    else
      var rest := Without(lines, place.entry.value);
      if place.alone then Without(rest, place.block) else rest
  }

  function Put(lines: seq<Line>, s: nat, header: Line, entry: Line, place: Place): seq<Line>
    requires s < |lines|
    requires place.Block? ==> place.end <= |lines| && (place.entry.Some? ==> place.entry.value < |lines|)
  {
    if place.NoBlock? then lines[..s + 1] + [header, entry] + lines[s + 1..]
    else if place.entry.Some? then lines[place.entry.value := entry]
    else lines[..place.end] + [entry] + lines[place.end..]
  }

  /** What one call is to do: the override it is about, and the lines it would print for it. */
  datatype Edit = Edit(block: string, key: string, header: Line, entry: Line, remove: bool)

  function EditFor(indent: nat, block: string, key: string, value: string, remove: bool): Edit {
    Edit(block, key, Header(indent, block), Entry(indent + 2, key, value), remove)
  }

  /** The lines `after` are what one call makes of the project's block at `s`. */
  ghost predicate Edited(lines: seq<Line>, after: seq<Line>, project: string, edit: Edit, s: nat, e: nat,
                         place: Place) {
    && IsSpan(lines, project, s, e)
    && IsPlace(lines, s, e, lines[s].indent + 2, edit.block, edit.key, place)
    && after == if edit.remove then Removed(lines, place) else Put(lines, s, edit.header, edit.entry, place)
  }

  // ------------------------------------------------------------------- printed lines read back

  /** A name that stands for itself in the file; `slug` would start a project. */
  predicate PlainName(name: string) {
    name != "" && Trimmed(name) && ':' !in name && '#' !in name && name[0] != '-' && name != "slug"
  }

  lemma PrintedName(name: string, rest: string)
    requires name != "" && Trimmed(name) && ':' !in name && '#' !in name && name[0] != '-'
    ensures var line := Read(0, name + ":" + rest);
            !line.blank && line.key == name && (line.slug.Some? ==> name == "slug")
  {
    var text := name + ":" + rest;
    BeforeOfFound(name, ':', rest);
    assert Strip(text) != "" by {
      assert text[0] == name[0];
      assert LStrip(text) == text;
      NotAllSpace(text, 0);
    }
    StripOfTrimmed(name);
    assert DropDashes(text) == text;
    NamePrefixStays(name, rest);
  }

  /** Text with a character in it that is no white space does not strip to nothing. */
  lemma {:induction false} NotAllSpace(s: string, k: nat)
    requires k < |s| && !IsSpace(s[k])
    ensures |RStrip(s)| > k
  {
    if k < |s| - 1 && IsSpace(s[|s| - 1]) {
      NotAllSpace(s[..|s| - 1], k);
    }
  }

  lemma NamePrefixStays(name: string, rest: string)
    requires name != "" && Trimmed(name) && ':' !in name && '#' !in name
    ensures "slug:" <= Strip(Before(name + ":" + rest, '#')) ==> name == "slug"
  {
    var text := name + ":" + rest;
    var cut := Before(text, '#');
    assert |cut| > |name| by {
      if |cut| <= |name| {
      }
    }
    assert cut[0] == name[0] && cut[|name|] == ':';
    assert LStrip(cut) == cut;
    NotAllSpace(cut, |name|);
    var body := Strip(cut);
    assert forall k :: 0 <= k <= |name| ==> body[k] == (name + ":")[k];
    if "slug:" <= body {
      assert body[4] == ':' && forall k :: 0 <= k < 4 ==> body[k] == "slug"[k];
      assert |name| >= 4 by {
        if |name| < 4 {
        }
      }
      assert |name| == 4;
      assert name == "slug";
    }
  }

  /** What the lemmas need of a printed line. */
  ghost predicate IsPrinted(line: Line, indent: nat, key: string) {
    line.indent == indent && !line.blank && line.key == key && line.slug.None?
  }

  lemma EntryIsPrinted(indent: nat, key: string, value: string)
    requires PlainName(key)
    ensures IsPrinted(Entry(indent, key, value), indent, key)
  {
    PrintedName(key, " " + value);
    assert key + ":" + (" " + value) == key + ":" + " " + value;
  }

  lemma HeaderIsPrinted(indent: nat, block: string)
    requires PlainName(block)
    ensures IsPrinted(Header(indent, block), indent, block) && IsHeader(Header(indent, block), block, indent)
  {
    PrintedName(block, "");
    assert block + ":" + "" == block + ":";
  }

  ghost predicate Printed(edit: Edit, indent: nat) {
    && IsPrinted(edit.header, indent, edit.block) && IsHeader(edit.header, edit.block, indent)
    && IsPrinted(edit.entry, indent + 2, edit.key)
  }

  /** With plain names the lines a call prints are read back as what they stand for. */
  lemma EditIsPrinted(indent: nat, block: string, key: string, value: string, remove: bool)
    requires PlainName(block) && PlainName(key)
    ensures Printed(EditFor(indent, block, key, value, remove), indent)
  {
    HeaderIsPrinted(indent, block);
    EntryIsPrinted(indent + 2, key, value);
  }

  /** The value on a printed entry is the value that was set. */
  lemma ValueIsRead(indent: nat, key: string, value: string)
    requires PlainName(key) && Trimmed(value)
    ensures ValueOf(Entry(indent, key, value)) == value
  {
    var text := key + ":" + " " + value;
    assert text == key + [':'] + (" " + value);
    BeforeOfFound(key, ':', " " + value);
    assert text[|key| + 1..] == " " + value;
    StripAfterSpace(" " + value);
    assert (" " + value)[1..] == value;
    StripOfTrimmed(value);
  }

  // ------------------------------------------------------------------- the place after the change

  lemma PlaceIsUnique(lines: seq<Line>, s: nat, e: nat, indent: nat, block: string, key: string, p: Place, q: Place)
    requires e <= |lines|
    requires IsPlace(lines, s, e, indent, block, key, p) && IsPlace(lines, s, e, indent, block, key, q)
    ensures p == q
  {
    if p.Block? && q.Block? {
      assert p.block == q.block by {
        if p.block < q.block {
        } else if q.block < p.block {
        }
      }
      assert p.end == q.end by {
        if p.end < q.end {
        } else if q.end < p.end {
        }
      }
      if p.entry.Some? && q.entry.Some? && p.entry.value < q.entry.value {
      } else if p.entry.Some? && q.entry.Some? && q.entry.value < p.entry.value {
      }
    }
  }

  lemma SpanIsUnique(lines: seq<Line>, project: string, s: nat, e: nat, t: nat, f: nat)
    requires IsSpan(lines, project, s, e) && IsSpan(lines, project, t, f)
    ensures s == t && e == f
  {
  }

  ghost predicate PutIn(lines: seq<Line>, k: nat, more: seq<Line>, after: seq<Line>) {
    k <= |lines| && after == lines[..k] + more + lines[k..]
  }

  lemma PutInAt(lines: seq<Line>, k: nat, more: seq<Line>, after: seq<Line>)
    requires PutIn(lines, k, more, after)
    ensures |after| == |lines| + |more|
    ensures forall i :: 0 <= i < k ==> after[i] == lines[i]
    ensures forall i :: k <= i < k + |more| ==> after[i] == more[i - k]
    ensures forall i :: k + |more| <= i < |after| ==> after[i] == lines[i - |more|]
  {
  }

  /** Lines put in that start no project leave the project's span where it was, only longer. */
  lemma SpanGrows(lines: seq<Line>, project: string, s: nat, e: nat, k: nat, more: seq<Line>, after: seq<Line>)
    requires IsSpan(lines, project, s, e) && s < k <= e && PutIn(lines, k, more, after)
    requires forall i :: 0 <= i < |more| ==> more[i].slug.None?
    ensures IsSpan(after, project, s, e + |more|)
  {
    PutInAt(lines, k, more, after);
  }

  /** A new block right after the project's first line. */
  lemma NewBlockPlace(lines: seq<Line>, after: seq<Line>, s: nat, e: nat, f: nat, indent: nat, block: string,
                      key: string, h: Line, entry: Line)
    requires s < e <= |lines| && after == lines[..s + 1] + [h, entry] + lines[s + 1..]
    requires IsPrinted(h, indent, block) && IsHeader(h, block, indent) && IsPrinted(entry, indent + 2, key)
    requires IsBlockEnd(lines, s, e, indent, f)
    ensures IsBlock(after, s, e + 2, block, indent, s + 1)
    ensures IsBlockEnd(after, s + 1, e + 2, indent, f + 2)
    ensures OneItem(after, s + 1, f + 2, indent) <==> NoItem(lines, s, f, indent)
    ensures NoItem(lines, s, f, indent) ==> IsEntry(after, s + 1, f + 2, indent, key, Some(s + 2))
  {
    PutInAt(lines, s + 1, [h, entry], after);
    assert after[s + 2] == entry && after[s + 1] == h;
    if OneItem(after, s + 1, f + 2, indent) {
      forall i | s < i < f ensures !IsItem(lines[i], indent) {
        assert after[i + 2] == lines[i];
      }
    }
  }

  /** A new entry at the end of its block. */
  lemma NewEntryPlace(lines: seq<Line>, after: seq<Line>, s: nat, e: nat, b: nat, f: nat, indent: nat, block: string,
                      key: string, entry: Line)
    requires e <= |lines| && IsBlock(lines, s, e, block, indent, b) && IsBlockEnd(lines, b, e, indent, f)
    requires IsEntry(lines, b, f, indent, key, None) && IsPrinted(entry, indent + 2, key)
    requires after == lines[..f] + [entry] + lines[f..]
    ensures IsBlock(after, s, e + 1, block, indent, b)
    ensures IsBlockEnd(after, b, e + 1, indent, f + 1)
    ensures IsEntry(after, b, f + 1, indent, key, Some(f))
    ensures OneItem(after, b, f + 1, indent) <==> NoItem(lines, b, f, indent)
  {
    PutInAt(lines, f, [entry], after);
    assert after[f] == entry;
    if OneItem(after, b, f + 1, indent) {
      forall i | b < i < f ensures !IsItem(lines[i], indent) {
        assert after[i] == lines[i];
      }
    }
  }

  function FirstClose(lines: seq<Line>, b: nat, e: nat, indent: nat): (f: nat)
    requires b < e <= |lines|
    ensures IsBlockEnd(lines, b, e, indent, f)
    decreases e - b
  {
    if b + 1 == e || Closes(lines[b + 1], indent) then b + 1 else FirstClose(lines, b + 1, e, indent)
  }

  // ------------------------------------------------------------------- taking a change back

  lemma NewEntryFound(lines: seq<Line>, mid: seq<Line>, project: string, put: Edit, s: nat, e: nat, place: Place,
                      g: nat, q: Place)
    requires place.Block? && place.entry.None?
    requires Edited(lines, mid, project, put, s, e, place) && Printed(put, lines[s].indent + 2) && !put.remove
    requires |mid| == |lines| + 1 && g == e + 1 && IsPlace(mid, s, g, lines[s].indent + 2, put.block, put.key, q)
    ensures var alone := NoItem(lines, place.block, place.end, lines[s].indent + 2);
            q == Block(place.block, place.end + 1, Some(place.end), alone)
  {
    NewEntryPlace(lines, mid, s, e, place.block, place.end, lines[s].indent + 2, put.block, put.key, put.entry);
    PlaceIsUnique(mid, s, g, lines[s].indent + 2, put.block, put.key, q,
                  Block(place.block, place.end + 1, Some(place.end),
                        NoItem(lines, place.block, place.end, lines[s].indent + 2)));
  }

  /** The next call finds the project's span where it was, only longer. */
  lemma SpanFound(lines: seq<Line>, after: seq<Line>, project: string, edit: Edit, s: nat, e: nat, place: Place,
                  t: nat, g: nat)
    requires Edited(lines, after, project, edit, s, e, place) && !edit.remove && Printed(edit, lines[s].indent + 2)
    requires IsSpan(after, project, t, g)
    ensures |after| >= |lines| && t == s && g == e + |after| - |lines| && after[s] == lines[s]
  {
    SpanStays(lines, after, project, edit, s, e, place);
    SpanIsUnique(after, project, s, e + |after| - |lines|, t, g);
  }

  lemma SpanStays(lines: seq<Line>, after: seq<Line>, project: string, edit: Edit, s: nat, e: nat, place: Place)
    requires Edited(lines, after, project, edit, s, e, place) && !edit.remove && Printed(edit, lines[s].indent + 2)
    ensures |after| >= |lines| && IsSpan(after, project, s, e + |after| - |lines|) && after[s] == lines[s]
  {
    if place.NoBlock? {
      SpanGrows(lines, project, s, e, s + 1, [edit.header, edit.entry], after);
    } else if place.entry.None? {
      SpanGrows(lines, project, s, e, place.end, [edit.entry], after);
    }
  }

  lemma NewBlockIsPlace(lines: seq<Line>, mid: seq<Line>, s: nat, e: nat, f: nat, indent: nat, edit: Edit)
    requires s < e <= |lines| && mid == lines[..s + 1] + [edit.header, edit.entry] + lines[s + 1..]
    requires Printed(edit, indent)
    requires IsBlockEnd(lines, s, e, indent, f) && NoItem(lines, s, f, indent)
    ensures IsPlace(mid, s, e + 2, indent, edit.block, edit.key, Block(s + 1, f + 2, Some(s + 2), true))
  {
    NewBlockPlace(lines, mid, s, e, f, indent, edit.block, edit.key, edit.header, edit.entry);
  }

  lemma NewBlockGoes(lines: seq<Line>, mid: seq<Line>, s: nat, e: nat, f: nat, indent: nat, edit: Edit, q: Place)
    requires s < e <= |lines| && mid == lines[..s + 1] + [edit.header, edit.entry] + lines[s + 1..]
    requires IsPlace(mid, s, e + 2, indent, edit.block, edit.key, q)
    requires IsPlace(mid, s, e + 2, indent, edit.block, edit.key, Block(s + 1, f + 2, Some(s + 2), true))
    ensures q == Block(s + 1, f + 2, Some(s + 2), true) && Removed(mid, q) == lines
  {
    PlaceIsUnique(mid, s, e + 2, indent, edit.block, edit.key, q, Block(s + 1, f + 2, Some(s + 2), true));
    TakeBackTwo(lines, s + 1, edit.header, edit.entry);
  }

  lemma NewHeaderStays(lines: seq<Line>, mid: seq<Line>, s: nat, e: nat, f: nat, indent: nat, edit: Edit, q: Place)
    requires s < e <= |lines| && mid == lines[..s + 1] + [edit.header, edit.entry] + lines[s + 1..]
    requires Printed(edit, indent)
    requires IsBlockEnd(lines, s, e, indent, f) && !NoItem(lines, s, f, indent)
    requires IsPlace(mid, s, e + 2, indent, edit.block, edit.key, q)
    ensures |Removed(mid, q)| > |lines|
  {
    NewBlockPlace(lines, mid, s, e, f, indent, edit.block, edit.key, edit.header, edit.entry);
    NotAlone(mid, s, e + 2, indent, edit.block, edit.key, q, s + 1, f + 2);
  }

  /**
   A new block with its entry, removed from where the next call finds it, leaves every line as it was
   exactly when no stray entries follow the project's first line.
   */
  lemma NewBlockTakenBack(lines: seq<Line>, mid: seq<Line>, project: string, edit: Edit, s: nat, e: nat, q: Place)
    requires Edited(lines, mid, project, edit, s, e, NoBlock) && Printed(edit, lines[s].indent + 2) && !edit.remove
    requires |mid| == |lines| + 2 && IsPlace(mid, s, e + 2, lines[s].indent + 2, edit.block, edit.key, q)
    ensures Removed(mid, q) == lines <==>
      NoItem(lines, s, FirstClose(lines, s, e, lines[s].indent + 2), lines[s].indent + 2)
    ensures Removed(mid, q) == lines ==> q.Block? && q.entry == Some(s + 2)
  {
    var indent := lines[s].indent + 2;
    var f := FirstClose(lines, s, e, indent);
    if NoItem(lines, s, f, indent) {
      NewBlockIsPlace(lines, mid, s, e, f, indent, edit);
      NewBlockGoes(lines, mid, s, e, f, indent, edit, q);
    } else {
      NewHeaderStays(lines, mid, s, e, f, indent, edit, q);
    }
  }

  /** Taking out the entry that was put in at `k` takes nothing else, unless it is alone. */
  lemma TakeBackOne(lines: seq<Line>, mid: seq<Line>, k: nat, entry: Line, q: Place)
    requires k <= |lines| && mid == lines[..k] + [entry] + lines[k..]
    requires q.Block? && q.entry == Some(k) && q.block < k
    ensures Removed(mid, q) == lines <==> !q.alone
  {
    assert Without(mid, k) == lines;
  }

  /**
   A new entry in a block, removed from where the next call finds it, leaves every line as it was exactly
   when the block held an entry before: otherwise its header goes too.
   */
  lemma NewEntryTakenBack(lines: seq<Line>, mid: seq<Line>, project: string, edit: Edit, s: nat, e: nat, place: Place,
                          q: Place)
    requires place.Block? && place.entry.None?
    requires Edited(lines, mid, project, edit, s, e, place) && Printed(edit, lines[s].indent + 2) && !edit.remove
    requires |mid| == |lines| + 1 && IsPlace(mid, s, e + 1, lines[s].indent + 2, edit.block, edit.key, q)
    ensures Removed(mid, q) == lines <==> !NoItem(lines, place.block, place.end, lines[s].indent + 2)
    ensures q.Block? && q.entry == Some(place.end)
  {
    NewEntryFound(lines, mid, project, edit, s, e, place, e + 1, q);
    TakeBackOne(lines, mid, place.end, edit.entry, q);
  }

  /** With other entries in the block its header stays. */
  lemma NotAlone(lines: seq<Line>, s: nat, e: nat, indent: nat, block: string, key: string, q: Place, b: nat, f: nat)
    requires e <= |lines| && IsPlace(lines, s, e, indent, block, key, q)
    requires IsBlock(lines, s, e, block, indent, b) && IsBlockEnd(lines, b, e, indent, f)
    requires !OneItem(lines, b, f, indent)
    ensures |Removed(lines, q)| + 1 >= |lines|
  {
    PlaceMatches(lines, s, e, indent, block, key, q, b, f);
  }

  /** The block and its end are where any account of the place says. */
  lemma PlaceMatches(lines: seq<Line>, s: nat, e: nat, indent: nat, block: string, key: string, q: Place, b: nat,
                     f: nat)
    requires e <= |lines| && IsPlace(lines, s, e, indent, block, key, q)
    requires IsBlock(lines, s, e, block, indent, b) && IsBlockEnd(lines, b, e, indent, f)
    ensures q.Block? && q.block == b && q.end == f
  {
  }

  lemma TakeBackTwo(lines: seq<Line>, k: nat, h: Line, entry: Line)
    requires k <= |lines|
    ensures var mid := lines[..k] + [h, entry] + lines[k..];
            Without(Without(mid, k + 1), k) == lines
  {
    var mid := lines[..k] + [h, entry] + lines[k..];
    assert Without(mid, k + 1) == lines[..k] + [h] + lines[k..];
  }

  // ------------------------------------------------------------------- what a change leaves alone

  /** After a set the override is found, with the line that was printed, unless stray entries follow a new block. */
  lemma SetThenFind(lines: seq<Line>, after: seq<Line>, project: string, edit: Edit, s: nat, e: nat, place: Place,
                    q: Place)
    requires Edited(lines, after, project, edit, s, e, place) && !edit.remove && Printed(edit, lines[s].indent + 2)
    requires place.NoBlock? ==> NoItem(lines, s, FirstClose(lines, s, e, lines[s].indent + 2), lines[s].indent + 2)
    requires |after| >= |lines|
    requires IsPlace(after, s, e + |after| - |lines|, lines[s].indent + 2, edit.block, edit.key, q)
    ensures q.Block? && q.entry.Some? && after[q.entry.value] == edit.entry
  {
    if place.NoBlock? {
      FindInNewBlock(lines, after, project, s, e, edit, q);
    } else if place.entry.None? {
      NewEntryFound(lines, after, project, edit, s, e, place, e + 1, q);
    } else {
      FindChanged(lines, after, s, e, lines[s].indent + 2, edit, place, q);
    }
  }

  lemma FindChanged(lines: seq<Line>, after: seq<Line>, s: nat, e: nat, indent: nat, edit: Edit, place: Place, q: Place)
    requires e <= |lines| && IsPlace(lines, s, e, indent, edit.block, edit.key, place) && place.Block?
    requires place.entry.Some?
    requires after == lines[place.entry.value := edit.entry] && Printed(edit, indent)
    requires IsPlace(after, s, e, indent, edit.block, edit.key, q)
    ensures q.Block? && q.entry.Some? && after[q.entry.value] == edit.entry
  {
    SamePlace(lines, after, s, e, indent, edit, place);
    PlaceIsUnique(after, s, e, indent, edit.block, edit.key, q, place);
  }

  lemma FindInNewBlock(lines: seq<Line>, after: seq<Line>, project: string, s: nat, e: nat, edit: Edit, q: Place)
    requires IsSpan(lines, project, s, e) && Printed(edit, lines[s].indent + 2)
    requires after == lines[..s + 1] + [edit.header, edit.entry] + lines[s + 1..]
    requires NoItem(lines, s, FirstClose(lines, s, e, lines[s].indent + 2), lines[s].indent + 2)
    requires IsPlace(after, s, e + 2, lines[s].indent + 2, edit.block, edit.key, q)
    ensures q.Block? && q.entry.Some? && after[q.entry.value] == edit.entry
  {
    var indent := lines[s].indent + 2;
    var f := FirstClose(lines, s, e, indent);
    NewBlockPlace(lines, after, s, e, f, indent, edit.block, edit.key, edit.header, edit.entry);
    PlaceIsUnique(after, s, e + 2, indent, edit.block, edit.key, q, Block(s + 1, f + 2, Some(s + 2), true));
  }

  lemma SamePlace(lines: seq<Line>, after: seq<Line>, s: nat, e: nat, indent: nat, edit: Edit, place: Place)
    requires e <= |lines| && IsPlace(lines, s, e, indent, edit.block, edit.key, place) && place.Block?
    requires place.entry.Some?
    requires after == lines[place.entry.value := edit.entry] && Printed(edit, indent)
    ensures IsPlace(after, s, e, indent, edit.block, edit.key, place)
  {
    SameItems(lines, after, place.block, place.end, indent);
  }

  lemma SameItems(lines: seq<Line>, after: seq<Line>, b: nat, f: nat, indent: nat)
    requires f <= |lines| == |after| && forall i :: b < i < f ==> IsItem(lines[i], indent) == IsItem(after[i], indent)
    ensures OneItem(lines, b, f, indent) <==> OneItem(after, b, f, indent)
  {
  }

  /** No call touches a line outside the project's span, nor the line that names the project. */
  lemma OutsideStays(lines: seq<Line>, after: seq<Line>, project: string, edit: Edit, s: nat, e: nat, place: Place)
    requires Edited(lines, after, project, edit, s, e, place)
    ensures |after| + e >= |lines| + s + 1
    ensures after[..s + 1] == lines[..s + 1] && after[e + |after| - |lines|..] == lines[e..]
  {
    if edit.remove {
      if place.Block? && place.entry.Some? {
        RemovedKeeps(lines, place, s, e);
      }
    } else {
      PutKeeps(lines, s, e, edit, place);
    }
  }

  lemma RemovedKeeps(lines: seq<Line>, place: Place, s: nat, e: nat)
    requires place.Block? && place.entry.Some? && s < place.block < place.entry.value < e <= |lines|
    ensures var after := Removed(lines, place);
            && |after| + e >= |lines| + s + 1
            && after[..s + 1] == lines[..s + 1] && after[e + |after| - |lines|..] == lines[e..]
  {
    WithoutKeeps(lines, place.entry.value, s + 1, e);
    if place.alone {
      WithoutKeeps(Without(lines, place.entry.value), place.block, s + 1, e - 1);
    }
  }

  lemma PutKeeps(lines: seq<Line>, s: nat, e: nat, edit: Edit, place: Place)
    requires s < e <= |lines|
    requires place.Block? ==> s < place.end <= e && (place.entry.Some? ==> s < place.entry.value < e)
    ensures var after := Put(lines, s, edit.header, edit.entry, place);
            && |after| >= |lines|
            && after[..s + 1] == lines[..s + 1] && after[e + |after| - |lines|..] == lines[e..]
  {
  }

  lemma WithoutKeeps(lines: seq<Line>, k: nat, i: nat, e: nat)
    requires i <= k < e <= |lines|
    ensures Without(lines, k)[..i] == lines[..i] && Without(lines, k)[e - 1..] == lines[e..]
  {
  }
}
