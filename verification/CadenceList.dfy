/**
 Adding a loop to a project's inline `cadences: [...]` list, and removing it, in the text of
 `registry.yaml` (collectors/loops.py).
 */
module CadenceList {
  import opened Results
  import opened Text

  /** How a line ends: with a line feed, with nothing at the file's end, or with another break of `splitlines`. */
  datatype End = Newline | Unended | Stray

  /** A line as the editors tell them apart; `List` is `cadences: [inner]` with what stands around the items. */
  datatype Line =
    | Slug(project: string, indent: nat, text: string)
    | List(open: string, inner: string, close: string, end: End)
    | OtherCadences(text: string)
    | Dash(indent: nat, text: string)
    | Other(text: string)

  // ------------------------------------------------------------------- the items of a list

  /** The parts, trimmed, without the empty ones. */
  function Kept(parts: seq<string>): seq<string> {
    if parts == [] then []
    else if Strip(parts[0]) == "" then Kept(parts[1..])
    else [Strip(parts[0])] + Kept(parts[1..])
  }

  function Items(inner: string): seq<string> {
    Kept(Split(inner, ','))
  }

  /** `", ".join(items)`. */
  function Joined(items: seq<string>): string {
    if items == [] then ""
    else if |items| == 1 then items[0]
    else items[0] + [','] + " " + Joined(items[1..])
  }

  predicate PlainItem(x: string) {
    x != "" && Trimmed(x) && ',' !in x
  }

  predicate PlainItems(items: seq<string>) {
    forall k :: 0 <= k < |items| ==> PlainItem(items[k])
  }

  /** What a list holds is printed so that it reads back the same. */
  lemma {:induction false} ItemsOfJoined(items: seq<string>)
    requires PlainItems(items)
    ensures Items(Joined(items)) == items
  {
    if items != [] {
      var x, rest := items[0], items[1..];
      StripOfTrimmed(x);
      if rest == [] {
        SplitAfterFirst(x, ',', "");
        assert Kept([x]) == [x] + Kept([x][1..]);
      } else {
        var more := Joined(rest);
        assert Joined(items) == x + [','] + (" " + more);
        SplitAfterFirst(x, ',', " " + more);
        var parts := Split(" " + more, ',');
        assert ([x] + parts)[1..] == parts;
        LeadingSpace(more);
        ItemsOfJoined(rest);
      }
    }
  }

  lemma LeadingSpace(t: string)
    ensures Items(" " + t) == Items(t)
  {
    var parts := Split(t, ',');
    assert (" " + t)[1..] == t;
    var spaced := Split(" " + t, ',');
    assert spaced == [" " + parts[0]] + parts[1..];
    assert (" " + parts[0])[1..] == parts[0];
    StripAfterSpace(" " + parts[0]);
    assert spaced[1..] == parts[1..];
  }

  lemma {:induction false} KeptArePlain(parts: seq<string>)
    requires forall k :: 0 <= k < |parts| ==> ',' !in parts[k]
    ensures PlainItems(Kept(parts))
  {
    if parts != [] {
      KeptArePlain(parts[1..]);
      StripIsTrimmed(parts[0]);
      StripTakesAway(parts[0], ',');
    }
  }

  lemma {:induction false} StripTakesAway(s: string, c: char)
    requires c !in s
    ensures c !in Strip(s)
  {
    LStripTakesAway(s, c);
    assert RStrip(LStrip(s)) <= LStrip(s);
  }

  lemma {:induction false} LStripTakesAway(s: string, c: char)
    requires c !in s
    ensures c !in LStrip(s)
  {
    if s != "" && IsSpace(s[0]) {
      LStripTakesAway(s[1..], c);
    }
  }

  lemma ItemsArePlain(inner: string)
    ensures PlainItems(Items(inner))
  {
    PartsHoldNoSeparator(inner, ',');
    KeptArePlain(Split(inner, ','));
  }

  // ------------------------------------------------------------------- the project's list

  /** The indentation of the project's slug after this line, if its block is open there. */
  function BlockAfter(line: Line, project: string, block: Option<nat>): Option<nat> {
    if !line.Slug? then block else if line.project == project then Some(line.indent) else None
  }

  predicate IsCadences(line: Line) {
    line.List? || line.OtherCadences?
  }

  predicate EndsBlock(line: Line, indent: nat) {
    line.Dash? && line.indent <= indent
  }

  /** The first `cadences:` line below the project's slug, before another list item ends the block. */
  function Find(lines: seq<Line>, project: string, i: nat, block: Option<nat>): (r: Option<nat>)
    requires i <= |lines|
    ensures r.Some? ==> i <= r.value < |lines| && IsCadences(lines[r.value])
    decreases |lines| - i
  {
    if i == |lines| then None
    else if block.Some? && IsCadences(lines[i]) then Some(i)
    else if block.Some? && EndsBlock(lines[i], block.value) then None
    else Find(lines, project, i + 1, BlockAfter(lines[i], project, block))
  }

  /** The line stands in a block of the project. */
  ghost predicate InBlock(lines: seq<Line>, project: string, k: nat)
    requires k < |lines|
  {
    exists j :: 0 <= j < k && lines[j].Slug? && lines[j].project == project && forall i :: j < i < k ==> !lines[i].Slug?
  }

  lemma {:induction false} FoundInBlock(lines: seq<Line>, project: string, i: nat, block: Option<nat>)
    requires i <= |lines|
    requires block.Some? ==> i < |lines| ==> InBlock(lines, project, i)
    ensures Find(lines, project, i, block).Some? ==> InBlock(lines, project, Find(lines, project, i, block).value)
    decreases |lines| - i
  {
    if i < |lines| {
      var next := BlockAfter(lines[i], project, block);
      if next.Some? && i + 1 < |lines| {
        NextInBlock(lines, project, i);
      }
      FoundInBlock(lines, project, i + 1, next);
    }
  }

  lemma NextInBlock(lines: seq<Line>, project: string, i: nat)
    requires i + 1 < |lines| && (if lines[i].Slug? then lines[i].project == project else InBlock(lines, project, i))
    ensures InBlock(lines, project, i + 1)
  {
    if !lines[i].Slug? {
      var j :| 0 <= j < i && lines[j].Slug? && lines[j].project == project && forall h :: j < h < i ==> !lines[h].Slug?;
      assert forall h :: j < h < i + 1 ==> !lines[h].Slug?;
    }
  }

  /** Where the list is found depends only on the lines up to it. */
  lemma {:induction false} FoundAgain(lines: seq<Line>, after: seq<Line>, project: string, i: nat, block: Option<nat>,
                                      k: nat)
    requires i <= |lines| && Find(lines, project, i, block) == Some(k)
    requires k < |after| && lines[..k] == after[..k] && lines[k].List? && after[k].List?
    ensures Find(after, project, i, block) == Some(k)
    decreases |lines| - i
  {
    if i < k {
      assert lines[i] == lines[..k][i] == after[i];
      var next := BlockAfter(lines[i], project, block);
      FoundAgain(lines, after, project, i + 1, next, k);
    }
  }

  // ------------------------------------------------------------------- the editors

  function Added(items: seq<string>, name: string): seq<string> {
    if name in items then items else items + [name]
  }

  function Dropped(items: seq<string>, name: string): seq<string> {
    if items == [] then []
    else if items[0] == name then Dropped(items[1..], name)
    else [items[0]] + Dropped(items[1..], name)
  }

  /** The list as the editors print it: always with a line feed, which after a stray break is a line of its own. */
  function Reprinted(line: Line, items: seq<string>): seq<Line>
    requires line.List?
  {
    var l := line.(inner := Joined(items));
    if l.end.Stray? then [l, Other("\n")] else [l.(end := Newline)]
  }

  function Replaced(lines: seq<Line>, k: nat, news: seq<Line>): seq<Line>
    requires k < |lines|
  {
    lines[..k] + news + lines[k + 1..]
  }

  /** The lines with the project's list made to hold `items`, unless it holds them already. */
  function Relisted(lines: seq<Line>, k: nat, items: seq<string>): seq<Line>
    requires k < |lines| && lines[k].List?
  {
    if Items(lines[k].inner) == items then lines else Replaced(lines, k, Reprinted(lines[k], items))
  }

  method ListLine(lines: seq<Line>, project: string) returns (k: Option<nat>)
    ensures k == Find(lines, project, 0, None)
  {
    var block: Option<nat> := None;
    var i := 0;
    while i < |lines|
      invariant i <= |lines|
      invariant Find(lines, project, 0, None) == Find(lines, project, i, block)
    {
      match lines[i] {
        case Slug(p, indent, _) => block := if p == project then Some(indent) else None;
        case List(_, _, _, _) => if block.Some? { return Some(i); }
        case OtherCadences(_) => if block.Some? { return Some(i); }
        case Dash(indent, _) => if block.Some? && indent <= block.value { return None; }
        case Other(_) =>
      }
      i := i + 1;
    }
    k := None;
  }

  method AddToProjectCadences(lines: seq<Line>, project: string, name: string) returns (after: seq<Line>)
    ensures var k := Find(lines, project, 0, None);
            after == if k.Some? && lines[k.value].List?
                     then Relisted(lines, k.value, Added(Items(lines[k.value].inner), name)) else lines
  {
    var k := ListLine(lines, project);
    if k.None? || !lines[k.value].List? {
      return lines;
    }
    var items := Items(lines[k.value].inner);
    if name in items {
      return lines;
    }
    items := items + [name];
    after := Replaced(lines, k.value, Reprinted(lines[k.value], items));
  }

  method RemoveFromProjectCadences(lines: seq<Line>, project: string, name: string) returns (after: seq<Line>)
    ensures var k := Find(lines, project, 0, None);
            after == if k.Some? && lines[k.value].List?
                     then Relisted(lines, k.value, Dropped(Items(lines[k.value].inner), name)) else lines
  {
    var k := ListLine(lines, project);
    if k.None? || !lines[k.value].List? {
      return lines;
    }
    var items := Items(lines[k.value].inner);
    DroppedIffListed(items, name);
    if name !in items {
      return lines;
    }
    items := Dropped(items, name);
    after := Replaced(lines, k.value, Reprinted(lines[k.value], items));
  }

  lemma {:induction false} DroppedIffListed(items: seq<string>, name: string)
    ensures Dropped(items, name) == items <==> name !in items
    ensures |Dropped(items, name)| <= |items|
    ensures name !in Dropped(items, name)
    ensures forall x | x in items && x != name :: x in Dropped(items, name)
  {
    if items != [] {
      DroppedIffListed(items[1..], name);
      if items[0] == name {
        assert |Dropped(items, name)| < |items|;
      } else {
        assert items == [items[0]] + items[1..];
      }
    }
  }

  lemma {:induction false} DroppedOfAdded(items: seq<string>, name: string)
    requires name !in items
    ensures Dropped(items + [name], name) == items
  {
    if items == [] {
      assert items + [name] == [name];
    } else {
      assert (items + [name])[1..] == items[1..] + [name];
      DroppedOfAdded(items[1..], name);
    }
  }

  /** What reprinting leaves: the list in its place with the new items, and every other line. */
  lemma RelistedHolds(lines: seq<Line>, project: string, k: nat, items: seq<string>)
    requires Find(lines, project, 0, None) == Some(k) && lines[k].List? && PlainItems(items)
    ensures var after := Relisted(lines, k, items);
            && k < |after| && Find(after, project, 0, None) == Some(k) && after[k].List?
            && Items(after[k].inner) == items
            && after[..k] == lines[..k] && after[|after| - (|lines| - k - 1)..] == lines[k + 1..]
  {
    ItemsOfJoined(items);
    FoundAgain(lines, Relisted(lines, k, items), project, 0, None, k);
  }

  /** After adding, the project's list holds the loop besides what it held; and it is found where it was. */
  lemma AddedIsListed(lines: seq<Line>, project: string, name: string, k: nat)
    requires Find(lines, project, 0, None) == Some(k) && lines[k].List? && PlainItem(name)
    ensures var after := Relisted(lines, k, Added(Items(lines[k].inner), name));
            && k < |after| && Find(after, project, 0, None) == Some(k) && after[k].List?
            && Items(after[k].inner) == Added(Items(lines[k].inner), name)
            && after[..k] == lines[..k] && after[|after| - (|lines| - k - 1)..] == lines[k + 1..]
  {
    ItemsArePlain(lines[k].inner);
    RelistedHolds(lines, project, k, Added(Items(lines[k].inner), name));
  }

  /**
   A line replaced twice, the second time by `news`, is the old one iff that is all `news` holds; a second
   line stays.
   */
  lemma ReplacedTwice(lines: seq<Line>, k: nat, first: Line, extra: seq<Line>, news: seq<Line>)
    requires k < |lines| && news != []
    ensures Replaced(Replaced(lines, k, [first] + extra), k, news) == lines <==> news + extra == [lines[k]]
  {
    var after := Replaced(Replaced(lines, k, [first] + extra), k, news);
    assert after == lines[..k] + (news + extra) + lines[k + 1..];
    assert lines == lines[..k] + [lines[k]] + lines[k + 1..];
    if after == lines {
      assert |news + extra| == 1;
      assert after[k] == (news + extra)[0];
    }
  }

  /**
   Adding a new loop and removing it again restores every line exactly when the list was spaced as the
   editor prints it and its line ended with a line feed.
   */
  lemma AddThenRemove(lines: seq<Line>, project: string, name: string, k: nat)
    requires Find(lines, project, 0, None) == Some(k) && lines[k].List? && PlainItem(name)
    requires name !in Items(lines[k].inner)
    ensures var mid := Relisted(lines, k, Added(Items(lines[k].inner), name));
            && k < |mid| && mid[k].List?
            && var after := Relisted(mid, k, Dropped(Items(mid[k].inner), name));
               after == lines <==> lines[k].inner == Joined(Items(lines[k].inner)) && lines[k].end.Newline?
  {
    var items := Items(lines[k].inner);
    AddedIsListed(lines, project, name, k);
    DroppedOfAdded(items, name);
    var mid := Relisted(lines, k, Added(items, name));
    assert Items(mid[k].inner) == items + [name] != items;
    var more := Reprinted(lines[k], items + [name]);
    var news := Reprinted(mid[k], items);
    assert more == [more[0]] + more[1..];
    ReplacedTwice(lines, k, more[0], more[1..], news);
  }
}
