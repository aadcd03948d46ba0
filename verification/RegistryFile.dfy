/**
 One call of the override editor on the whole file (collectors/scheduler.py): the lines, and whether the
 last of them ends with a line break.  Lines put in behind one that does not are joined to it.
 */
module RegistryFile {
  import opened Results
  import opened RegistryEdit

  datatype File = File(lines: seq<Line>, ended: bool)

  function Spaces(n: nat): string {
    seq(n, _ => ' ')
  }

  /** Two lines with no break between them, as one. */
  function Joined(a: Line, b: Line): Line {
    if a.text == "" then Read(a.indent + b.indent, b.text) else Read(a.indent, a.text + Spaces(b.indent) + b.text)
  }

  /** The lines with the one at `k` joined to the one before it. */
  function Glued(lines: seq<Line>, k: nat): seq<Line>
    requires 0 < k < |lines|
  {
    lines[..k - 1] + [Joined(lines[k - 1], lines[k])] + lines[k + 1..]
  }

  /** Where lines are put in, if any are. */
  function PutAt(s: nat, place: Place): Option<nat> {
    if place.NoBlock? then Some(s + 1) else if place.entry.None? then Some(place.end) else None
  }

  /** Lines are put in behind a last line that has no break. */
  predicate Glues(f: File, s: nat, place: Place) {
    !f.ended && PutAt(s, place) == Some(|f.lines|)
  }

  predicate TouchesLast(f: File, s: nat, place: Place) {
    PutAt(s, place) == Some(|f.lines|) || (place.Block? && place.entry.Some? && place.entry.value == |f.lines| - 1)
  }

  ghost predicate IsAt(f: File, project: string, edit: Edit, s: nat, e: nat, place: Place) {
    IsSpan(f.lines, project, s, e) && IsPlace(f.lines, s, e, f.lines[s].indent + 2, edit.block, edit.key, place)
  }

  function PutFile(f: File, s: nat, edit: Edit, place: Place): File
    requires s < |f.lines|
    requires place.Block? ==> 0 < place.end <= |f.lines| && (place.entry.Some? ==> place.entry.value < |f.lines|)
  {
    var plain := Put(f.lines, s, edit.header, edit.entry, place);
    File(if Glues(f, s, place) then Glued(plain, |f.lines|) else plain, f.ended || TouchesLast(f, s, place))
  }

  /** Every line but the last has its break, so without the last one the file ends with one. */
  function RemovedFile(f: File, place: Place): File
    requires place.Block? && place.entry.Some? ==> place.block < place.entry.value < |f.lines|
  {
    File(Removed(f.lines, place), f.ended || (place.Block? && place.entry == Some(|f.lines| - 1)))
  }

  /** The file `after` is what one call makes of the project's block at `s`. */
  ghost predicate EditedFile(f: File, after: File, project: string, edit: Edit, s: nat, e: nat, place: Place) {
    && IsAt(f, project, edit, s, e, place)
    && after == if edit.remove then RemovedFile(f, place) else PutFile(f, s, edit, place)
  }

  /** What a call reports: where the project and the override were, and what was to be done. */
  datatype Change = Change(start: nat, end: nat, place: Place, edit: Edit)

  class Registry {
    var file: File

    constructor (file: File)
      ensures this.file == file
    {
      this.file := file;
    }

    /** Sets or removes `key` in the project's `block`. */
    method SetEntry(project: string, block: string, key: string, value: string, remove: bool)
        returns (r: Result<Change>)
      modifies this
      ensures r.Failure? <==> Unknown(old(file).lines, project)
      ensures r.Failure? ==> r.error == ValueError && file == old(file)
      ensures r.Success? ==>
        && EditedFile(old(file), file, project, r.value.edit, r.value.start, r.value.end, r.value.place)
        && r.value.edit == EditFor(old(file).lines[r.value.start].indent + 2, block, key, value, remove)
    {
      var span := ProjectSpan(file.lines, project);
      if span.Failure? {
        return Failure(span.error);
      }
      var change := SetIn(project, span.value.0, span.value.1, block, key, value, remove);
      r := Success(change);
    }

    method SetIn(ghost project: string, start: nat, end: nat, block: string, key: string, value: string, remove: bool)
        returns (c: Change)
      requires IsSpan(file.lines, project, start, end)
      modifies this
      ensures c.start == start && EditedFile(old(file), file, project, c.edit, start, c.end, c.place)
      ensures c.edit == EditFor(old(file).lines[start].indent + 2, block, key, value, remove)
    {
      var edit := EditFor(file.lines[start].indent + 2, block, key, value, remove);
      var place := Apply(project, start, end, edit);
      c := Change(start, end, place, edit);
    }

    method Apply(ghost project: string, start: nat, end: nat, edit: Edit) returns (place: Place)
      requires IsSpan(file.lines, project, start, end)
      modifies this
      ensures EditedFile(old(file), file, project, edit, start, end, place)
    {
      place := Locate(file.lines, start, end, file.lines[start].indent + 2, edit.block, edit.key);
      if edit.remove {
        Remove(place);
      } else {
        PutIn(start, edit, place);
      }
    }

    method Remove(place: Place)
      requires place.Block? && place.entry.Some? ==> place.block < place.entry.value < |file.lines|
      modifies this
      ensures file == RemovedFile(old(file), place)
    {
      if place.NoBlock? || place.entry.None? {
        return;
      }
      var lines := Without(file.lines, place.entry.value);
      if place.alone {
        lines := Without(lines, place.block);
      }
      file := File(lines, file.ended || place.entry.value == |file.lines| - 1);
    }

    method PutIn(start: nat, edit: Edit, place: Place)
      requires start < |file.lines|
      requires place.Block? ==>
        0 < place.end <= |file.lines| && (place.entry.Some? ==> place.entry.value < |file.lines|)
      modifies this
      ensures file == PutFile(old(file), start, edit, place)
    {
      var n := |file.lines|;
      if place.Block? && place.entry.Some? {
        var k := place.entry.value;
        file := File(file.lines[k := edit.entry], file.ended || k == n - 1);
        return;
      }
      var k, more := start + 1, [edit.header, edit.entry];
      if place.Block? {
        k, more := place.end, [edit.entry];
      }
      var lines := file.lines[..k] + more + file.lines[k..];
      if k == n && !file.ended {
        lines := Glued(lines, n);
      }
      file := File(lines, file.ended || k == n);
    }
  }

  // ------------------------------------------------------------------- taking a change back

  /** Without joining, the lines are those of the edit. */
  lemma UngluedIsEdited(f: File, after: File, project: string, edit: Edit, s: nat, e: nat, place: Place)
    requires EditedFile(f, after, project, edit, s, e, place) && !edit.remove && !Glues(f, s, place)
    ensures Edited(f.lines, after.lines, project, edit, s, e, place)
  {
  }

  /** The same edit, to be undone. */
  function Undo(edit: Edit): Edit {
    edit.(remove := true)
  }

  // What a place that was found ensures.
  predicate IsOrdered(q: Place, lines: seq<Line>) {
    q.Block? && q.entry.Some? ==> q.block < q.entry.value < |lines|
  }

  lemma JoinedIsLonger(a: Line, b: Line)
    requires b.text != ""
    ensures Joined(a, b).text != a.text
  {
    assert a.text != "" ==> |Joined(a, b).text| == |a.text| + |Spaces(b.indent)| + |b.text|;
  }

  lemma GluedAt(lines: seq<Line>, more: seq<Line>)
    requires lines != [] && more != []
    ensures var after := Glued(lines + more, |lines|);
            && |after| == |lines| + |more| - 1
            && after[|lines| - 1] == Joined(lines[|lines| - 1], more[0])
            && (|more| > 1 ==> after[|lines|] == more[1])
  {
    var both := lines + more;
    assert both[..|lines| - 1] == lines[..|lines| - 1];
    assert both[|lines| - 1] == lines[|lines| - 1] && both[|lines|] == more[0];
  }

  /** A removal takes at most an entry and a header before it. */
  lemma LastLineShows(lines: seq<Line>, mid: seq<Line>, q: Place)
    requires lines != [] && |lines| <= |mid| <= |lines| + 1
    requires q.Block? && q.entry.Some? ==> q.block < q.entry.value < |mid|
    requires mid[|lines| - 1] != lines[|lines| - 1] && mid[|mid| - 1] != lines[|lines| - 1]
    ensures Removed(mid, q) != lines
  {
    var n, back := |lines|, Removed(mid, q);
    if q.NoBlock? || q.entry.None? {
      assert back[n - 1] == mid[n - 1];
    } else if !q.alone && |mid| == n + 1 {
      assert back[n - 1] == if q.entry.value == n then mid[n - 1] else mid[n];
    }
  }

  /** What was joined to the last line is not taken back by any later removal. */
  lemma GluedIsLost(lines: seq<Line>, more: seq<Line>, mid: seq<Line>, q: Place)
    requires lines != [] && 1 <= |more| <= 2 && more[0].text != ""
    requires |more| == 2 ==> more[1].slug.None? && lines[|lines| - 1].slug.Some?
    requires mid == Glued(lines + more, |lines|) && IsOrdered(q, mid)
    ensures Removed(mid, q) != lines
  {
    GluedAt(lines, more);
    JoinedIsLonger(lines[|lines| - 1], more[0]);
    LastLineShows(lines, mid, q);
  }

  lemma GluedPut(f: File, s: nat, edit: Edit, place: Place)
    requires s < |f.lines| && Glues(f, s, place) && (place.Block? ==> place.entry.None?)
    ensures var more := if place.NoBlock? then [edit.header, edit.entry] else [edit.entry];
            PutFile(f, s, edit, place).lines == Glued(f.lines + more, |f.lines|)
  {
    var n := |f.lines|;
    var more := if place.NoBlock? then [edit.header, edit.entry] else [edit.entry];
    assert f.lines[..n] + more + f.lines[n..] == f.lines + more;
  }

  /** A new override that is not joined to the last line leaves the file's end as it was. */
  lemma PutEnds(f: File, mid: File, project: string, edit: Edit, s: nat, e: nat, place: Place)
    requires EditedFile(f, mid, project, edit, s, e, place) && !edit.remove && !Glues(f, s, place)
    requires place.NoBlock? || place.entry.None?
    ensures mid.ended == f.ended && PutAt(s, place).Some? && PutAt(s, place).value <= |f.lines|
    ensures |mid.lines| == |f.lines| + if place.NoBlock? then 2 else 1
    ensures !f.ended ==> PutAt(s, place).value < |f.lines|
  {
  }

  ghost predicate IsPut(lines: seq<Line>, mid: seq<Line>, project: string, edit: Edit, s: nat, e: nat, place: Place) {
    Edited(lines, mid, project, edit, s, e, place) && !edit.remove && Printed(edit, lines[s].indent + 2)
  }

  lemma NewBlockUndone(lines: seq<Line>, mid: seq<Line>, project: string, edit: Edit, s: nat, e: nat, t: nat, g: nat,
                       q: Place)
    requires IsPut(lines, mid, project, edit, s, e, NoBlock)
    requires IsSpan(mid, project, t, g) && IsPlace(mid, t, g, mid[t].indent + 2, edit.block, edit.key, q)
    ensures IsOrdered(q, mid)
    ensures Removed(mid, q) == lines <==> NoStrays(lines, s, e)
    ensures Removed(mid, q) == lines ==> q.Block? && q.entry == Some(s + 2)
  {
    SpanFound(lines, mid, project, edit, s, e, NoBlock, t, g);
    NewBlockTakenBack(lines, mid, project, edit, s, e, q);
  }

  lemma NewEntryUndone(lines: seq<Line>, mid: seq<Line>, project: string, edit: Edit, s: nat, e: nat, place: Place,
                       t: nat, g: nat, q: Place)
    requires place.Block? && place.entry.None? && IsPut(lines, mid, project, edit, s, e, place)
    requires IsSpan(mid, project, t, g) && IsPlace(mid, t, g, mid[t].indent + 2, edit.block, edit.key, q)
    ensures IsOrdered(q, mid)
    ensures Removed(mid, q) == lines <==> !NoItem(lines, place.block, place.end, lines[s].indent + 2)
    ensures Removed(mid, q) == lines ==> q.Block? && q.entry == Some(place.end)
  {
    SpanFound(lines, mid, project, edit, s, e, place, t, g);
    NewEntryTakenBack(lines, mid, project, edit, s, e, place, q);
  }

  /** No entries stand between the project's first line and the next line that closes a block. */
  ghost predicate NoStrays(lines: seq<Line>, s: nat, e: nat)
    requires s < e <= |lines|
  {
    var indent := lines[s].indent + 2;
    NoItem(lines, s, FirstClose(lines, s, e, indent), indent)
  }

  /** If all the lines are back so is the file, as long as the entry taken out was not the last line. */
  lemma FileIsBack(f: File, mid: File, q: Place, k: nat)
    requires IsOrdered(q, mid.lines) && mid.ended == f.ended && (!f.ended ==> k + 1 < |mid.lines|)
    requires Removed(mid.lines, q) == f.lines ==> q.Block? && q.entry == Some(k)
    ensures RemovedFile(mid, q) == f <==> Removed(mid.lines, q) == f.lines
  {
  }

  lemma BlockIsUndone(f: File, mid: File, project: string, edit: Edit, s: nat, e: nat, t: nat, g: nat, q: Place)
    requires mid.ended == f.ended && |mid.lines| == |f.lines| + 2 && (!f.ended ==> s + 1 < |f.lines|)
    requires IsPut(f.lines, mid.lines, project, edit, s, e, NoBlock)
    requires IsSpan(mid.lines, project, t, g)
    requires IsPlace(mid.lines, t, g, mid.lines[t].indent + 2, edit.block, edit.key, q)
    ensures IsOrdered(q, mid.lines)
    ensures RemovedFile(mid, q) == f <==> NoStrays(f.lines, s, e)
  {
    NewBlockUndone(f.lines, mid.lines, project, edit, s, e, t, g, q);
    FileIsBack(f, mid, q, s + 2);
  }

  lemma EntryIsUndone(f: File, mid: File, project: string, edit: Edit, s: nat, e: nat, place: Place, t: nat, g: nat,
                      q: Place)
    requires place.Block? && place.entry.None? && mid.ended == f.ended && |mid.lines| == |f.lines| + 1
    requires !f.ended ==> place.end < |f.lines|
    requires IsPut(f.lines, mid.lines, project, edit, s, e, place)
    requires IsSpan(mid.lines, project, t, g)
    requires IsPlace(mid.lines, t, g, mid.lines[t].indent + 2, edit.block, edit.key, q)
    ensures IsOrdered(q, mid.lines)
    ensures RemovedFile(mid, q) == f <==> !NoItem(f.lines, place.block, place.end, f.lines[s].indent + 2)
  {
    NewEntryUndone(f.lines, mid.lines, project, edit, s, e, place, t, g, q);
    FileIsBack(f, mid, q, place.end);
  }

  lemma PlaceIsOrdered(f: File, project: string, edit: Edit, s: nat, e: nat, place: Place)
    requires IsAt(f, project, edit, s, e, place)
    ensures IsOrdered(place, f.lines)
  {
  }

  ghost predicate PutsFile(f: File, mid: File, project: string, edit: Edit, s: nat, e: nat, place: Place) {
    && EditedFile(f, mid, project, edit, s, e, place) && (place.NoBlock? || place.entry.None?)
    && !edit.remove && Printed(edit, f.lines[s].indent + 2)
  }

  lemma JoinedIsLost(f: File, mid: File, project: string, edit: Edit, s: nat, e: nat, place: Place, q: Place)
    requires PutsFile(f, mid, project, edit, s, e, place) && Glues(f, s, place)
    requires edit.header.text != "" && edit.entry.text != "" && IsOrdered(q, mid.lines)
    ensures RemovedFile(mid, q) != f
  {
    GluedPut(f, s, edit, place);
    GluedIsLost(f.lines, if place.NoBlock? then [edit.header, edit.entry] else [edit.entry], mid.lines, q);
  }

  lemma UnjoinedBlock(f: File, mid: File, project: string, edit: Edit, s: nat, e: nat, t: nat, g: nat, q: Place)
    requires PutsFile(f, mid, project, edit, s, e, NoBlock) && !Glues(f, s, NoBlock)
    requires IsAt(mid, project, edit, t, g, q)
    ensures IsOrdered(q, mid.lines) && (RemovedFile(mid, q) == f <==> NoStrays(f.lines, s, e))
  {
    UngluedIsEdited(f, mid, project, edit, s, e, NoBlock);
    PutEnds(f, mid, project, edit, s, e, NoBlock);
    BlockIsUndone(f, mid, project, edit, s, e, t, g, q);
  }

  lemma UnjoinedEntry(f: File, mid: File, project: string, edit: Edit, s: nat, e: nat, place: Place, t: nat, g: nat,
                      q: Place)
    requires place.Block? && PutsFile(f, mid, project, edit, s, e, place) && !Glues(f, s, place)
    requires IsAt(mid, project, edit, t, g, q)
    ensures IsOrdered(q, mid.lines)
    ensures RemovedFile(mid, q) == f <==> !NoItem(f.lines, place.block, place.end, f.lines[s].indent + 2)
  {
    UngluedIsEdited(f, mid, project, edit, s, e, place);
    PutEnds(f, mid, project, edit, s, e, place);
    EntryIsUndone(f, mid, project, edit, s, e, place, t, g, q);
  }

  /** The edit prints the lines it should. */
  ghost predicate Prints(edit: Edit, indent: nat) {
    Printed(edit, indent) && edit.header.text != "" && edit.entry.text != "" && !edit.remove
  }

  lemma EditPrints(indent: nat, block: string, key: string, value: string)
    requires PlainName(block) && PlainName(key)
    ensures Prints(EditFor(indent, block, key, value, false), indent)
  {
    EditIsPrinted(indent, block, key, value, false);
  }

  /** The second call takes out what the first has put in. */
  ghost predicate PutAndRemoved(f: File, mid: File, back: File, project: string, edit: Edit, s: nat, e: nat,
                                place: Place,
                                t: nat, g: nat, q: Place) {
    && EditedFile(f, mid, project, edit, s, e, place) && Prints(edit, f.lines[s].indent + 2)
    && EditedFile(mid, back, project, Undo(edit), t, g, q)
  }

  lemma JoinedStays(f: File, mid: File, back: File, project: string, edit: Edit, s: nat, e: nat, place: Place,
                    t: nat, g: nat, q: Place)
    requires PutAndRemoved(f, mid, back, project, edit, s, e, place, t, g, q) && Glues(f, s, place)
    requires place.NoBlock? || place.entry.None?
    ensures back != f
  {
    PlaceIsOrdered(mid, project, Undo(edit), t, g, q);
    JoinedIsLost(f, mid, project, edit, s, e, place, q);
  }

  lemma UnjoinedBlockBack(f: File, mid: File, back: File, project: string, edit: Edit, s: nat, e: nat, t: nat, g: nat,
                          q: Place)
    requires PutAndRemoved(f, mid, back, project, edit, s, e, NoBlock, t, g, q) && !Glues(f, s, NoBlock)
    ensures back == f <==> NoStrays(f.lines, s, e)
  {
    UnjoinedBlock(f, mid, project, edit, s, e, t, g, q);
  }

  lemma UnjoinedEntryBack(f: File, mid: File, back: File, project: string, edit: Edit, s: nat, e: nat, place: Place,
                          t: nat, g: nat, q: Place)
    requires PutAndRemoved(f, mid, back, project, edit, s, e, place, t, g, q) && !Glues(f, s, place)
    requires place.Block? && place.entry.None?
    ensures back == f <==> !NoItem(f.lines, place.block, place.end, f.lines[s].indent + 2)
  {
    UnjoinedEntry(f, mid, project, edit, s, e, place, t, g, q);
  }

  /**
   A new block with its entry, removed by the next call, leaves the file as it was exactly when no stray
   entries follow the project's first line, and that line is not the last one and without a break.
   */
  lemma NewBlockIsReversible(f: File, mid: File, back: File, project: string, edit: Edit, s: nat, e: nat,
                             t: nat, g: nat, q: Place)
    requires PutAndRemoved(f, mid, back, project, edit, s, e, NoBlock, t, g, q)
    ensures back == f <==> NoStrays(f.lines, s, e) && (f.ended || s + 1 < |f.lines|)
  {
    if Glues(f, s, NoBlock) {
      JoinedStays(f, mid, back, project, edit, s, e, NoBlock, t, g, q);
    } else {
      UnjoinedBlockBack(f, mid, back, project, edit, s, e, t, g, q);
    }
  }

  /**
   A new entry in a block, removed by the next call, leaves the file as it was exactly when the block held
   an entry before, and does not end with a last line without a break.
   */
  lemma NewEntryIsReversible(f: File, mid: File, back: File, project: string, edit: Edit, s: nat, e: nat, place: Place,
                             t: nat, g: nat, q: Place)
    requires PutAndRemoved(f, mid, back, project, edit, s, e, place, t, g, q) && place.Block? && place.entry.None?
    ensures back == f <==>
      !NoItem(f.lines, place.block, place.end, f.lines[s].indent + 2) && (f.ended || place.end < |f.lines|)
  {
    if Glues(f, s, place) {
      JoinedStays(f, mid, back, project, edit, s, e, place, t, g, q);
    } else {
      UnjoinedEntryBack(f, mid, back, project, edit, s, e, place, t, g, q);
    }
  }
}
