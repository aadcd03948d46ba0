/**
 The walk over memory files and what they import (collectors/config_resolve.py): which files it
 lists, in which order, and at which depths.
 */
module MemoryWalk {
  import opened Results

  type Path = string

  /** A path that names a file: where it resolves to, and the paths it imports, if it can be read. */
  datatype File = File(target: Path, imports: Option<seq<Path>>)

  /** The paths that name files.  Any other path fails to resolve or is no file. */
  type Files = map<Path, File>

  datatype Found = Found(path: Path, depth: nat)

  function Imports(files: Files, path: Path): seq<Path>
    requires path in files
  {
    if files[path].imports.Some? then files[path].imports.value else []
  }

  function Targets(files: Files): set<Path> {
    set path | path in files :: files[path].target
  }

  // ------------------------------------------------------------------- what a listing promises

  /** The files a listing names. */
  ghost function Listed(files: Files, out: seq<Found>): set<Path> {
    set k | 0 <= k < |out| && out[k].path in files :: files[out[k].path].target
  }

  ghost predicate ListedOnce(files: Files, out: seq<Found>) {
    && (forall k :: 0 <= k < |out| ==> out[k].path in files)
    && (forall i, j :: 0 <= i < j < |out| ==> files[out[i].path].target != files[out[j].path].target)
  }

  /** The first `i` of the paths are listed, if they name files. */
  ghost predicate FirstListed(files: Files, paths: seq<Path>, i: nat, listed: set<Path>)
    requires i <= |paths|
  {
    forall h :: 0 <= h < i && paths[h] in files ==> files[paths[h]].target in listed
  }

  /** Whatever the path imports is listed. */
  ghost predicate Followed(files: Files, path: Path, listed: set<Path>) {
    path in files && FirstListed(files, Imports(files, path), |Imports(files, path)|, listed)
  }

  /** All entries from `i` on are followed. */
  ghost predicate AllFollowed(files: Files, out: seq<Found>, i: nat, listed: set<Path>) {
    forall h :: i <= h < |out| ==> Followed(files, out[h].path, listed)
  }

  ghost predicate DeepFrom(out: seq<Found>, i: nat, depth: nat) {
    forall h :: i <= h < |out| ==> out[h].depth >= depth
  }

  /** The last entry is entry `j`'s import number `i`: all that comes earlier in depth-first order is listed already. */
  ghost predicate ImportedBy(files: Files, out: seq<Found>, last: Found, j: nat, i: nat)
    requires j < |out|
  {
    && out[j].path in files
    && i < |Imports(files, out[j].path)|
    && last == Found(Imports(files, out[j].path)[i], out[j].depth + 1)
    && FirstListed(files, Imports(files, out[j].path), i, Listed(files, out))
    && AllFollowed(files, out, j + 1, Listed(files, out))
    && DeepFrom(out, j + 1, last.depth)
  }

  /** The last entry is entry file number `i`, with all before it followed to the end. */
  ghost predicate IsRoot(files: Files, entries: seq<Path>, out: seq<Found>, last: Found, i: nat) {
    && i < |entries|
    && last == Found(entries[i], 0)
    && FirstListed(files, entries, i, Listed(files, out))
    && AllFollowed(files, out, 0, Listed(files, out))
  }

  ghost predicate HasParent(files: Files, out: seq<Found>, last: Found, from: nat) {
    exists j: nat, i: nat :: from <= j < |out| && ImportedBy(files, out, last, j, i)
  }

  /** Every entry from `k` on hangs below one at `from` or later. */
  ghost predicate Hanging(files: Files, out: seq<Found>, from: nat, k: nat) {
    forall h :: k <= h < |out| ==> HasParent(files, out[..h], out[h], from)
  }

  ghost predicate Placed(files: Files, entries: seq<Path>, out: seq<Found>, last: Found) {
    HasParent(files, out, last, 0) || exists i: nat :: IsRoot(files, entries, out, last, i)
  }

  ghost predicate AllPlaced(files: Files, entries: seq<Path>, out: seq<Found>) {
    forall h :: 0 <= h < |out| ==> Placed(files, entries, out[..h], out[h])
  }

  // ------------------------------------------------------------------- the walk

  class Walk {
    const files: Files
    var seen: set<Path>
    var out: seq<Found>

    ghost predicate Valid()
      reads this
    {
      ListedOnce(files, out) && seen == Listed(files, out) && seen <= Targets(files)
    }

    constructor (files: Files)
      ensures Valid() && this.files == files && out == []
    {
      this.files, seen, out := files, {}, [];
    }

    /** What a visit adds: a tree of entries hanging from its first one, all of them followed. */
    method Visit(path: Path, depth: nat)
      requires Valid()
      modifies this
      decreases Targets(files) - seen, 1
      ensures Valid() && old(seen) <= seen
      ensures path in files ==> files[path].target in seen
      ensures GrewBy(files, old(out), out, Found(path, depth), seen)
    {
      if path !in files || files[path].target in seen {
        return;
      }
      Add(path, depth);
      if files[path].imports.Some? {
        VisitImports(path, files[path].imports.value, depth);
      }
    }

    method Add(path: Path, depth: nat)
      requires Valid() && path in files && files[path].target !in seen
      modifies this
      ensures Valid() && out == old(out) + [Found(path, depth)] && seen == old(seen) + {files[path].target}
      ensures files[path].target in Targets(files)
    {
      seen := seen + {files[path].target};
      out := out + [Found(path, depth)];
      ListedOneMore(files, old(out), Found(path, depth));
    }

    /** Visits what the last entry imports. */
    method VisitImports(path: Path, imports: seq<Path>, depth: nat)
      requires Valid() && path in files && Imports(files, path) == imports
      requires out != [] && out[|out| - 1] == Found(path, depth)
      modifies this
      decreases Targets(files) - seen, 2
      ensures Valid() && old(seen) <= seen && old(out) <= out
      ensures AllFollowed(files, out, |old(out)| - 1, seen)
      ensures DeepFrom(out, |old(out)| - 1, depth)
      ensures Hanging(files, out, |old(out)| - 1, |old(out)|)
    {
      ghost var parent := |out| - 1;
      for i := 0 to |imports|
        invariant Valid() && old(seen) <= seen && old(out) <= out
        invariant FirstListed(files, imports, i, seen)
        invariant Below(files, out, parent, seen)
      {
        ghost var before, seenBefore := out, seen;
        assert before[parent] == Found(path, depth);
        Visit(imports[i], depth + 1);
        FirstListedMore(files, imports, i, seenBefore, seen);
        Hang(files, before, out, parent, i, seenBefore, seen);
      }
      AllFollowedFrom(files, out, parent, seen);
    }
  }

  /** The listing grew by a tree of entries hanging from a first one, all of them followed. */
  ghost predicate GrewBy(files: Files, before: seq<Found>, out: seq<Found>, first: Found, listed: set<Path>) {
    && before <= out
    && (|out| > |before| ==> out[|before|] == first)
    && AllFollowed(files, out, |before|, listed)
    && DeepFrom(out, |before|, first.depth)
    && Hanging(files, out, |before|, |before| + 1)
  }

  /** What follows entry `parent` are finished trees hanging below it. */
  ghost predicate Below(files: Files, out: seq<Found>, parent: nat, listed: set<Path>)
    requires parent < |out|
  {
    && AllFollowed(files, out, parent + 1, listed)
    && DeepFrom(out, parent + 1, out[parent].depth + 1)
    && Hanging(files, out, parent, parent + 1)
  }

  lemma ListedOneMore(files: Files, out: seq<Found>, last: Found)
    requires last.path in files
    ensures Listed(files, out + [last]) == Listed(files, out) + {files[last.path].target}
  {
    var more := out + [last];
    assert more[|out|] == last;
    assert forall k :: 0 <= k < |out| ==> more[k] == out[k];
  }

  lemma FirstListedMore(files: Files, paths: seq<Path>, i: nat, listed: set<Path>, more: set<Path>)
    requires i < |paths| && FirstListed(files, paths, i, listed) && listed <= more
    requires paths[i] in files ==> files[paths[i]].target in more
    ensures FirstListed(files, paths, i + 1, more)
  {
  }

  lemma AllFollowedFrom(files: Files, out: seq<Found>, i: nat, listed: set<Path>)
    requires i < |out| && Followed(files, out[i].path, listed) && AllFollowed(files, out, i + 1, listed)
    ensures AllFollowed(files, out, i, listed)
  {
  }

  lemma FollowedStays(files: Files, before: seq<Found>, out: seq<Found>, i: nat, listed: set<Path>, more: set<Path>)
    requires before <= out && listed <= more
    requires AllFollowed(files, before, i, listed) && AllFollowed(files, out, |before|, more)
    ensures AllFollowed(files, out, i, more)
  {
    forall h | i <= h < |before| ensures Followed(files, out[h].path, more) {
      assert Followed(files, before[h].path, listed);
    }
  }

  lemma HangingStays(files: Files, before: seq<Found>, out: seq<Found>, from: nat, k: nat)
    requires before <= out && from <= |before|
    requires Hanging(files, before, from, k) && Hanging(files, out, |before|, |before| + 1)
    requires k <= |before| < |out| ==> HasParent(files, before, out[|before|], from)
    ensures Hanging(files, out, from, k)
  {
    forall h | k <= h < |out| ensures HasParent(files, out[..h], out[h], from) {
      if h < |before| {
        assert out[..h] == before[..h];
      } else if h == |before| {
        assert out[..h] == before;
      } else {
        var j: nat, i: nat :| |before| <= j < h && ImportedBy(files, out[..h], out[h], j, i);
      }
    }
  }

  /** Entries visited for import `i` of entry `parent` hang below it, and earlier ones stay where they were. */
  lemma Hang(files: Files, before: seq<Found>, out: seq<Found>, parent: nat, i: nat, listed: set<Path>, more: set<Path>)
    requires parent < |before| && before[parent].path in files && i < |Imports(files, before[parent].path)|
    requires listed == Listed(files, before) && listed <= more
    requires FirstListed(files, Imports(files, before[parent].path), i, listed)
    requires Below(files, before, parent, listed)
    requires GrewBy(files, before, out, Found(Imports(files, before[parent].path)[i], before[parent].depth + 1), more)
    ensures Below(files, out, parent, more)
  {
    FollowedStays(files, before, out, parent + 1, listed, more);
    if |out| > |before| {
      assert ImportedBy(files, before, out[|before|], parent, i);
    }
    HangingStays(files, before, out, parent, parent + 1);
  }

  /** Every file once, entry files and imports included, each placed in depth-first order. */
  ghost predicate Outline(files: Files, entries: seq<Path>, out: seq<Found>) {
    && ListedOnce(files, out)
    && FirstListed(files, entries, |entries|, Listed(files, out))
    && AllFollowed(files, out, 0, Listed(files, out))
    && AllPlaced(files, entries, out)
  }

  method WalkMemory(files: Files, entries: seq<Path>) returns (out: seq<Found>)
    ensures Outline(files, entries, out)
  {
    var walk := new Walk(files);
    for i := 0 to |entries|
      invariant walk.Valid() && walk.files == files
      invariant FirstListed(files, entries, i, walk.seen)
      invariant AllFollowed(files, walk.out, 0, walk.seen)
      invariant AllPlaced(files, entries, walk.out)
    {
      ghost var before, seen := walk.out, walk.seen;
      walk.Visit(entries[i], 0);
      FollowedStays(files, before, walk.out, 0, seen, walk.seen);
      RootsStay(files, entries, before, walk.out, i, walk.seen);
    }
    out := walk.out;
  }

  lemma RootsStay(files: Files, entries: seq<Path>, before: seq<Found>, out: seq<Found>, i: nat, more: set<Path>)
    requires i < |entries| && GrewBy(files, before, out, Found(entries[i], 0), more)
    requires FirstListed(files, entries, i, Listed(files, before))
    requires AllFollowed(files, before, 0, Listed(files, before))
    requires AllPlaced(files, entries, before)
    ensures AllPlaced(files, entries, out)
  {
    forall h | 0 <= h < |out|
      ensures Placed(files, entries, out[..h], out[h])
    {
      if h < |before| {
        assert out[..h] == before[..h];
      } else if h == |before| {
        assert out[..h] == before;
        assert IsRoot(files, entries, out[..h], out[h], i);
      } else {
        assert HasParent(files, out[..h], out[h], |before|);
        var j: nat, k: nat :| |before| <= j < h && ImportedBy(files, out[..h], out[h], j, k);
      }
    }
  }

  // ------------------------------------------------------------------- what an outline comes to

  /** Some chain of `n` imports leads from an entry file to the path, which names a file. */
  ghost predicate Chain(files: Files, entries: seq<Path>, path: Path, n: nat)
    decreases n
  {
    path in files &&
    if n == 0 then path in entries
    else exists q :: Chain(files, entries, q, n - 1) && path in Imports(files, q)
  }

  /** Every depth is the length of a real chain of imports from an entry file. */
  lemma {:induction false} DepthIsAChain(files: Files, entries: seq<Path>, out: seq<Found>, k: nat)
    requires ListedOnce(files, out) && AllPlaced(files, entries, out) && k < |out|
    ensures Chain(files, entries, out[k].path, out[k].depth)
  {
    var j := Importer(files, entries, out, k);
    if j.Some? {
      DepthIsAChain(files, entries, out, j.value);
      ChainStep(files, entries, out[j.value].path, out[j.value].depth, out[k].path);
    }
  }

  lemma Importer(files: Files, entries: seq<Path>, out: seq<Found>, k: nat) returns (j: Option<nat>)
    requires ListedOnce(files, out) && AllPlaced(files, entries, out) && k < |out|
    ensures j.None? ==> out[k].depth == 0 && out[k].path in entries
    ensures j.Some? ==>
      && j.value < k && out[k].depth == out[j.value].depth + 1
      && out[j.value].path in files && out[k].path in Imports(files, out[j.value].path)
  {
    var last, earlier := out[k], out[..k];
    assert Placed(files, entries, earlier, last);
    if HasParent(files, earlier, last, 0) {
      var h: nat, i: nat :| h < k && ImportedBy(files, earlier, last, h, i);
      j := Some(h);
    } else {
      j := None;
    }
  }

  lemma ChainStep(files: Files, entries: seq<Path>, q: Path, n: nat, path: Path)
    requires Chain(files, entries, q, n) && path in files && path in Imports(files, q)
    ensures Chain(files, entries, path, n + 1)
  {
  }

  /** Paths to the same file import the same files. */
  ghost predicate Coherent(files: Files) {
    forall p, q | p in files && q in files && files[p].target == files[q].target ::
      forall i | i in Imports(files, p) && i in files :: ImportsToo(files, q, files[i].target)
  }

  ghost predicate ImportsToo(files: Files, q: Path, target: Path)
    requires q in files
  {
    var imports := Imports(files, q);
    exists j :: 0 <= j < |imports| && imports[j] in files && files[imports[j]].target == target
  }

  /** If the one path's file is listed then so is the other's, which it imports. */
  ghost predicate Carries(files: Files, listed: set<Path>, q: Path, path: Path)
    requires q in files && path in files
  {
    files[q].target in listed && path in Imports(files, q) ==> files[path].target in listed
  }

  ghost predicate Closed(files: Files, listed: set<Path>) {
    forall q, path | q in files && path in files :: Carries(files, listed, q, path)
  }

  /** Every file some chain of imports reaches is in any set that holds the entry files and is closed. */
  lemma {:induction false} ReachedIsIn(files: Files, entries: seq<Path>, listed: set<Path>, path: Path, n: nat)
    requires FirstListed(files, entries, |entries|, listed) && Closed(files, listed) && Chain(files, entries, path, n)
    ensures files[path].target in listed
    decreases n
  {
    if n > 0 {
      var q := ChainBefore(files, entries, path, n);
      ReachedIsIn(files, entries, listed, q, n - 1);
      assert Carries(files, listed, q, path);
    } else {
      var h :| 0 <= h < |entries| && entries[h] == path;
    }
  }

  lemma ChainBefore(files: Files, entries: seq<Path>, path: Path, n: nat) returns (q: Path)
    requires n > 0 && Chain(files, entries, path, n)
    ensures Chain(files, entries, q, n - 1) && q in files && path in Imports(files, q)
  {
    q :| Chain(files, entries, q, n - 1) && path in Imports(files, q);
  }

  lemma OutlineIsClosed(files: Files, entries: seq<Path>, out: seq<Found>)
    requires Outline(files, entries, out) && Coherent(files)
    ensures Closed(files, Listed(files, out))
  {
    forall q, path | q in files && path in files
      ensures Carries(files, Listed(files, out), q, path)
    {
      if files[q].target in Listed(files, out) && path in Imports(files, q) {
        var k :| 0 <= k < |out| && out[k].path in files && files[out[k].path].target == files[q].target;
        assert ImportsToo(files, out[k].path, files[path].target);
        assert Followed(files, out[k].path, Listed(files, out));
      }
    }
  }

  ghost predicate Reached(files: Files, entries: seq<Path>, target: Path) {
    exists path, n: nat :: Chain(files, entries, path, n) && files[path].target == target
  }

  /** The walk lists exactly the files that chains of imports reach, whatever cycles they form. */
  lemma ListsExactlyTheReached(files: Files, entries: seq<Path>, out: seq<Found>, target: Path)
    requires Outline(files, entries, out) && Coherent(files)
    ensures target in Listed(files, out) <==> Reached(files, entries, target)
  {
    if target in Listed(files, out) {
      var k :| 0 <= k < |out| && files[out[k].path].target == target;
      DepthIsAChain(files, entries, out, k);
    }
    if Reached(files, entries, target) {
      var path, n: nat :| Chain(files, entries, path, n) && files[path].target == target;
      OutlineIsClosed(files, entries, out);
      ReachedIsIn(files, entries, Listed(files, out), path, n);
    }
  }

  // ------------------------------------------------------------------- an outline leaves no choice

  /** Two outlines that agree so far agree on the next entry. */
  lemma SameNext(files: Files, entries: seq<Path>, a: seq<Found>, b: seq<Found>, k: nat)
    requires ListedOnce(files, a) && AllPlaced(files, entries, a)
    requires ListedOnce(files, b) && AllPlaced(files, entries, b)
    requires k < |a| && k < |b| && a[..k] == b[..k]
    ensures a[k] == b[k]
  {
    NotYetListed(files, a, k);
    NotYetListed(files, b, k);
    SamePlace(files, entries, a[..k], a[k], b[k]);
  }

  lemma SamePlace(files: Files, entries: seq<Path>, out: seq<Found>, x: Found, y: Found)
    requires Placed(files, entries, out, x) && Placed(files, entries, out, y)
    requires x.path in files && files[x.path].target !in Listed(files, out)
    requires y.path in files && files[y.path].target !in Listed(files, out)
    ensures x == y
  {
    if HasParent(files, out, x, 0) {
      SameParent(files, entries, out, x, y);
    } else if HasParent(files, out, y, 0) {
      SameParent(files, entries, out, y, x);
    } else {
      var i: nat :| IsRoot(files, entries, out, x, i);
      var h: nat :| IsRoot(files, entries, out, y, h);
    }
  }

  lemma NotYetListed(files: Files, out: seq<Found>, k: nat)
    requires ListedOnce(files, out) && k < |out|
    ensures out[k].path in files && files[out[k].path].target !in Listed(files, out[..k])
  {
  }

  lemma SameParent(files: Files, entries: seq<Path>, out: seq<Found>, x: Found, y: Found)
    requires HasParent(files, out, x, 0) && Placed(files, entries, out, y)
    requires x.path in files && files[x.path].target !in Listed(files, out)
    requires y.path in files && files[y.path].target !in Listed(files, out)
    ensures x == y
  {
    var j: nat, i: nat :| j < |out| && ImportedBy(files, out, x, j, i);
    if HasParent(files, out, y, 0) {
      var h: nat, g: nat :| h < |out| && ImportedBy(files, out, y, h, g);
      if j < h {
      } else if h < j {
      }
    }
  }

  /** An outline is complete: none goes on where another ends. */
  lemma NoneLonger(files: Files, entries: seq<Path>, a: seq<Found>, b: seq<Found>)
    requires Outline(files, entries, a) && Outline(files, entries, b) && a <= b
    ensures a == b
  {
    if |a| < |b| {
      assert b[..|a|] == a;
      NotYetListed(files, b, |a|);
    }
  }

  lemma {:induction false} SamePrefix(files: Files, entries: seq<Path>, a: seq<Found>, b: seq<Found>, k: nat)
    requires ListedOnce(files, a) && AllPlaced(files, entries, a)
    requires ListedOnce(files, b) && AllPlaced(files, entries, b)
    requires k <= |a| && k <= |b|
    ensures a[..k] == b[..k]
  {
    if k > 0 {
      SamePrefix(files, entries, a, b, k - 1);
      SameNext(files, entries, a, b, k - 1);
      assert a[..k] == a[..k - 1] + [a[k - 1]];
      assert b[..k] == b[..k - 1] + [b[k - 1]];
    }
  }

  /** Only one listing is an outline: what the walk returns is settled down to the order and the depths. */
  lemma OutlineIsUnique(files: Files, entries: seq<Path>, a: seq<Found>, b: seq<Found>)
    requires Outline(files, entries, a) && Outline(files, entries, b)
    ensures a == b
  {
    if |a| <= |b| {
      SamePrefix(files, entries, a, b, |a|);
      assert a[..|a|] == a;
      NoneLonger(files, entries, a, b);
    } else {
      SamePrefix(files, entries, a, b, |b|);
      assert b[..|b|] == b;
      NoneLonger(files, entries, b, a);
    }
  }

  /**
   A file named by two paths is read under whichever comes first, and its imports are taken relative
   to that path: what only the other path leads to is missed.
   */
  lemma AliasHidesImports(out: seq<Found>)
    requires Outline(ALIASED, ["/a/m", "/b/m"], out)
    ensures out == [Found("/a/m", 0)]
    ensures Reached(ALIASED, ["/a/m", "/b/m"], "/b/n")
  {
    assert Chain(ALIASED, ["/a/m", "/b/m"], "/b/m", 0);
    ChainStep(ALIASED, ["/a/m", "/b/m"], "/b/m", 0, "/b/n");
    var expected := [] + [Found("/a/m", 0)];
    assert expected[..0] == [];
    ListedOneMore(ALIASED, [], Found("/a/m", 0));
    assert IsRoot(ALIASED, ["/a/m", "/b/m"], [], expected[0], 0);
    OutlineIsUnique(ALIASED, ["/a/m", "/b/m"], out, expected);
  }

  const ALIASED: Files :=
    map["/a/m" := File("/b/m", Some(["/a/n"])),
        "/b/m" := File("/b/m", Some(["/b/n"])),
        "/b/n" := File("/b/n", Some([]))]

  /** The depth need not be the shortest: a file met first down a long chain keeps that chain's length. */
  lemma DepthIsNotShortest(out: seq<Found>)
    requires Outline(SHORTCUT, ["a"], out)
    ensures out == [Found("a", 0), Found("b", 1), Found("c", 2)]
    ensures Chain(SHORTCUT, ["a"], "c", 1)
  {
    assert Chain(SHORTCUT, ["a"], "a", 0);
    ChainStep(SHORTCUT, ["a"], "a", 0, "c");
    ShortcutOutline();
    OutlineIsUnique(SHORTCUT, ["a"], out, LONGWAY);
  }

  const SHORTCUT: Files :=
    map["a" := File("a", Some(["b", "c"])), "b" := File("b", Some(["c"])), "c" := File("c", Some([]))]

  const LONGWAY: seq<Found> := [Found("a", 0), Found("b", 1), Found("c", 2)]

  lemma ShortcutOutline()
    ensures Outline(SHORTCUT, ["a"], LONGWAY)
  {
    ShortcutListed();
    ShortcutPlaced();
    ShortcutFollowed();
  }

  lemma ShortcutFollowed()
    ensures AllFollowed(SHORTCUT, LONGWAY, 0, {"a", "b", "c"})
    ensures FirstListed(SHORTCUT, ["a"], 1, {"a", "b", "c"})
  {
    assert Followed(SHORTCUT, "a", {"a", "b", "c"});
    assert Followed(SHORTCUT, "b", {"a", "b", "c"});
    assert Followed(SHORTCUT, "c", {"a", "b", "c"});
  }

  lemma ShortcutListed()
    ensures Listed(SHORTCUT, [Found("a", 0)]) == {"a"}
    ensures Listed(SHORTCUT, [Found("a", 0), Found("b", 1)]) == {"a", "b"}
    ensures Listed(SHORTCUT, LONGWAY) == {"a", "b", "c"}
  {
    var a, ab := [Found("a", 0)], [Found("a", 0), Found("b", 1)];
    ListedOneMore(SHORTCUT, [], Found("a", 0));
    assert [] + [Found("a", 0)] == a;
    ListedOneMore(SHORTCUT, a, Found("b", 1));
    assert a + [Found("b", 1)] == ab;
    ListedOneMore(SHORTCUT, ab, Found("c", 2));
    assert ab + [Found("c", 2)] == LONGWAY;
  }

  lemma ShortcutPlaced()
    ensures AllPlaced(SHORTCUT, ["a"], LONGWAY)
  {
    ShortcutListed();
    var a, ab := [Found("a", 0)], [Found("a", 0), Found("b", 1)];
    assert LONGWAY[..0] == [] && LONGWAY[..1] == a && LONGWAY[..2] == ab;
    assert IsRoot(SHORTCUT, ["a"], [], Found("a", 0), 0);
    assert ImportedBy(SHORTCUT, a, Found("b", 1), 0, 0);
    assert ImportedBy(SHORTCUT, ab, Found("c", 2), 1, 0);
  }
}
