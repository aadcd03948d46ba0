/**
 The issues that rows name after a pass, and whether they are open (collectors/escalations.py).
 */
module EscalationLinks {
  import opened Results
  import opened Receipts
  import opened Brief
  import opened Escalations
  import opened EscalationRuns

  /** Names without spaces make titles that tell all pairs apart. */
  lemma TitlesDiffer(p: Pair, q: Pair)
    requires ' ' !in p.0 && ' ' !in p.1 && ' ' !in q.0 && ' ' !in q.1
    ensures Title(p) == Title(q) <==> p == q
  {
    if Title(p) == Title(q) {
      var lead, mid := |"[foreman] "|, " red on ";
      var s, t := p.1 + (mid + p.0), q.1 + (mid + q.0);
      assert Title(p) == "[foreman] " + s && Title(q) == "[foreman] " + t;
      assert s == Title(p)[lead..] && t == Title(q)[lead..];
      FirstSpace(p.1, q.1, mid + p.0, mid + q.0);
      assert p.0 == s[|p.1| + |mid|..] && q.0 == t[|q.1| + |mid|..];
    }
  }

  lemma FirstSpace(a: string, b: string, x: string, y: string)
    requires ' ' !in a && ' ' !in b && x != "" && y != "" && x[0] == y[0] == ' ' && a + x == b + y
    ensures a == b && x == y
  {
    var s := a + x;
    assert s[|a|] == ' ' && s[|b|] == ' ';
    assert forall i :: 0 <= i < |a| ==> s[i] == a[i] != ' ';
    assert forall i :: 0 <= i < |b| ==> s[i] == b[i] != ' ';
    assert a == s[..|a|] && b == s[..|b|];
  }

  /** The row's project wants issues and its repository answers. */
  predicate CanLink(projects: map<string, Project>, down: set<string>, p: Pair) {
    WantsIssue(projects, p) && projects[p.0].repo.value !in down
  }

  predicate IsLinked(rows: Table, id: EpisodeId) {
    id in rows && rows[id].issue.Some?
  }

  lemma OpeningLinks(s: State, e: Episode, projects: map<string, Project>, down: set<string>, s': State)
    requires OpensTo(s, e, projects, down, s')
    ensures CanLink(projects, down, e.id.pair) ==> IsLinked(s'.rows, e.id)
    ensures forall id :: id != e.id && IsLinked(s.rows, id) ==> IsLinked(s'.rows, id)
  {
    var picked, a :| OpensWith(s, e, projects, down, picked, a, s');
  }

  lemma {:induction false} AllAreLinked(s: State, episodes: seq<Episode>, projects: map<string, Project>,
                                        down: set<string>, s': State, id: EpisodeId)
    requires OpensAllTo(s, episodes, projects, down, s') && Names(episodes, id) && CanLink(projects, down, id.pair)
    ensures IsLinked(s'.rows, id)
    decreases |episodes|
  {
    var mid :| OpensVia(s, episodes, projects, down, mid, s');
    OpeningLinks(mid, episodes[|episodes| - 1], projects, down, s');
    NamesSnoc(episodes, id);
    if episodes[|episodes| - 1].id != id {
      AllAreLinked(s, episodes[..|episodes| - 1], projects, down, mid, id);
    }
  }

  /** After a pass the row of every episode whose project wants issues names one, if the repository answers. */
  lemma RedPairsAreLinked(s: State, episodes: seq<Episode>, projects: map<string, Project>, down: set<string>,
                          s': State)
    requires ReconcilesTo(s, episodes, projects, down, s')
    ensures forall id :: Names(episodes, id) && CanLink(projects, down, id.pair) ==> IsLinked(s'.rows, id)
  {
    forall id | Names(episodes, id) && CanLink(projects, down, id.pair)
      ensures IsLinked(s'.rows, id)
    {
      AllAreLinked(Cleared(s, episodes, projects, down), episodes, projects, down, s', id);
    }
  }

  // ------------------------------------------------------------------- whether the issue is open

  /** The pair's open row, or one of them, names this issue. */
  ghost predicate NamedIssue(rows: Table, p: Pair, n: nat) {
    exists id :: Unresolved(rows, id, p) && rows[id].issue == Some(n)
  }

  ghost predicate HubGrows(hub: GitHub, hub': GitHub) {
    forall i :: i in hub ==> i in hub' && hub'[i] == hub[i]
  }

  /** The rows of one pair are untouched, and so is every issue there was. */
  ghost predicate LeavesPair(s: State, s': State, p: Pair) {
    && HubGrows(s.hub, s'.hub)
    && (forall id: EpisodeId :: id.pair == p ==> (id in s.rows <==> id in s'.rows))
    && (forall id: EpisodeId :: id.pair == p && id in s.rows ==> s'.rows[id] == s.rows[id])
  }

  lemma OpeningLeavesOthers(s: State, e: Episode, projects: map<string, Project>, down: set<string>, s': State, p: Pair)
    requires Keyed(s.rows) && OpensTo(s, e, projects, down, s') && e.id.pair != p
    ensures Keyed(s'.rows) && LeavesPair(s, s', p)
  {
    var picked, a :| OpensWith(s, e, projects, down, picked, a, s');
  }

  lemma {:induction false} AllLeaveOthers(s: State, episodes: seq<Episode>, projects: map<string, Project>,
                                          down: set<string>, s': State, p: Pair)
    requires Keyed(s.rows) && OpensAllTo(s, episodes, projects, down, s') && !IsRedPair(episodes, p)
    ensures Keyed(s'.rows) && LeavesPair(s, s', p)
    decreases |episodes|
  {
    if episodes != [] {
      var n := |episodes| - 1;
      var mid :| OpensVia(s, episodes, projects, down, mid, s');
      assert forall k :: 0 <= k < n ==> episodes[..n][k] == episodes[k];
      AllLeaveOthers(s, episodes[..n], projects, down, mid, p);
      OpeningLeavesOthers(mid, episodes[n], projects, down, s', p);
    }
  }

  /** The issue a row names: the one its pair had, as it was, or if it had none an open one. */
  ghost predicate NamesRightIssue(before: State, after: State, id: EpisodeId, repo: string) {
    && IsLinked(after.rows, id)
    && (forall n: nat :: NamedIssue(before.rows, id.pair, n) && IssueId(repo, n) in before.hub ==>
          && after.rows[id].issue == Some(n) && IssueId(repo, n) in after.hub
          && after.hub[IssueId(repo, n)] == before.hub[IssueId(repo, n)])
    && ((forall n: nat :: !NamedIssue(before.rows, id.pair, n)) ==>
          IsOpenIssue(after.hub, repo, Title(id.pair), after.rows[id].issue.value))
  }

  ghost predicate OneRow(rows: Table, p: Pair) {
    forall a, b :: Unresolved(rows, a, p) && Unresolved(rows, b, p) ==> a == b
  }

  lemma OwnOpening(s: State, e: Episode, projects: map<string, Project>, down: set<string>, s': State)
    requires Keyed(s.rows) && OneRow(s.rows, e.id.pair) && OpensTo(s, e, projects, down, s')
    requires CanLink(projects, down, e.id.pair)
    ensures Keyed(s'.rows) && NamesRightIssue(s, s', e.id, projects[e.id.pair.0].repo.value)
  {
    var p := e.id.pair;
    var picked, a :| OpensWith(s, e, projects, down, picked, a, s');
    var known := KnownIssue(s.rows, picked);
    assert known.Some? ==> NamedIssue(s.rows, p, known.value);
    forall n: nat | NamedIssue(s.rows, p, n)
      ensures known == Some(n)
    {
      var id :| Unresolved(s.rows, id, p) && s.rows[id].issue == Some(n);
      assert picked == Some(id);
    }
  }

  lemma RightIssueStays(s: State, mid: State, s': State, id: EpisodeId, repo: string)
    requires NamesRightIssue(s, mid, id, repo) && LeavesPair(mid, s', id.pair)
    ensures NamesRightIssue(s, s', id, repo)
  {
  }

  lemma SameNamedIssues(s: State, mid: State, p: Pair, n: nat)
    requires Keyed(s.rows) && Keyed(mid.rows) && LeavesPair(s, mid, p)
    ensures NamedIssue(mid.rows, p, n) <==> NamedIssue(s.rows, p, n)
  {
    if NamedIssue(mid.rows, p, n) {
      var id :| Unresolved(mid.rows, id, p) && mid.rows[id].issue == Some(n);
      assert Unresolved(s.rows, id, p);
    }
    if NamedIssue(s.rows, p, n) {
      var id :| Unresolved(s.rows, id, p) && s.rows[id].issue == Some(n);
      assert Unresolved(mid.rows, id, p);
    }
  }

  lemma RightIssueBefore(s: State, mid: State, s': State, id: EpisodeId, repo: string)
    requires Keyed(s.rows) && Keyed(mid.rows) && LeavesPair(s, mid, id.pair) && NamesRightIssue(mid, s', id, repo)
    ensures NamesRightIssue(s, s', id, repo)
  {
    forall n: nat
      ensures NamedIssue(mid.rows, id.pair, n) <==> NamedIssue(s.rows, id.pair, n)
    {
      SameNamedIssues(s, mid, id.pair, n);
    }
  }

  predicate DistinctPairs(episodes: seq<Episode>) {
    forall i, j :: 0 <= i < j < |episodes| ==> episodes[i].id.pair != episodes[j].id.pair
  }

  lemma {:induction false} AllNameRightIssue(s: State, episodes: seq<Episode>, projects: map<string, Project>,
                                             down: set<string>, s': State, id: EpisodeId)
    requires Keyed(s.rows) && OneRow(s.rows, id.pair) && DistinctPairs(episodes) && Names(episodes, id)
    requires OpensAllTo(s, episodes, projects, down, s') && CanLink(projects, down, id.pair)
    ensures Keyed(s'.rows) && NamesRightIssue(s, s', id, projects[id.pair.0].repo.value)
    decreases |episodes|
  {
    var n := |episodes| - 1;
    var init, repo := episodes[..n], projects[id.pair.0].repo.value;
    var mid :| OpensVia(s, episodes, projects, down, mid, s');
    NamesSnoc(episodes, id);
    if episodes[n].id == id {
      assert forall k :: 0 <= k < n ==> init[k] == episodes[k];
      AllLeaveOthers(s, init, projects, down, mid, id.pair);
      OneRowStays(s, mid, id.pair);
      OwnOpening(mid, episodes[n], projects, down, s');
      RightIssueBefore(s, mid, s', id, repo);
    } else {
      var k :| 0 <= k < n && init[k].id == id;
      assert episodes[k].id == id;
      AllNameRightIssue(s, init, projects, down, mid, id);
      OpeningLeavesOthers(mid, episodes[n], projects, down, s', id.pair);
      RightIssueStays(s, mid, s', id, repo);
    }
  }

  lemma OneRowStays(s: State, mid: State, p: Pair)
    requires Keyed(s.rows) && Keyed(mid.rows) && OneRow(s.rows, p) && LeavesPair(s, mid, p)
    ensures OneRow(mid.rows, p)
  {
    forall id | Unresolved(mid.rows, id, p)
      ensures Unresolved(s.rows, id, p)
    {
    }
  }

  /**
   A pass never reopens an issue.  Whether the one a red pair's row names is open afterwards: it is, if the
   row had none before; and otherwise it is the same one, open iff it was when the pass had closed the issues
   of pairs no longer red.
   */
  lemma LinkedIssueIsOpen(s: State, episodes: seq<Episode>, projects: map<string, Project>, down: set<string>,
                          s': State, id: EpisodeId)
    requires Keyed(s.rows) && OneRowPerPair(s.rows) && DistinctPairs(episodes) && Names(episodes, id)
    requires ReconcilesTo(s, episodes, projects, down, s') && CanLink(projects, down, id.pair)
    ensures NamesRightIssue(Cleared(s, episodes, projects, down), s', id, projects[id.pair.0].repo.value)
    ensures forall n: nat :: NamedIssue(Cleared(s, episodes, projects, down).rows, id.pair, n) <==>
      NamedIssue(s.rows, id.pair, n)
  {
    var cleared := Cleared(s, episodes, projects, down);
    var k :| 0 <= k < |episodes| && episodes[k].id == id;
    assert IsRedPair(episodes, id.pair);
    forall a | Unresolved(cleared.rows, a, id.pair)
      ensures Unresolved(s.rows, a, id.pair)
    {
    }
    AllNameRightIssue(cleared, episodes, projects, down, s', id);
    forall n: nat
      ensures NamedIssue(cleared.rows, id.pair, n) <==> NamedIssue(s.rows, id.pair, n)
    {
      ClearingKeepsNamed(s, episodes, projects, down, id.pair, n);
    }
  }

  lemma ClearingKeepsNamed(s: State, episodes: seq<Episode>, projects: map<string, Project>, down: set<string>,
                           p: Pair, n: nat)
    requires IsRedPair(episodes, p)
    ensures NamedIssue(Cleared(s, episodes, projects, down).rows, p, n) <==> NamedIssue(s.rows, p, n)
  {
    var rows := Cleared(s, episodes, projects, down).rows;
    forall id
      ensures Unresolved(rows, id, p) <==> Unresolved(s.rows, id, p)
      ensures Unresolved(rows, id, p) ==> rows[id] == s.rows[id]
    {
    }
  }

  // ------------------------------------------------------------------- what a row says

  lemma OwnRow(s: State, e: Episode, projects: map<string, Project>, down: set<string>, s': State)
    requires OpensTo(s, e, projects, down, s')
    ensures e.id in s'.rows && s'.rows[e.id].pair == e.id.pair && s'.rows[e.id].run == e.run && !s'.rows[e.id].resolved
  {
    var picked, a :| OpensWith(s, e, projects, down, picked, a, s');
  }

  lemma {:induction false} RowsStayKeyed(s: State, episodes: seq<Episode>, projects: map<string, Project>,
                                         down: set<string>, s': State)
    requires Keyed(s.rows) && OpensAllTo(s, episodes, projects, down, s')
    ensures Keyed(s'.rows)
    decreases |episodes|
  {
    if episodes != [] {
      var n := |episodes| - 1;
      var mid :| OpensVia(s, episodes, projects, down, mid, s');
      RowsStayKeyed(s, episodes[..n], projects, down, mid);
      var picked, a :| OpensWith(mid, episodes[n], projects, down, picked, a, s');
    }
  }

  /** After a pass the row of every episode is open and names the pair and its last run. */
  lemma {:induction false} RowNamesEpisode(s: State, episodes: seq<Episode>, projects: map<string, Project>,
                                           down: set<string>, s': State, k: nat)
    requires Keyed(s.rows) && DistinctPairs(episodes) && k < |episodes|
    requires OpensAllTo(s, episodes, projects, down, s')
    ensures var e := episodes[k];
            e.id in s'.rows && s'.rows[e.id] == s'.rows[e.id].(pair := e.id.pair, run := e.run, resolved := false)
    decreases |episodes|
  {
    var n := |episodes| - 1;
    var mid :| OpensVia(s, episodes, projects, down, mid, s');
    if k == n {
      OwnRow(mid, episodes[n], projects, down, s');
    } else {
      RowNamesEpisode(s, episodes[..n], projects, down, mid, k);
      RowsStayKeyed(s, episodes[..n], projects, down, mid);
      OpeningLeavesOthers(mid, episodes[n], projects, down, s', episodes[k].id.pair);
    }
  }

  /** The unbroken non-green run at the tip begins here; the tip itself is always in it. */
  predicate IsStreakStart(h: History, k: int) {
    && 0 <= k < |h|
    && (forall i :: k <= i < |h| - 1 ==> h[i].verdict != Green && h[i].status != Locked && h[i].status != Skipped)
    && (k > 0 ==> h[k - 1].verdict == Green || h[k - 1].status == Locked || h[k - 1].status == Skipped)
  }

  /**
   A pair has an episode exactly when its last receipt is not late and it has gone red by it; the episode is
   identified by the end of the first receipt of its non-green run, and names the last run.
   */
  lemma EpisodeInWords(p: Pair, h: History, m: Meta, now: int, e: Episode)
    ensures e in EpisodeOf(p, h, m, now) <==>
      && h != [] && !IsLate(h, m, now) && HasGoneRed(h, m, now)
      && e.id.pair == p && e.run == h[|h| - 1].run
      && exists k :: IsStreakStart(h, k) && e.id.firstSeen == h[k].ended
  {
    if h != [] {
      JudgedFromReceipts(h, m, now);
      var start := RunStart(h, NotGreen());
      assert forall i :: start <= i < |h| - 1 ==> NotGreen()(h[i]);
      assert start > 0 ==> !NotGreen()(h[start - 1]);
      assert IsStreakStart(h, start);
      forall k | IsStreakStart(h, k)
        ensures k == start
      {
        assert forall i :: k <= i < |h| - 1 ==> NotGreen()(h[i]);
        RunStartIsUnique(h, NotGreen(), k);
      }
    }
  }

  // ------------------------------------------------------------------- which issues a pass opens

  /** The episode's project wants issues, in this repository, and this is one for it. */
  predicate CallsFor(e: Episode, projects: map<string, Project>, repo: string, issue: Issue) {
    var project := e.id.pair.0;
    && project in projects && projects[project].wantsIssues && projects[project].repo == Some(repo)
    && issue == Issue(Title(e.id.pair), true)
  }

  ghost predicate OnlyCalledFor(hub: GitHub, hub': GitHub, episodes: seq<Episode>, projects: map<string, Project>) {
    forall i :: i in hub' && i !in hub ==>
      exists k :: 0 <= k < |episodes| && CallsFor(episodes[k], projects, i.repo, hub'[i])
  }

  lemma {:induction false} AllAreCalledFor(s: State, episodes: seq<Episode>, projects: map<string, Project>,
                                           down: set<string>, s': State)
    requires OpensAllTo(s, episodes, projects, down, s')
    ensures HubGrows(s.hub, s'.hub) && OnlyCalledFor(s.hub, s'.hub, episodes, projects)
    decreases |episodes|
  {
    if episodes != [] {
      var n := |episodes| - 1;
      var mid :| OpensVia(s, episodes, projects, down, mid, s');
      AllAreCalledFor(s, episodes[..n], projects, down, mid);
      OpeningCallsFor(mid, episodes[n], projects, down, s');
      assert forall k :: 0 <= k < n ==> episodes[..n][k] == episodes[k];
    }
  }

  lemma OpeningCallsFor(s: State, e: Episode, projects: map<string, Project>, down: set<string>, s': State)
    requires OpensTo(s, e, projects, down, s')
    ensures HubGrows(s.hub, s'.hub)
    ensures forall i :: i in s'.hub && i !in s.hub ==> CallsFor(e, projects, i.repo, s'.hub[i])
  {
    var picked, a :| OpensWith(s, e, projects, down, picked, a, s');
  }

  /** A pass opens an issue only for a red pair whose project wants issues, in that project's repository. */
  lemma NewIssuesAreCalledFor(s: State, episodes: seq<Episode>, projects: map<string, Project>, down: set<string>,
                              s': State)
    requires ReconcilesTo(s, episodes, projects, down, s')
    ensures OnlyCalledFor(s.hub, s'.hub, episodes, projects)
    ensures forall i :: i in s.hub ==> i in s'.hub && s'.hub[i].title == s.hub[i].title
  {
    AllAreCalledFor(Cleared(s, episodes, projects, down), episodes, projects, down, s');
  }
}
