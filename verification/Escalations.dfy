/**
 The escalation lifecycle: red pairs get an unresolved row and, where wanted, one open issue
 (collectors/escalations.py).
 */
module Escalations {
  import opened Results
  import opened Receipts
  import opened Brief

  /**
   The identifier of an episode is a digest of its pair and the second its streak began; digests are
   taken not to collide.
   */
  datatype EpisodeId = EpisodeId(pair: Pair, firstSeen: nat)

  datatype Row = Row(pair: Pair, run: string, issue: Option<nat>, resolved: bool)

  type Table = map<EpisodeId, Row>

  datatype IssueId = IssueId(repo: string, number: nat)

  datatype Issue = Issue(title: string, open: bool)

  type GitHub = map<IssueId, Issue>

  datatype Project = Project(repo: Option<string>, wantsIssues: bool)

  datatype Episode = Episode(id: EpisodeId, run: string)

  datatype State = State(rows: Table, hub: GitHub)

  function Title(p: Pair): string {
    "[foreman] " + p.1 + " red on " + p.0
  }

  // ------------------------------------------------------------------- what is red

  function EpisodeOf(p: Pair, h: History, m: Meta, now: int): seq<Episode> {
    if h != [] && IsEffectivelyRed(h, m, now)
    then [Episode(EpisodeId(p, h[RunStart(h, NotGreen())].ended), h[|h| - 1].run)]
    else []
  }

  function Episodes(pairs: seq<Pair>, corpus: Corpus, metas: map<Pair, Meta>, now: int): seq<Episode> {
    if pairs == [] then []
    else
      var p := pairs[|pairs| - 1];
      Episodes(pairs[..|pairs| - 1], corpus, metas, now)
      + if p in corpus then EpisodeOf(p, corpus[p], MetaOf(metas, p), now) else []
  }

  function MetaOf(metas: map<Pair, Meta>, p: Pair): Meta {
    if p in metas then metas[p] else Meta(None, None)
  }

  // ------------------------------------------------------------------- one reconcile

  function RepoOf(projects: map<string, Project>, p: Pair): Option<string> {
    if p.0 in projects then projects[p.0].repo else None
  }

  predicate WantsIssue(projects: map<string, Project>, p: Pair) {
    p.0 in projects && projects[p.0].wantsIssues && projects[p.0].repo.Some?
  }

  predicate IsRedPair(episodes: seq<Episode>, p: Pair) {
    exists k :: 0 <= k < |episodes| && episodes[k].id.pair == p
  }

  function IssueOf(row: Row, projects: map<string, Project>): Option<IssueId> {
    if row.issue.Some? && RepoOf(projects, row.pair).Some?
    then Some(IssueId(RepoOf(projects, row.pair).value, row.issue.value)) else None
  }

  /** GitHub after asking it to close these issues; a repository that is down does not answer. */
  function Closed(hub: GitHub, ids: set<IssueId>, down: set<string>): GitHub {
    map i | i in hub :: if i in ids && i.repo !in down then hub[i].(open := false) else hub[i]
  }

  predicate IsCleared(rows: Table, episodes: seq<Episode>, id: EpisodeId)
    requires id in rows
  {
    !rows[id].resolved && !IsRedPair(episodes, rows[id].pair)
  }

  /** The issues of those rows that are cleared. */
  function ToClose(rows: Table, ids: set<EpisodeId>, episodes: seq<Episode>,
                   projects: map<string, Project>): set<IssueId> {
    set id | id in ids && id in rows && IsCleared(rows, episodes, id) && IssueOf(rows[id], projects).Some? ::
      IssueOf(rows[id], projects).value
  }

  /** Among these rows those of pairs no longer red are resolved, whatever made them so, and their issues closed. */
  function ClearedAmong(s: State, ids: set<EpisodeId>, episodes: seq<Episode>, projects: map<string, Project>,
                        down: set<string>): State {
    State(map id | id in s.rows ::
            if id in ids && IsCleared(s.rows, episodes, id) then s.rows[id].(resolved := true) else s.rows[id],
          Closed(s.hub, ToClose(s.rows, ids, episodes, projects), down))
  }

  predicate Unresolved(rows: Table, id: EpisodeId, p: Pair) {
    id in rows && rows[id].pair == p && !rows[id].resolved
  }

  /** Any unresolved row of the pair may be the one the database returns. */
  ghost predicate Picks(rows: Table, p: Pair, picked: Option<EpisodeId>) {
    if picked.Some? then Unresolved(rows, picked.value, p) else forall id :: !Unresolved(rows, id, p)
  }

  /** What looking for an issue of the title, and creating one if there is none, comes to. */
  datatype Answer = Found(number: nat) | Created(number: nat) | NoAnswer

  predicate IsOpenIssue(hub: GitHub, repo: string, title: string, n: nat) {
    IssueId(repo, n) in hub && hub[IssueId(repo, n)] == Issue(title, true)
  }

  ghost predicate Answers(hub: GitHub, repo: string, title: string, down: set<string>, a: Answer) {
    match a
    case Found(n) => repo !in down && IsOpenIssue(hub, repo, title, n)
    case Created(n) => repo !in down && IssueId(repo, n) !in hub && forall m :: !IsOpenIssue(hub, repo, title, m)
    case NoAnswer => repo in down
  }

  function KnownIssue(rows: Table, picked: Option<EpisodeId>): Option<nat> {
    if picked.Some? && picked.value in rows then rows[picked.value].issue else None
  }

  predicate AsksGitHub(rows: Table, p: Pair, projects: map<string, Project>, picked: Option<EpisodeId>) {
    WantsIssue(projects, p) && KnownIssue(rows, picked).None?
  }

  /** Open or refresh one red episode, given the row and the issue that the look-ups returned. */
  function Opened(s: State, e: Episode, projects: map<string, Project>, picked: Option<EpisodeId>, a: Answer): State {
    var p := e.id.pair;
    var row := Row(p, e.run, KnownIssue(s.rows, picked), false);
    if !AsksGitHub(s.rows, p, projects, picked) then s.(rows := s.rows[e.id := row])
    else
      match a
      case Found(n) => s.(rows := s.rows[e.id := row.(issue := Some(n))])
      case Created(n) =>
        State(s.rows[e.id := row.(issue := Some(n))],
              s.hub[IssueId(projects[p.0].repo.value, n) := Issue(Title(p), true)])
      case NoAnswer => s.(rows := s.rows[e.id := row])
  }

  ghost predicate OpensWith(s: State, e: Episode, projects: map<string, Project>, down: set<string>,
                            picked: Option<EpisodeId>, a: Answer, s': State) {
    && Picks(s.rows, e.id.pair, picked)
    && (AsksGitHub(s.rows, e.id.pair, projects, picked) ==>
          Answers(s.hub, projects[e.id.pair.0].repo.value, Title(e.id.pair), down, a))
    && s' == Opened(s, e, projects, picked, a)
  }

  ghost predicate OpensTo(s: State, e: Episode, projects: map<string, Project>, down: set<string>, s': State) {
    exists picked, a :: OpensWith(s, e, projects, down, picked, a, s')
  }

  ghost predicate OpensAllTo(s: State, episodes: seq<Episode>, projects: map<string, Project>, down: set<string>,
                             s': State)
    decreases |episodes|, 1
  {
    if episodes == [] then s' == s
    else exists mid :: OpensVia(s, episodes, projects, down, mid, s')
  }

  /** `mid` is the state before the last episode is opened. */
  ghost predicate OpensVia(s: State, episodes: seq<Episode>, projects: map<string, Project>, down: set<string>,
                           mid: State, s': State)
    requires episodes != []
    decreases |episodes|, 0
  {
    && OpensAllTo(s, episodes[..|episodes| - 1], projects, down, mid)
    && OpensTo(mid, episodes[|episodes| - 1], projects, down, s')
  }

  function Cleared(s: State, episodes: seq<Episode>, projects: map<string, Project>, down: set<string>): State {
    ClearedAmong(s, s.rows.Keys, episodes, projects, down)
  }

  ghost predicate ReconcilesTo(s: State, episodes: seq<Episode>, projects: map<string, Project>, down: set<string>,
                               s': State) {
    OpensAllTo(Cleared(s, episodes, projects, down), episodes, projects, down, s')
  }

  /** What the operator's /close leaves, if the row was open. */
  function ClosedByHand(s: State, id: EpisodeId, projects: map<string, Project>, down: set<string>): State {
    if id !in s.rows || s.rows[id].resolved then s
    else
      var issue := IssueOf(s.rows[id], projects);
      State(s.rows[id := s.rows[id].(resolved := true)], Closed(s.hub, if issue.Some? then {issue.value} else {}, down))
  }

  // ------------------------------------------------------------------- the table and the calls

  class Index {
    var rows: Table
    var hub: GitHub

    constructor ()
      ensures rows == map[] && hub == map[]
    {
      rows, hub := map[], map[];
    }

    function Now(): State
      reads this
    {
      State(rows, hub)
    }

    method PickRow(p: Pair) returns (picked: Option<EpisodeId>)
      ensures Picks(rows, p, picked)
    {
      var rest := rows.Keys;
      while rest != {}
        invariant rest <= rows.Keys
        invariant forall id :: id in rows.Keys - rest ==> !Unresolved(rows, id, p)
        decreases |rest|
      {
        var id :| id in rest;
        if rows[id].pair == p && !rows[id].resolved {
          return Some(id);
        }
        rest := rest - {id};
      }
      picked := None;
    }

    method FindIssue(repo: string, title: string) returns (found: Option<nat>)
      ensures if found.Some? then IsOpenIssue(hub, repo, title, found.value)
              else forall n :: !IsOpenIssue(hub, repo, title, n)
    {
      var rest := hub.Keys;
      while rest != {}
        invariant rest <= hub.Keys
        invariant forall n :: IsOpenIssue(hub, repo, title, n) ==> IssueId(repo, n) in rest
        decreases |rest|
      {
        var i :| i in rest;
        if i.repo == repo && hub[i] == Issue(title, true) {
          return Some(i.number);
        }
        rest := rest - {i};
      }
      found := None;
    }

    /** GitHub gives a new issue a number of the repository that is not taken. */
    method NewNumber(repo: string) returns (n: nat)
      ensures IssueId(repo, n) !in hub
    {
      n := 1;
      ghost var taken := {};
      while IssueId(repo, n) in hub
        invariant taken <= hub.Keys && forall i :: i in taken ==> i.number < n
        decreases hub.Keys - taken
      {
        taken := taken + {IssueId(repo, n)};
        n := n + 1;
      }
    }

    method AskGitHub(repo: string, title: string, down: set<string>) returns (a: Answer)
      modifies this`hub
      ensures Answers(old(hub), repo, title, down, a)
      ensures hub == if a.Created? then old(hub)[IssueId(repo, a.number) := Issue(title, true)] else old(hub)
    {
      if repo in down {
        return NoAnswer;
      }
      var found := FindIssue(repo, title);
      if found.Some? {
        return Found(found.value);
      }
      var n := NewNumber(repo);
      hub := hub[IssueId(repo, n) := Issue(title, true)];
      a := Created(n);
    }

    method CloseIssue(issue: IssueId, down: set<string>)
      modifies this`hub
      ensures hub == Closed(old(hub), {issue}, down)
    {
      if issue in hub && issue.repo !in down {
        hub := hub[issue := hub[issue].(open := false)];
      }
    }

    method ClearResolved(episodes: seq<Episode>, projects: map<string, Project>, down: set<string>)
      modifies this
      ensures Now() == Cleared(old(Now()), episodes, projects, down)
    {
      ghost var before := Now();
      ghost var done: set<EpisodeId> := {};
      var rest := rows.Keys;
      NoneCleared(before, episodes, projects, down);
      while rest != {}
        invariant done + rest == before.rows.Keys && done !! rest
        invariant Now() == ClearedAmong(before, done, episodes, projects, down)
        decreases |rest|
      {
        var id :| id in rest;
        ClearRow(id, episodes, projects, down, before, done);
        rest, done := rest - {id}, done + {id};
      }
      assert done == before.rows.Keys;
    }

    /** Resolve one row, if its pair is red no longer; those of `done` have been seen to. */
    method ClearRow(id: EpisodeId, episodes: seq<Episode>, projects: map<string, Project>, down: set<string>,
                    ghost before: State, ghost done: set<EpisodeId>)
      requires id in before.rows && id !in done && Now() == ClearedAmong(before, done, episodes, projects, down)
      modifies this
      ensures Now() == ClearedAmong(before, done + {id}, episodes, projects, down)
    {
      OneMoreCleared(before, done, id, episodes, projects, down);
      var row := rows[id];
      assert row == before.rows[id];
      if row.resolved || IsRedPair(episodes, row.pair) {
        return;
      }
      rows := rows[id := row.(resolved := true)];
      if row.issue.Some? && RepoOf(projects, row.pair).Some? {
        CloseIssue(IssueId(RepoOf(projects, row.pair).value, row.issue.value), down);
      }
    }

    method Open(e: Episode, projects: map<string, Project>, down: set<string>)
      modifies this
      ensures OpensTo(old(Now()), e, projects, down, Now())
    {
      var p := e.id.pair;
      var picked := PickRow(p);
      var known := if picked.Some? then rows[picked.value].issue else None;
      var number := known;
      ghost var answer := NoAnswer;
      if WantsIssue(projects, p) && known.None? {
        var a := AskGitHub(projects[p.0].repo.value, Title(p), down);
        answer := a;
        number := if a.NoAnswer? then None else Some(a.number);
      }
      rows := rows[e.id := Row(p, e.run, number, false)];
      assert OpensWith(old(Now()), e, projects, down, picked, answer, Now());
    }

    /** Resolve the rows of pairs that are red no longer, then open or refresh the red ones. */
    method Reconcile(episodes: seq<Episode>, projects: map<string, Project>, down: set<string>)
      modifies this
      ensures ReconcilesTo(old(Now()), episodes, projects, down, Now())
    {
      ClearResolved(episodes, projects, down);
      ghost var cleared := Now();
      for k := 0 to |episodes|
        invariant OpensAllTo(cleared, episodes[..k], projects, down, Now())
      {
        ghost var mid := Now();
        Open(episodes[k], projects, down);
        assert episodes[..k + 1][..k] == episodes[..k];
        assert OpensVia(cleared, episodes[..k + 1], projects, down, mid, Now());
      }
      assert episodes[..|episodes|] == episodes;
    }

    /** The operator's /close. */
    method Close(id: EpisodeId, projects: map<string, Project>, down: set<string>) returns (closed: bool)
      modifies this
      ensures closed <==> id in old(rows) && !old(rows)[id].resolved
      ensures Now() == ClosedByHand(old(Now()), id, projects, down)
    {
      if id !in rows || rows[id].resolved {
        return false;
      }
      var row := rows[id];
      rows := rows[id := row.(resolved := true)];
      if row.issue.Some? && RepoOf(projects, row.pair).Some? {
        CloseIssue(IssueId(RepoOf(projects, row.pair).value, row.issue.value), down);
      } else {
        NothingClosed(hub, down);
      }
      closed := true;
    }
  }

  lemma NothingClosed(hub: GitHub, down: set<string>)
    ensures Closed(hub, {}, down) == hub
  {
  }

  lemma NoneCleared(s: State, episodes: seq<Episode>, projects: map<string, Project>, down: set<string>)
    ensures ClearedAmong(s, {}, episodes, projects, down) == s
  {
    assert ToClose(s.rows, {}, episodes, projects) == {};
    NothingClosed(s.hub, down);
  }

  lemma OneMoreCleared(s: State, ids: set<EpisodeId>, id: EpisodeId, episodes: seq<Episode>,
                       projects: map<string, Project>, down: set<string>)
    requires id in s.rows && id !in ids
    ensures var before := ClearedAmong(s, ids, episodes, projects, down);
            var after := ClearedAmong(s, ids + {id}, episodes, projects, down);
            if !IsCleared(s.rows, episodes, id) then after == before
            else
              && after.rows == before.rows[id := s.rows[id].(resolved := true)]
              && after.hub == if IssueOf(s.rows[id], projects).Some?
                              then Closed(before.hub, {IssueOf(s.rows[id], projects).value}, down) else before.hub
  {
    var closing := ToClose(s.rows, ids, episodes, projects);
    var issue := IssueOf(s.rows[id], projects);
    if IsCleared(s.rows, episodes, id) && issue.Some? {
      assert ToClose(s.rows, ids + {id}, episodes, projects) == closing + {issue.value};
      ClosedOneMore(s.hub, closing, issue.value, down);
    } else {
      assert ToClose(s.rows, ids + {id}, episodes, projects) == closing;
    }
  }

  lemma ClosedOneMore(hub: GitHub, ids: set<IssueId>, issue: IssueId, down: set<string>)
    ensures Closed(Closed(hub, ids, down), {issue}, down) == Closed(hub, ids + {issue}, down)
  {
  }
}
