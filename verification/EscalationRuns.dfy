/**
 What reconciling guarantees, in one pass and over whole runs (collectors/escalations.py).
 */
module EscalationRuns {
  import opened Results
  import opened Receipts
  import opened Brief
  import opened Escalations

  ghost predicate Keyed(rows: Table) {
    forall id :: id in rows ==> rows[id].pair == id.pair
  }

  ghost predicate OneOpenPerTitle(hub: GitHub) {
    forall i, j :: i in hub && j in hub && i.repo == j.repo && hub[i] == hub[j] && hub[i].open ==> i == j
  }

  /** Issues may close but nothing else about them changes. */
  ghost predicate OnlyCloses(hub: GitHub, hub': GitHub) {
    hub'.Keys == hub.Keys && forall i :: i in hub ==> hub'[i] == hub[i] || hub'[i] == hub[i].(open := false)
  }

  predicate Names(episodes: seq<Episode>, id: EpisodeId) {
    exists k :: 0 <= k < |episodes| && episodes[k].id == id
  }

  // ------------------------------------------------------------------- one pass

  lemma OpeningOne(s: State, e: Episode, projects: map<string, Project>, down: set<string>, s': State)
    requires Keyed(s.rows) && OneOpenPerTitle(s.hub) && OpensTo(s, e, projects, down, s')
    ensures Keyed(s'.rows) && OneOpenPerTitle(s'.hub)
    ensures forall id, p :: Unresolved(s'.rows, id, p) <==> Unresolved(s.rows, id, p) || (id == e.id && p == e.id.pair)
  {
    var picked, a :| OpensWith(s, e, projects, down, picked, a, s');
    if s'.hub != s.hub {
      var repo, title := projects[e.id.pair.0].repo.value, Title(e.id.pair);
      assert a.Created? && forall m :: !IsOpenIssue(s.hub, repo, title, m);
      var created := IssueId(repo, a.number);
      assert s'.hub == s.hub[created := Issue(title, true)];
      forall i | i in s.hub && i.repo == repo
        ensures s.hub[i] != Issue(title, true)
      {
        assert !IsOpenIssue(s.hub, repo, title, i.number);
      }
    }
  }

  lemma NamesSnoc(episodes: seq<Episode>, id: EpisodeId)
    requires episodes != []
    ensures Names(episodes, id) <==> Names(episodes[..|episodes| - 1], id) || episodes[|episodes| - 1].id == id
  {
    var init := episodes[..|episodes| - 1];
    if Names(init, id) {
      var k :| 0 <= k < |init| && init[k].id == id;
      assert episodes[k] == init[k];
    }
    if Names(episodes, id) {
      var k :| 0 <= k < |episodes| && episodes[k].id == id;
      assert k < |init| ==> init[k] == episodes[k];
    }
  }

  lemma {:induction false} OpeningAll(s: State, episodes: seq<Episode>, projects: map<string, Project>,
                                      down: set<string>, s': State)
    requires Keyed(s.rows) && OneOpenPerTitle(s.hub) && OpensAllTo(s, episodes, projects, down, s')
    ensures Keyed(s'.rows) && OneOpenPerTitle(s'.hub)
    ensures forall id, p :: Unresolved(s'.rows, id, p) <==>
      Unresolved(s.rows, id, p) || (Names(episodes, id) && p == id.pair)
    decreases |episodes|
  {
    if episodes != [] {
      var mid :| OpensVia(s, episodes, projects, down, mid, s');
      OpeningAll(s, episodes[..|episodes| - 1], projects, down, mid);
      OpeningOne(mid, episodes[|episodes| - 1], projects, down, s');
      forall id, p
        ensures Unresolved(s'.rows, id, p) <==> Unresolved(s.rows, id, p) || (Names(episodes, id) && p == id.pair)
      {
        NamesSnoc(episodes, id);
      }
    }
  }

  lemma ClosingKeepsOnePerTitle(hub: GitHub, hub': GitHub)
    requires OneOpenPerTitle(hub) && OnlyCloses(hub, hub')
    ensures OneOpenPerTitle(hub')
  {
    forall i, j | i in hub' && j in hub' && i.repo == j.repo && hub'[i] == hub'[j] && hub'[i].open
      ensures i == j
    {
      assert hub'[i] == hub[i] && hub'[j] == hub[j];
    }
  }

  lemma ClosedOnlyCloses(hub: GitHub, ids: set<IssueId>, down: set<string>)
    ensures OnlyCloses(hub, Closed(hub, ids, down))
  {
  }

  /**
   The rows one reconcile leaves unresolved are, for each red pair, those that were unresolved before
   and the one of its current streak; a pair not red has none.  Open issues stay one per title.
   */
  lemma ReconcileLeaves(s: State, episodes: seq<Episode>, projects: map<string, Project>, down: set<string>, s': State)
    requires Keyed(s.rows) && OneOpenPerTitle(s.hub) && ReconcilesTo(s, episodes, projects, down, s')
    ensures Keyed(s'.rows) && OneOpenPerTitle(s'.hub)
    ensures forall id, p :: Unresolved(s'.rows, id, p) <==>
      id.pair == p && IsRedPair(episodes, p) && (Unresolved(s.rows, id, p) || Names(episodes, id))
    ensures forall p :: (exists id :: Unresolved(s'.rows, id, p)) <==> IsRedPair(episodes, p)
  {
    var cleared := Cleared(s, episodes, projects, down);
    ClosedOnlyCloses(s.hub, ToClose(s.rows, s.rows.Keys, episodes, projects), down);
    ClosingKeepsOnePerTitle(s.hub, cleared.hub);
    OpeningAll(cleared, episodes, projects, down, s');
    forall id, p
      ensures Unresolved(s'.rows, id, p) <==>
        id.pair == p && IsRedPair(episodes, p) && (Unresolved(s.rows, id, p) || Names(episodes, id))
    {
      assert Unresolved(cleared.rows, id, p) <==> Unresolved(s.rows, id, p) && IsRedPair(episodes, p);
      if Names(episodes, id) {
        var k :| 0 <= k < |episodes| && episodes[k].id == id;
        assert IsRedPair(episodes, id.pair);
      }
    }
    forall p | IsRedPair(episodes, p)
      ensures exists id :: Unresolved(s'.rows, id, p)
    {
      var k :| 0 <= k < |episodes| && episodes[k].id.pair == p;
      assert Names(episodes, episodes[k].id);
      assert Unresolved(s'.rows, episodes[k].id, p);
    }
  }

  // ------------------------------------------------------------------- the episodes of a corpus

  function CurrentId(corpus: Corpus, p: Pair): EpisodeId
    requires p in corpus && corpus[p] != []
  {
    EpisodeId(p, corpus[p][RunStart(corpus[p], NotGreen())].ended)
  }

  predicate RedIn(corpus: Corpus, metas: map<Pair, Meta>, now: int, p: Pair) {
    p in corpus && corpus[p] != [] && IsEffectivelyRed(corpus[p], MetaOf(metas, p), now)
  }

  lemma {:induction false} EpisodesAreRedPairs(pairs: seq<Pair>, corpus: Corpus, metas: map<Pair, Meta>, now: int,
                                               p: Pair)
    ensures IsRedPair(Episodes(pairs, corpus, metas, now), p) <==> p in pairs && RedIn(corpus, metas, now, p)
    ensures forall id: EpisodeId :: id.pair == p && Names(Episodes(pairs, corpus, metas, now), id) ==>
      p in pairs && RedIn(corpus, metas, now, p) && id == CurrentId(corpus, p)
  {
    if pairs != [] {
      var init, last := pairs[..|pairs| - 1], pairs[|pairs| - 1];
      EpisodesAreRedPairs(init, corpus, metas, now, p);
      var a := Episodes(init, corpus, metas, now);
      var b := if last in corpus then EpisodeOf(last, corpus[last], MetaOf(metas, last), now) else [];
      assert Episodes(pairs, corpus, metas, now) == a + b && pairs == init + [last];
      forall id
        ensures Names(a + b, id) <==> Names(a, id) || Names(b, id)
      {
        NamesOfBoth(a, b, id);
      }
      RedPairsOfBoth(a, b, p);
      assert IsRedPair(b, p) <==> p == last && RedIn(corpus, metas, now, p) by {
        assert b != [] ==> b[0].id.pair == last;
      }
    }
  }

  lemma NamesOfBoth(a: seq<Episode>, b: seq<Episode>, id: EpisodeId)
    ensures Names(a + b, id) <==> Names(a, id) || Names(b, id)
  {
    if Names(a, id) {
      var k :| 0 <= k < |a| && a[k].id == id;
      assert (a + b)[k] == a[k];
    }
    if Names(b, id) {
      var k :| 0 <= k < |b| && b[k].id == id;
      assert (a + b)[|a| + k] == b[k];
    }
  }

  lemma RedPairsOfBoth(a: seq<Episode>, b: seq<Episode>, p: Pair)
    ensures IsRedPair(a + b, p) <==> IsRedPair(a, p) || IsRedPair(b, p)
  {
    if IsRedPair(a, p) {
      var k :| 0 <= k < |a| && a[k].id.pair == p;
      assert (a + b)[k] == a[k];
    }
    if IsRedPair(b, p) {
      var k :| 0 <= k < |b| && b[k].id.pair == p;
      assert (a + b)[|a| + k] == b[k];
    }
  }

  // ------------------------------------------------------------------- whole runs

  datatype Event =
    | Turn(received: Corpus, metas: map<Pair, Meta>, projects: map<string, Project>, down: set<string>, now: int)
    | ClosedByOperator(id: EpisodeId, projects: map<string, Project>, down: set<string>)
    | ClosedOnGitHub(issues: set<IssueId>)
    | TableDropped

  /** Work receipts that are red by status are never green by verdict. */
  predicate Plausible(r: Receipt) {
    && !r.status.Locked? && !r.status.Skipped?
    && (r.status.Failed? || r.status.Timeout? ==> r.verdict != Green)
  }

  /** The receipts of a batch come last in their pairs' histories. */
  function Appended(corpus: Corpus, received: Corpus): Corpus {
    map p | p in corpus.Keys + received.Keys :: HistoryOf(corpus, p) + HistoryOf(received, p)
  }

  predicate AllPlausible(corpus: Corpus) {
    forall p :: p in corpus ==> corpus[p] != [] && forall r :: r in corpus[p] ==> Plausible(r)
  }

  /** Any receipts arrive, of any pairs, and the pass that follows sees every pair. */
  ghost predicate TurnsTo(corpus: Corpus, s: State, e: Event, corpus': Corpus, s': State)
    requires e.Turn?
  {
    && corpus' == Appended(corpus, e.received) && AllPlausible(e.received)
    && exists pairs ::
         (forall p :: p in corpus' ==> p in pairs)
         && ReconcilesTo(s, Episodes(pairs, corpus', e.metas, e.now), e.projects, e.down, s')
  }

  ghost predicate StepsTo(corpus: Corpus, s: State, e: Event, corpus': Corpus, s': State) {
    match e
    case Turn(_, _, _, _, _) => TurnsTo(corpus, s, e, corpus', s')
    case ClosedByOperator(id, projects, down) => corpus' == corpus && s' == ClosedByHand(s, id, projects, down)
    case ClosedOnGitHub(issues) => corpus' == corpus && s' == State(s.rows, Closed(s.hub, issues, {}))
    case TableDropped => corpus' == corpus && s' == State(map[], s.hub)
  }

  /** Every unresolved row is the one of its pair's current, non-green streak. */
  ghost predicate Tidy(corpus: Corpus, s: State) {
    && Keyed(s.rows) && OneOpenPerTitle(s.hub)
    && AllPlausible(corpus)
    && (forall id, p :: Unresolved(s.rows, id, p) ==>
          p in corpus && NotGreen()(corpus[p][|corpus[p]| - 1]) && id == CurrentId(corpus, p))
  }

  /** All receipts of a batch but the last are not green. */
  predicate Unbroken(more: History) {
    forall k :: 0 <= k < |more| - 1 ==> NotGreen()(more[k])
  }

  /** No pair with an open row that is red after the batch has a green receipt in it before the last one. */
  ghost predicate MissesNoGreen(corpus: Corpus, s: State, e: Event)
    requires e.Turn?
  {
    var after := Appended(corpus, e.received);
    forall id, p :: Unresolved(s.rows, id, p) && p in e.received && RedIn(after, e.metas, e.now, p) ==>
      Unbroken(e.received[p])
  }

  lemma ReceivedKeepsId(corpus: Corpus, s: State, received: Corpus, id: EpisodeId, p: Pair)
    requires Tidy(corpus, s) && Unresolved(s.rows, id, p)
    requires p in received ==> received[p] != [] && Unbroken(received[p])
    ensures var after := Appended(corpus, received);
            p in after && after[p] != [] && id == CurrentId(after, p)
  {
    if p in received {
      RunStartOfMany(corpus[p], NotGreen(), received[p]);
    } else {
      assert corpus[p] + [] == corpus[p];
    }
  }

  lemma BrokenChangesId(corpus: Corpus, s: State, received: Corpus, id: EpisodeId, p: Pair)
    requires Tidy(corpus, s) && Unresolved(s.rows, id, p) && p in received && received[p] != []
    requires !Unbroken(received[p])
    requires OtherSeconds(s, received)
    ensures id != CurrentId(Appended(corpus, received), p)
  {
    var h, more := corpus[p], received[p];
    RunStartOfMany(h, NotGreen(), more);
    var start := RunStart(h + more, NotGreen());
    assert (h + more)[start] == more[start - |h|];
  }

  /** No receipt of a batch ended at the very second in which the streak of its pair's open row began. */
  ghost predicate OtherSeconds(s: State, received: Corpus) {
    forall id, p :: Unresolved(s.rows, id, p) && p in received ==>
      forall r :: r in received[p] ==> r.ended != id.firstSeen
  }

  lemma RedTipIsNotGreen(h: History, m: Meta, now: int)
    requires h != [] && IsEffectivelyRed(h, m, now) && Plausible(h[|h| - 1])
    ensures NotGreen()(h[|h| - 1])
  {
  }

  lemma PassFollowsEpisodes(corpus': Corpus, s: State, e: Event, s': State, pairs: seq<Pair>)
    requires e.Turn? && Keyed(s.rows) && OneOpenPerTitle(s.hub) && forall p :: p in corpus' ==> p in pairs
    requires ReconcilesTo(s, Episodes(pairs, corpus', e.metas, e.now), e.projects, e.down, s')
    ensures Keyed(s'.rows) && OneOpenPerTitle(s'.hub)
    ensures forall p :: (exists id :: Unresolved(s'.rows, id, p)) <==> RedIn(corpus', e.metas, e.now, p)
    ensures forall id, p :: Unresolved(s'.rows, id, p) <==>
      RedIn(corpus', e.metas, e.now, p) && id.pair == p && (Unresolved(s.rows, id, p) || id == CurrentId(corpus', p))
  {
    var episodes := Episodes(pairs, corpus', e.metas, e.now);
    ReconcileLeaves(s, episodes, e.projects, e.down, s');
    forall p
      ensures (exists id :: Unresolved(s'.rows, id, p)) <==> RedIn(corpus', e.metas, e.now, p)
      ensures RedIn(corpus', e.metas, e.now, p) ==> Names(episodes, CurrentId(corpus', p))
    {
      EpisodesAreRedPairs(pairs, corpus', e.metas, e.now, p);
      if RedIn(corpus', e.metas, e.now, p) {
        var k :| 0 <= k < |episodes| && episodes[k].id.pair == p;
        assert Names(episodes, episodes[k].id);
      }
    }
    forall id, p
      ensures Unresolved(s'.rows, id, p) <==>
        RedIn(corpus', e.metas, e.now, p) && id.pair == p && (Unresolved(s.rows, id, p) || id == CurrentId(corpus', p))
    {
      EpisodesAreRedPairs(pairs, corpus', e.metas, e.now, p);
    }
  }

  /** What one turn leaves open: of each red pair the rows it had and the one of its current streak, of others none. */
  lemma TurnLeaves(corpus: Corpus, s: State, e: Event, corpus': Corpus, s': State)
    requires Tidy(corpus, s) && e.Turn? && TurnsTo(corpus, s, e, corpus', s')
    ensures Keyed(s'.rows) && OneOpenPerTitle(s'.hub)
    ensures forall p :: (exists id :: Unresolved(s'.rows, id, p)) <==> RedIn(corpus', e.metas, e.now, p)
    ensures forall id, p :: Unresolved(s'.rows, id, p) <==>
      RedIn(corpus', e.metas, e.now, p) && id.pair == p && (Unresolved(s.rows, id, p) || id == CurrentId(corpus', p))
  {
    var pairs :| (forall p :: p in corpus' ==> p in pairs)
                 && ReconcilesTo(s, Episodes(pairs, corpus', e.metas, e.now), e.projects, e.down, s');
    PassFollowsEpisodes(corpus', s, e, s', pairs);
  }

  /**
   In terms of receipts alone: after a turn a pair has an open row exactly when its last receipt is not late
   and the pair has gone red by it; so a red receipt always opens one, and a green one never leaves one.
   */
  lemma OpenRowIffGoneRed(corpus: Corpus, s: State, e: Event, corpus': Corpus, s': State, p: Pair)
    requires Tidy(corpus, s) && e.Turn? && TurnsTo(corpus, s, e, corpus', s') && p in corpus'
    ensures corpus'[p] != []
    ensures var h, m := corpus'[p], MetaOf(e.metas, p);
            && ((exists id :: Unresolved(s'.rows, id, p)) <==> !IsLate(h, m, e.now) && HasGoneRed(h, m, e.now))
            && (h[|h| - 1].verdict == Red && !IsLate(h, m, e.now) ==> exists id :: Unresolved(s'.rows, id, p))
            && (h[|h| - 1].verdict == Green ==> forall id :: !Unresolved(s'.rows, id, p))
  {
    AppendedIsPlausible(corpus, e.received);
    TurnLeaves(corpus, s, e, corpus', s');
    JudgedFromReceipts(corpus'[p], MetaOf(e.metas, p), e.now);
    assert RedIn(corpus', e.metas, e.now, p) <==> IsEffectivelyRed(corpus'[p], MetaOf(e.metas, p), e.now);
    assert corpus'[p][|corpus'[p]| - 1] in corpus'[p];
  }

  lemma AppendedIsPlausible(corpus: Corpus, received: Corpus)
    requires AllPlausible(corpus) && AllPlausible(received)
    ensures AllPlausible(Appended(corpus, received))
  {
  }

  lemma TurnKeepsTidy(corpus: Corpus, s: State, e: Event, corpus': Corpus, s': State)
    requires Tidy(corpus, s) && e.Turn? && TurnsTo(corpus, s, e, corpus', s') && MissesNoGreen(corpus, s, e)
    ensures Tidy(corpus', s')
  {
    TurnLeaves(corpus, s, e, corpus', s');
    AppendedIsPlausible(corpus, e.received);
    forall id, p | Unresolved(s'.rows, id, p)
      ensures p in corpus' && NotGreen()(corpus'[p][|corpus'[p]| - 1]) && id == CurrentId(corpus', p)
    {
      if Unresolved(s.rows, id, p) {
        ReceivedKeepsId(corpus, s, e.received, id, p);
      }
      assert corpus'[p][|corpus'[p]| - 1] in corpus'[p];
      RedTipIsNotGreen(corpus'[p], MetaOf(e.metas, p), e.now);
    }
  }

  /** At most one row of each pair is open. */
  ghost predicate OneRowPerPair(rows: Table) {
    forall a, b, p :: Unresolved(rows, a, p) && Unresolved(rows, b, p) ==> a == b
  }

  /** A pass leaves one open row to a pair exactly when no green receipt was missed since the pass before. */
  lemma OneRowIffNoGreenMissed(corpus: Corpus, s: State, e: Event, corpus': Corpus, s': State)
    requires Tidy(corpus, s) && e.Turn? && TurnsTo(corpus, s, e, corpus', s') && OtherSeconds(s, e.received)
    ensures OneRowPerPair(s'.rows) <==> MissesNoGreen(corpus, s, e)
  {
    if MissesNoGreen(corpus, s, e) {
      TurnKeepsTidy(corpus, s, e, corpus', s');
    } else {
      var id, p :| && Unresolved(s.rows, id, p) && p in e.received
                   && RedIn(corpus', e.metas, e.now, p) && !Unbroken(e.received[p]);
      MissedGreenLeavesTwo(corpus, s, e, corpus', s', id, p);
    }
  }

  /** A green receipt of a pair that was missed leaves the old row open beside the new streak's. */
  lemma MissedGreenLeavesTwo(corpus: Corpus, s: State, e: Event, corpus': Corpus, s': State, id: EpisodeId, p: Pair)
    requires Tidy(corpus, s) && e.Turn? && TurnsTo(corpus, s, e, corpus', s') && OtherSeconds(s, e.received)
    requires Unresolved(s.rows, id, p) && RedIn(corpus', e.metas, e.now, p)
    requires p in e.received && !Unbroken(e.received[p])
    ensures Unresolved(s'.rows, id, p) && Unresolved(s'.rows, CurrentId(corpus', p), p) && id != CurrentId(corpus', p)
  {
    TurnLeaves(corpus, s, e, corpus', s');
    BrokenChangesId(corpus, s, e.received, id, p);
  }

  lemma ClosingKeepsTidy(corpus: Corpus, s: State, e: Event, s': State)
    requires Tidy(corpus, s) && (e.ClosedByOperator? || e.ClosedOnGitHub?) && StepsTo(corpus, s, e, corpus, s')
    ensures Tidy(corpus, s')
  {
    assert OnlyCloses(s.hub, s'.hub);
    ClosingKeepsOnePerTitle(s.hub, s'.hub);
    forall id, p | Unresolved(s'.rows, id, p)
      ensures Unresolved(s.rows, id, p)
    {
    }
  }

  /** A run of events through the given states. */
  ghost predicate IsRun(corpora: seq<Corpus>, states: seq<State>, events: seq<Event>) {
    && |corpora| == |states| == |events| + 1
    && corpora[0] == map[] && states[0] == State(map[], map[])
    && forall k :: 0 <= k < |events| ==> StepsTo(corpora[k], states[k], events[k], corpora[k + 1], states[k + 1])
  }

  /** No turn among the first `k` events misses a green receipt. */
  ghost predicate NoneMissed(corpora: seq<Corpus>, states: seq<State>, events: seq<Event>, k: nat)
    requires IsRun(corpora, states, events) && k <= |events|
  {
    forall j :: 0 <= j < k && events[j].Turn? ==> MissesNoGreen(corpora[j], states[j], events[j])
  }

  lemma {:induction false} RunsStayTidy(corpora: seq<Corpus>, states: seq<State>, events: seq<Event>, k: nat)
    requires IsRun(corpora, states, events) && k <= |events| && NoneMissed(corpora, states, events, k)
    ensures Tidy(corpora[k], states[k])
    decreases k
  {
    if k > 0 {
      RunsStayTidy(corpora, states, events, k - 1);
      assert StepsTo(corpora[k - 1], states[k - 1], events[k - 1], corpora[k - 1 + 1], states[k - 1 + 1]);
      if events[k - 1].Turn? {
        TurnKeepsTidy(corpora[k - 1], states[k - 1], events[k - 1], corpora[k], states[k]);
      } else if !events[k - 1].TableDropped? {
        ClosingKeepsTidy(corpora[k], states[k - 1], events[k - 1], states[k]);
      }
    }
  }

  /**
   As long as no pass misses a green receipt of a pair that has a row and is red again, whatever arrives
   between passes: at all times, even if the table is dropped, rows or issues are closed by hand, or GitHub
   does not answer, a pair has at most one unresolved row, opened at the start of its non-green streak, and a
   title has at most one open issue; and right after each pass the pairs with an unresolved row are exactly
   those judged red.
   */
  lemma EscalationsFollowStreaks(corpora: seq<Corpus>, states: seq<State>, events: seq<Event>, k: nat, p: Pair)
    requires IsRun(corpora, states, events) && k <= |events| && NoneMissed(corpora, states, events, k)
    ensures OneRowPerPair(states[k].rows) && OneOpenPerTitle(states[k].hub)
    ensures forall id :: Unresolved(states[k].rows, id, p) ==>
      p in corpora[k] && corpora[k][p] != [] && id == CurrentId(corpora[k], p)
    ensures k > 0 && events[k - 1].Turn? ==>
      var e := events[k - 1];
      (exists id :: Unresolved(states[k].rows, id, p)) <==> RedIn(corpora[k], e.metas, e.now, p)
  {
    RunsStayTidy(corpora, states, events, k);
    if k > 0 && events[k - 1].Turn? {
      RunsStayTidy(corpora, states, events, k - 1);
      assert StepsTo(corpora[k - 1], states[k - 1], events[k - 1], corpora[k - 1 + 1], states[k - 1 + 1]);
      TurnLeaves(corpora[k - 1], states[k - 1], events[k - 1], corpora[k], states[k]);
    }
  }

  ghost predicate AllOtherSeconds(corpora: seq<Corpus>, states: seq<State>, events: seq<Event>)
    requires IsRun(corpora, states, events)
  {
    forall j :: 0 <= j < |events| && events[j].Turn? ==> OtherSeconds(states[j], events[j].received)
  }

  lemma OneRowAfterEvent(corpora: seq<Corpus>, states: seq<State>, events: seq<Event>, k: nat)
    requires IsRun(corpora, states, events) && k < |events| && AllOtherSeconds(corpora, states, events)
    requires NoneMissed(corpora, states, events, k)
    ensures OneRowPerPair(states[k].rows)
    ensures OneRowPerPair(states[k + 1].rows) <==>
      (events[k].Turn? ==> MissesNoGreen(corpora[k], states[k], events[k]))
  {
    RunsStayTidy(corpora, states, events, k);
    if events[k].Turn? {
      OneRowIffNoGreenMissed(corpora[k], states[k], events[k], corpora[k + 1], states[k + 1]);
    } else {
      RunsStayTidy(corpora, states, events, k + 1);
    }
  }

  /** Over any run pairs have one open row at a time exactly when no pass has missed a green receipt. */
  lemma {:induction false} OneRowAlwaysIffNoneMissed(corpora: seq<Corpus>, states: seq<State>, events: seq<Event>,
                                                     k: nat)
    requires IsRun(corpora, states, events) && k <= |events| && AllOtherSeconds(corpora, states, events)
    ensures (forall j :: 0 <= j <= k ==> OneRowPerPair(states[j].rows)) <==> NoneMissed(corpora, states, events, k)
    decreases k
  {
    if k > 0 {
      OneRowAlwaysIffNoneMissed(corpora, states, events, k - 1);
      if NoneMissed(corpora, states, events, k - 1) {
        OneRowAfterEvent(corpora, states, events, k - 1);
      }
    }
  }

  // ------------------------------------------------------------------- what is not promised

  /** For one: a green and a new red between two passes leave the old row open beside the new one. */
  lemma SkippedReconcileLeavesTwo(corpus: Corpus, s: State, e: Event, corpus': Corpus, s': State, p: Pair,
                                  green: Receipt, red: Receipt)
    requires Tidy(corpus, s) && p in corpus && Unresolved(s.rows, CurrentId(corpus, p), p)
    requires e.Turn? && TurnsTo(corpus, s, e, corpus', s') && OtherSeconds(s, e.received)
    requires e.received == map[p := [green, red]] && green.verdict == Green && red.verdict == Red
    requires RedIn(corpus', e.metas, e.now, p)
    ensures Unresolved(s'.rows, CurrentId(corpus, p), p) && Unresolved(s'.rows, EpisodeId(p, red.ended), p)
    ensures CurrentId(corpus, p) != EpisodeId(p, red.ended)
  {
    assert !NotGreen()(e.received[p][0]);
    MissedGreenLeavesTwo(corpus, s, e, corpus', s', CurrentId(corpus, p), p);
    RunStartIsUnique(corpus'[p], NotGreen(), |corpus[p]| + 1);
  }

  /** Closing by hand does not last: while the pair is still red the next reconcile opens its row again. */
  lemma CloseDoesNotLast(corpus: Corpus, s: State, closed: State, s': State, p: Pair, metas: map<Pair, Meta>,
                         projects: map<string, Project>, down: set<string>, now: int)
    requires Tidy(corpus, s) && RedIn(corpus, metas, now, p) && Unresolved(s.rows, CurrentId(corpus, p), p)
    requires closed == ClosedByHand(s, CurrentId(corpus, p), projects, down)
    requires ReconcilesTo(closed, Episodes([p], corpus, metas, now), projects, down, s')
    ensures !Unresolved(closed.rows, CurrentId(corpus, p), p) && Unresolved(s'.rows, CurrentId(corpus, p), p)
  {
    assert OnlyCloses(s.hub, closed.hub);
    ClosingKeepsOnePerTitle(s.hub, closed.hub);
    EpisodesAreRedPairs([p], corpus, metas, now, p);
    var episodes := Episodes([p], corpus, metas, now);
    ReconcileLeaves(closed, episodes, projects, down, s');
    var id :| Unresolved(s'.rows, id, p);
    assert Unresolved(closed.rows, id, p) ==> Unresolved(s.rows, id, p);
  }

  /** A search that misses an open issue opens a second one with its title. */
  lemma BlindSearchDuplicates(s: State, e: Episode, projects: map<string, Project>, n: nat, unused: nat)
    requires WantsIssue(projects, e.id.pair)
    requires IsOpenIssue(s.hub, projects[e.id.pair.0].repo.value, Title(e.id.pair), n)
    requires IssueId(projects[e.id.pair.0].repo.value, unused) !in s.hub
    ensures !OneOpenPerTitle(Opened(s, e, projects, None, Created(unused)).hub)
  {
    var repo := projects[e.id.pair.0].repo.value;
    var hub := Opened(s, e, projects, None, Created(unused)).hub;
    assert hub[IssueId(repo, n)] == hub[IssueId(repo, unused)];
  }
}
