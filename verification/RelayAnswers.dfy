/** What a client of the relayer's `/transactions/v2` is shown. The endpoint fetches
    the indexer's page and lists the cache some awaits later; in between the observer
    runs (`endpoints.ts`, `RelayPool.ts`). */
module RelayAnswers {

  import opened Bounds
  import opened Hex
  import opened Outcome
  import opened Records
  import opened State
  import opened Pool
  import opened Indexer
  import opened LocalCache
  import opened MergedPage
  import opened RelayCache
  import opened RelayPresence

  /** The commitment is on the answer, or on an earlier page of the indexer. */
  ghost predicate Shown(answer: seq<HexString>, log: seq<HexString>, offset: nat, commit: nat) {
    commit in PageCommitments(answer) || IsIndexed(log[..Min(offset / OUTPLUSONE, |log|)], commit)
  }

  // ---------- One answer ----------

  lemma CommitmentsOfMore(page: seq<HexString>, more: seq<HexString>)
    ensures PageCommitments(page + more) == PageCommitments(page) + PageCommitments(more)
  {
    hide CommitOnWire;
    forall c | c in PageCommitments(page) + PageCommitments(more)
      ensures c in PageCommitments(page + more)
    {
      if c in PageCommitments(page) {
        var i :| 0 <= i < |page| && CommitOnWire(page[i]) == c;
        assert (page + more)[i] == page[i];
      } else {
        var i :| 0 <= i < |more| && CommitOnWire(more[i]) == c;
        assert (page + more)[|page| + i] == more[i];
      }
    }
  }

  /** What is appended to a page was cached. */
  lemma AddedIsCached(page: seq<HexString>, entries: seq<LocalEntry>, cache: map<nat, CachedTx>, limit: nat)
    requires Lists(entries, cache) && WellKeyed(cache)
    ensures PageCommitments(SentWires(Added(page, entries, limit))) <= cache.Keys
  {
    UnindexedAre(entries, PageCommitments(page));
    hide Unindexed, ToV2Format, CommitOnWire, PageCommitments, ByTimestamp, DistinctEntries, CommitmentOf;
    var added, rest := Added(page, entries, limit), Unindexed(entries, PageCommitments(page));
    var wires := SentWires(added);
    forall i | 0 <= i < |wires|
      ensures CommitOnWire(wires[i]) in cache
    {
      assert added[i] == rest[i] && rest[i] in rest;
      WireCommit(SENT, added[i].tx.memo);
    }
    hide WellKeyed, Lists;
    CommitsWithin(wires, cache.Keys);
  }

  lemma CommitsWithin(page: seq<HexString>, commits: set<nat>)
    requires forall i | 0 <= i < |page| :: CommitOnWire(page[i]) in commits
    ensures PageCommitments(page) <= commits
  {
    hide CommitOnWire;
  }

  lemma IndexedOnPage(q: Tiers, log: seq<HexString>, c: nat, limit: nat, offset: nat, commit: nat)
    requires Mirrors(q, log, c) && |PageOf(q, limit, offset)| < limit && IsIndexed(log, commit)
    ensures commit in PageCommitments(PageOf(q, limit, offset))
         || IsIndexed(log[..Min(offset / OUTPLUSONE, |log|)], commit)
  {
    hide PageOf, CarriesFrom, CommitmentOf, Mirrors, PageCommitments;
    PageCommitAt(q, log, c, limit, offset);
    var a := Min(offset / OUTPLUSONE, |log|);
    var i :| 0 <= i < |log| && CommitmentOf(log[i]) == commit;
    if i < a {
      assert log[..a][i] == log[i];
    } else {
      CarriedAt(PageOf(q, limit, offset), log, a, i);
    }
  }

  lemma StretchIsIndexed(log: seq<HexString>, a: nat, commit: nat)
    requires a <= |log| && IsIndexed(log[..a], commit)
    ensures IsIndexed(log, commit)
  {
    hide CommitmentOf;
    var i :| 0 <= i < |log[..a]| && CommitmentOf(log[..a][i]) == commit;
    assert log[i] == log[..a][i];
  }

  /** A short answer made of a page of one log and a listing of one cache. */
  lemma AnswerShows(q: Tiers, log: seq<HexString>, c: nat, limit: nat, offset: nat, entries: seq<LocalEntry>,
                    cache: map<nat, CachedTx>, commit: nat)
    requires Mirrors(q, log, c) && Lists(entries, cache) && WellKeyed(cache)
    requires |Merged(PageOf(q, limit, offset), entries, limit)| < limit
    ensures Shown(Merged(PageOf(q, limit, offset), entries, limit), log, offset, commit)
       <==> IsIndexed(log, commit) || commit in cache
  {
    hide PageOf, SentWires, Added, Mirrors, Lists, WellKeyed, PageCommitments, IsIndexed;
    var page := PageOf(q, limit, offset);
    var sent := SentWires(Added(page, entries, limit));
    CommitmentsOfMore(page, sent);
    AddedIsCached(page, entries, cache, limit);
    PageIsIndexed(q, log, c, limit, offset);
    if IsIndexed(log, commit) {
      IndexedOnPage(q, log, c, limit, offset, commit);
    } else if commit in cache {
      ShortPageHoldsAll(page, entries, cache, limit, commit);
    } else if IsIndexed(log[..Min(offset / OUTPLUSONE, |log|)], commit) {
      StretchIsIndexed(log, Min(offset / OUTPLUSONE, |log|), commit);
    }
  }

  lemma CacheIsWellKeyed(s: Relayer)
    requires CacheOk(s)
    ensures WellKeyed(UnstampedAll(s.cache))
  {
    hide Unstamped, CommitmentOf, Pow16;
  }

  lemma {:induction false} RunIndexed(s: Relayer, actions: seq<Action>, commit: nat)
    requires IsRun(s, actions) && IsIndexed(s.log, commit)
    ensures IsIndexed(Run(s, actions).log, commit)
    decreases |actions|
  {
    hide Step, Enabled, IsIndexed;
    if |actions| > 0 {
      StillIndexed(s, actions[0], commit);
      RunIndexed(Step(s, actions[0]), actions[1..], commit);
    }
  }

  /** The answer of one request: the page is fetched, the relayer takes any steps, and
      the cache is listed. If the answer is short, it shows a commitment if and only if
      that was indexed when the page was fetched or is cached when the cache is read. */
  lemma ClientSeesEverySend(s: Relayer, actions: seq<Action>, q: Tiers, c: nat, limit: nat, offset: nat,
                            entries: seq<LocalEntry>, commit: nat)
    requires Reachable(s) && IsRun(s, actions) && Mirrors(q, s.log, c)
    requires Lists(entries, UnstampedAll(Run(s, actions).cache))
    requires |Merged(PageOf(q, limit, offset), entries, limit)| < limit
    ensures Shown(Merged(PageOf(q, limit, offset), entries, limit), s.log, offset, commit)
       <==> IsIndexed(s.log, commit) || commit in Run(s, actions).cache
  {
    hide Reachable, IsRun, Run, Merged, PageOf, Mirrors, Lists, WellKeyed, IsIndexed, Shown, CacheOk, Unstamped;
    ReachableRun(s, actions);
    ReachableHolds(Run(s, actions));
    CacheIsWellKeyed(Run(s, actions));
    AnswerShows(q, s.log, c, limit, offset, entries, UnstampedAll(Run(s, actions).cache), commit);
  }

  /** Were the cache listed before the page is fetched, a short answer would show
      everything that was cached or indexed at the listing. */
  lemma ListFirstLosesNothing(s: Relayer, actions: seq<Action>, q: Tiers, c: nat, limit: nat, offset: nat,
                              entries: seq<LocalEntry>, commit: nat)
    requires Reachable(s) && IsRun(s, actions) && Mirrors(q, Run(s, actions).log, c)
    requires Lists(entries, UnstampedAll(s.cache)) && Present(s, commit)
    requires |Merged(PageOf(q, limit, offset), entries, limit)| < limit
    ensures Shown(Merged(PageOf(q, limit, offset), entries, limit), Run(s, actions).log, offset, commit)
  {
    hide Reachable, IsRun, Run, Merged, PageOf, Mirrors, Lists, WellKeyed, IsIndexed, Shown, CacheOk, Unstamped;
    ReachableHolds(s);
    CacheIsWellKeyed(s);
    AnswerShows(q, Run(s, actions).log, c, limit, offset, entries, UnstampedAll(s.cache), commit);
    if IsIndexed(s.log, commit) {
      RunIndexed(s, actions, commit);
    }
  }

  // ---------- A listing of a cache ----------

  lemma {:induction false} Latest(cache: map<nat, CachedTx>) returns (c: nat)
    requires cache != map[]
    ensures c in cache && forall k | k in cache :: cache[k].timestamp <= cache[c].timestamp
    decreases |cache|
  {
    c :| c in cache;
    var rest := cache - {c};
    if rest != map[] {
      assert |rest.Keys| < |cache.Keys| by { assert rest.Keys == cache.Keys - {c}; }
      var other := Latest(rest);
      assert forall k | k in cache :: k == c || k in rest;
      if cache[other].timestamp > cache[c].timestamp {
        c := other;
      }
    } else {
      assert forall k | k in cache :: k == c || k in rest;
    }
  }

  lemma ListingExtends(before: seq<LocalEntry>, cache: map<nat, CachedTx>, c: nat)
    requires c in cache && Lists(before, cache - {c})
    requires forall k | k in cache :: cache[k].timestamp <= cache[c].timestamp
    ensures Lists(before + [LocalEntry(c, cache[c])], cache)
  {
    hide ByTimestamp, DistinctEntries;
    var rest, e := cache - {c}, LocalEntry(c, cache[c]);
    assert After(before, e) by {
      assert forall x | x in before :: x.commit in rest && rest[x.commit] == x.tx;
    }
    AfterAppends(before, e);
    hide After;
    var entries := before + [e];
    forall k | k in cache
      ensures LocalEntry(k, cache[k]) in entries
    {
      assert k == c || LocalEntry(k, rest[k]) in before;
    }
  }

  lemma {:induction false} SomeListing(cache: map<nat, CachedTx>) returns (entries: seq<LocalEntry>)
    ensures Lists(entries, cache)
    decreases |cache|
  {
    if cache == map[] {
      entries := [];
    } else {
      hide Lists;
      var c := Latest(cache);
      var rest := cache - {c};
      assert |rest.Keys| < |cache.Keys| by { assert rest.Keys == cache.Keys - {c}; }
      var before := SomeListing(rest);
      ListingExtends(before, cache, c);
      entries := before + [LocalEntry(c, cache[c])];
    }
  }

  // ---------- The observer empties the cache ----------

  /** The position is in the observer's window. */
  lemma WindowCovers(from: nat, n: nat, cached: nat, i: nat)
    requires from <= Key(n) && from / OUTPLUSONE <= i < n
    ensures i < from / OUTPLUSONE + FetchLimit(from, n, cached)
  {
  }

  /** A send wakes the observer up unless it runs, ten positions before what the indexer
      had confirmed; one that runs keeps its window. */
  lemma SendWakesObserver(s: Relayer, a: Action)
    requires a.Send?
    ensures var s' := Step(s, a);
            && s'.running && s'.pending == s.pending && s'.page == s.page
            && s'.from == if s.running then s.from
                          else if a.deltaCount > 10 then 128 * (a.deltaCount - 10) else 0
  {
    hide Cached, PrefixedMemo;
  }

  /** The window in positions: it starts ten before the place where the observer was
      started and ends the size of the snapshot and ten more past the last announced
      entry. */
  lemma WindowIs(start: nat, n: nat, cached: nat)
    requires start <= n
    ensures var first, from := if start > 10 then start - 10 else 0, FetchOffset(128 * start);
            from == 128 * first && from <= Key(n) && FetchLimit(from, n, cached) == n - first + cached + 10
  {
  }

  lemma FetchedAt(q: Tiers, log: seq<HexString>, c: nat, from: nat, n: nat, cached: nat, i: nat)
    requires Mirrors(q, log, c) && n <= |log| && from <= Key(n) && from / OUTPLUSONE <= i < n
    ensures CommitmentOf(log[i]) in PageCommitments(PageOf(q, FetchLimit(from, n, cached), from))
  {
    hide PageOf, CarriesFrom, CommitmentOf, Mirrors, PageCommitments, FetchLimit, Key;
    WindowCovers(from, n, cached, i);
    PageCommitAt(q, log, c, FetchLimit(from, n, cached), from);
    CarriedAt(PageOf(q, FetchLimit(from, n, cached), from), log, from / OUTPLUSONE, i);
  }

  /** Some record of a commitment. */
  function RecordOf(commit: nat): HexString {
    PrefixedMemo(commit, seq(HASH, i => 0), [])
  }

  lemma RecordOfHolds(commit: nat)
    requires commit < Pow16(WORD)
    ensures IsStored(RecordOf(commit)) && CommitmentOf(RecordOf(commit)) == commit
  {
    hide PrefixedMemo, Pow16, CommitmentOf;
    PrefixedMemoParts(commit, seq(HASH, i => 0), []);
  }

  /** The indexer announces every entry of a listing. */
  lemma {:induction false} IndexEntries(s: Relayer, entries: seq<LocalEntry>) returns (actions: seq<Action>)
    requires forall i | 0 <= i < |entries| :: entries[i].commit < Pow16(WORD)
    ensures IsRun(s, actions) && forall a | a in actions :: a.Index?
    ensures var s' := Run(s, actions);
            && s' == s.(log := s'.log) && |s'.log| == |s.log| + |entries|
            && forall i | 0 <= i < |entries| :: CommitmentOf(s'.log[|s.log| + i]) == entries[i].commit
    ensures (forall i | 0 <= i < |s.log| :: IsStored(s.log[i])) ==>
              forall i | 0 <= i < |Run(s, actions).log| :: IsStored(Run(s, actions).log[i])
    decreases |entries|
  {
    hide IsRun, Run, Pow16, RecordOf, CommitmentOf, IsStored;
    if |entries| == 0 {
      actions := [];
      NoSteps(s);
    } else {
      var before, e := entries[..|entries| - 1], entries[|entries| - 1];
      var first := IndexEntries(s, before);
      var s1, a := Run(s, first), Index(RecordOf(e.commit));
      RecordOfHolds(e.commit);
      NoSteps(Step(s1, a));
      FirstStep(s1, a, []);
      RunsAppend(s, first, [a] + []);
      actions := first + ([a] + []);
    }
  }

  /** The observer drops everything it holds that is on its page. */
  lemma {:induction false} CheckAll(s: Relayer) returns (actions: seq<Action>)
    requires s.page.Some? && forall i | 0 <= i < |s.pending| :: s.pending[i].commit in s.page.value
    ensures IsRun(s, actions) && forall a | a in actions :: a.Check?
    ensures var s' := Run(s, actions);
            && s' == s.(cache := s'.cache, pending := [])
            && forall c :: c in s'.cache ==> c in s.cache && forall e | e in s.pending :: e.commit != c
    decreases |s.pending|
  {
    hide IsRun, Run;
    if s.pending == [] {
      actions := [];
      NoSteps(s);
    } else {
      var s1 := Step(s, Check);
      assert forall i | 0 <= i < |s1.pending| :: s1.pending[i] == s.pending[i + 1];
      assert s.pending == [s.pending[0]] + s1.pending;
      var rest := CheckAll(s1);
      FirstStep(s, Check, rest);
      actions := [Check] + rest;
    }
  }

  /** Every cached transaction that the indexer announced since the observer
      started, or up to ten positions earlier, is on the page it gets, although
      the log may grow between the two requests; so this round drops it. */
  lemma ObserverFindsIndexed(q: Tiers, log: seq<HexString>, c: nat, start: nat, n: nat, e: LocalEntry, cached: nat,
                             i: nat, now: nat)
    requires Mirrors(q, log, c) && start <= n <= |log| && i < n && i + 10 >= start
    requires e.commit == CommitmentOf(log[i])
    ensures var from := FetchOffset(Key(start));
            from <= Key(n) && Dropped(e, PageCommitments(PageOf(q, FetchLimit(from, n, cached), from)), now)
  {
    var from := FetchOffset(Key(start));
    assert from <= Key(n) && from / OUTPLUSONE <= i;
    hide PageOf, CommitmentOf, Mirrors, PageCommitments, FetchLimit, Key, FetchOffset;
    FetchedAt(q, log, c, from, n, cached, i);
  }

  /** The observer gives up what it holds. */
  lemma Released(s: Relayer) returns (actions: seq<Action>)
    ensures IsRun(s, actions) && forall a | a in actions :: a.Abandon?
    ensures var s' := Run(s, actions); s' == s.(pending := [], page := s'.page)
  {
    if s.pending == [] {
      actions := [];
      NoSteps(s);
    } else {
      NoSteps(Step(s, Abandon));
      FirstStep(s, Abandon, []);
      actions := [Abandon] + [];
    }
  }

  /** With everything announced that is cached, one round empties the cache. */
  lemma RoundEmpties(s: Relayer, entries: seq<LocalEntry>, start: nat) returns (actions: seq<Action>)
    requires LogOk(s) && s.pending == [] && s.running && entries != [] && EntriesOf(entries, UnstampedAll(s.cache))
    requires s.from <= Key(start) && |s.log| == start + |entries|
    requires forall i | 0 <= i < |entries| :: CommitmentOf(s.log[start + i]) == entries[i].commit
    ensures IsRun(s, actions) && forall a | a in actions :: !a.Send?
    ensures var s' := Run(s, actions); s' == s.(cache := map[], pending := [], page := s'.page)
  {
    hide IsRun, Run, CommitmentOf, IsStored, Unstamped, FetchLimit, PageOf, PageCommitments, Mirrors, ByTimestamp,
      DistinctEntries;
    var s1 := Step(s, Snapshot(entries));
    var q := SomeTiers(s.log);
    var a := Fetch(q, 0, |s.log|);
    var s2 := Step(s1, a);
    forall i | 0 <= i < |entries|
      ensures entries[i].commit in s2.page.value
    {
      FetchedAt(q, s.log, 0, s.from, |s.log|, |entries|, start + i);
    }
    var checks := CheckAll(s2);
    FirstStep(s1, a, checks);
    FirstStep(s, Snapshot(entries), [a] + checks);
    actions := [Snapshot(entries)] + ([a] + checks);
    var s' := Run(s, actions);
    forall c | c in s.cache
      ensures exists e :: e in entries && e.commit == c
    {
      assert LocalEntry(c, UnstampedAll(s.cache)[c]) in entries;
    }
    assert s'.cache == map[];
  }

  /** From every state the cache can get empty while nothing is sent, reverts or
      expires. */
  lemma CacheEmpties(s: Relayer) returns (actions: seq<Action>)
    requires Inv(s)
    ensures IsRun(s, actions) && forall a | a in actions :: !a.Send?
    ensures var s' := Run(s, actions);
            s'.cache == map[] && s' == s.(cache := map[], log := s'.log, pending := [], page := s'.page)
  {
    hide IsRun, Run, CommitmentOf, IsStored, Unstamped, EntriesOf, ByTimestamp, Pow16;
    var entries := SomeListing(UnstampedAll(s.cache));
    var releasing := Released(s);
    var s1 := Run(s, releasing);
    if s.cache == map[] {
      actions := releasing;
    } else {
      assert entries != [] && forall i | 0 <= i < |entries| :: entries[i].commit < Pow16(WORD) by {
        ListingCovers(s, entries);
      }
      var indexing := IndexEntries(s1, entries);
      var s2 := Run(s1, indexing);
      var round := RoundEmpties(s2, entries, |s.log|);
      RunsAppend(s1, indexing, round);
      RunsAppend(s, releasing, indexing + round);
      actions := releasing + (indexing + round);
    }
  }

  lemma ListingCovers(s: Relayer, entries: seq<LocalEntry>)
    requires CacheOk(s) && s.cache != map[] && EntriesOf(entries, UnstampedAll(s.cache))
    ensures entries != [] && forall i | 0 <= i < |entries| :: entries[i].commit < Pow16(WORD)
  {
    hide Unstamped, CommitmentOf, Pow16, ByTimestamp, DistinctEntries;
    var c :| c in s.cache;
    assert LocalEntry(c, UnstampedAll(s.cache)[c]) in entries;
    forall i | 0 <= i < |entries|
      ensures entries[i].commit in s.cache
    {
      assert entries[i].commit in UnstampedAll(s.cache);
    }
  }

  // ---------- Every answer ----------

  /** Whatever the relayer does between the two reads of a request: a short answer shows
      the transaction, as long as that has neither reverted nor expired and its
      commitment is not sent again. */
  ghost predicate EveryAnswerShows(s: Relayer, k: nat, page: seq<HexString>, limit: nat, offset: nat)
    requires k < |s.jobs|
  {
    forall actions, entries ::
      IsRun(s, actions) && Unsent(actions, s.jobs[k].commit) && Current(Run(s, actions), k)
      && Lists(entries, UnstampedAll(Run(s, actions).cache)) && |Merged(page, entries, limit)| < limit
      ==> Shown(Merged(page, entries, limit), s.log, offset, s.jobs[k].commit)
  }

  /** Every short answer to a request shows a current transaction if and only if the
      transaction was indexed when the page was fetched, or the indexer's page is full,
      so that no answer is short. */
  lemma AnswersExactly(s: Relayer, k: nat, q: Tiers, c: nat, limit: nat, offset: nat)
    requires Reachable(s) && Current(s, k) && Mirrors(q, s.log, c)
    ensures EveryAnswerShows(s, k, PageOf(q, limit, offset), limit, offset)
       <==> IsIndexed(s.log, s.jobs[k].commit) || |PageOf(q, limit, offset)| >= limit
  {
    hide Reachable, IsRun, Run, PageOf, Mirrors, Lists, Shown, IsIndexed, CacheOk, JobsOk, NullifiersOk, PageOk, LogOk,
      ObserverOk, Unstamped;
    var page, commit := PageOf(q, limit, offset), s.jobs[k].commit;
    if |page| < limit && !IsIndexed(s.log, commit) {
      ReachableHolds(s);
      var actions := CacheEmpties(s);
      var s' := Run(s, actions);
      EmptyListing(page, limit);
      ClientSeesEverySend(s, actions, q, c, limit, offset, [], commit);
      assert Current(s', k) && Unsent(actions, commit);
      assert !EveryAnswerShows(s, k, page, limit, offset);
    } else if |page| < limit {
      forall actions, entries | IsRun(s, actions) && Lists(entries, UnstampedAll(Run(s, actions).cache))
                                && |Merged(page, entries, limit)| < limit
        ensures Shown(Merged(page, entries, limit), s.log, offset, commit)
      {
        ClientSeesEverySend(s, actions, q, c, limit, offset, entries, commit);
      }
    }
  }

  lemma EmptyListing(page: seq<HexString>, limit: nat)
    ensures Lists([], UnstampedAll(map[])) && Merged(page, [], limit) == page
  {
  }

  /** A transaction that was safe when its request started and that the answer misses
      is in the indexer's log by then: the next request finds it. */
  lemma MissedIsIndexed(s: Relayer, k: nat, actions: seq<Action>, q: Tiers, c: nat, limit: nat, offset: nat,
                        entries: seq<LocalEntry>)
    requires Reachable(s) && k < |s.jobs| && Live(s, k) && Mirrors(q, s.log, c)
    requires IsRun(s, actions) && Unsent(actions, s.jobs[k].commit) && Current(Run(s, actions), k)
    requires Lists(entries, UnstampedAll(Run(s, actions).cache))
    requires |Merged(PageOf(q, limit, offset), entries, limit)| < limit
    requires !Shown(Merged(PageOf(q, limit, offset), entries, limit), s.log, offset, s.jobs[k].commit)
    ensures IsIndexed(Run(s, actions).log, s.jobs[k].commit)
  {
    hide Reachable, IsRun, Run, Merged, PageOf, Mirrors, Lists, Shown, IsIndexed, Inv, Unstamped;
    ReachableHolds(s);
    RunLive(s, actions, k);
    ClientSeesEverySend(s, actions, q, c, limit, offset, entries, s.jobs[k].commit);
  }

  // ---------- An instance ----------

  /** What happens between the two reads of a request: the indexer announces the
      transaction, under a record of its own. */
  function InBetween(sent: Action, record: HexString, q: Tiers): seq<Action>
    requires sent.Send?
  {
    var copy := LocalEntry(sent.commit, CachedTx(PrefixedMemo(sent.commit, sent.txHash, sent.memo), 0));
    [Index(record), Snapshot([copy]), Fetch(q, 0, 1), Check]
  }

  /** The relayer when the cache is read. */
  function WhenRead(sent: Action, record: HexString, q: Tiers): Relayer
    requires sent.Send?
  {
    Run(Step(START, sent), InBetween(sent, record, q))
  }

  lemma InBetweenRuns(sent: Action, record: HexString, q: Tiers)
    requires sent.Send? && Enabled(START, sent)
    requires IsStored(record) && CommitmentOf(record) == sent.commit && Mirrors(q, [record], 0)
    ensures IsRun(Step(START, sent), InBetween(sent, record, q))
    ensures var s := WhenRead(sent, record, q);
            && s.cache == map[] && s.jobs == [SentTx(sent.commit, sent.nullifier, 0)]
            && s.clock == 0 && s.resolved == 0 && s.log == [record]
  {
    hide PrefixedMemo, Stamped, Unstamped, Pow16, CommitmentOf, IsStored, Mirrors, PageOf, PageCommitments, IsRun, Run,
      FetchLimit;
    SendIsStored(sent.commit, sent.txHash, sent.memo, 0);
    var memo := PrefixedMemo(sent.commit, sent.txHash, sent.memo);
    var copy := LocalEntry(sent.commit, CachedTx(memo, 0));
    var s := Step(START, sent);
    assert s.cache == map[sent.commit := Stamped(memo, 0)];
    var s1 := Step(s, Index(record));
    assert s1.log == [record];
    assert copy in [copy];
    assert EntriesOf([copy], UnstampedAll(s1.cache));
    hide EntriesOf;
    var s2 := Step(s1, Snapshot([copy]));
    var s3 := Step(s2, Fetch(q, 0, 1));
    FetchedAt(q, [record], 0, 0, 1, 1, 0);
    var s4 := Step(s3, Check);
    assert s4.cache == map[];
    NoSteps(s4);
    FirstStep(s3, Check, []);
    FirstStep(s2, Fetch(q, 0, 1), [Check] + []);
    FirstStep(s1, Snapshot([copy]), [Fetch(q, 0, 1)] + ([Check] + []));
    FirstStep(s, Index(record), [Snapshot([copy])] + ([Fetch(q, 0, 1)] + ([Check] + [])));
    assert [Index(record)] + ([Snapshot([copy])] + ([Fetch(q, 0, 1)] + ([Check] + []))) == InBetween(sent, record, q);
  }

  /** A transaction is sent and a client asks for the transactions. The indexer's page
      is empty; before the cache is read, the indexer announces the transaction and the
      observer removes it. The answer is empty, although the transaction is current and
      live in both states. */
  lemma AnswerMisses(sent: Action, record: HexString, q: Tiers, limit: nat)
    requires sent.Send? && Enabled(START, sent) && limit > 0
    requires IsStored(record) && CommitmentOf(record) == sent.commit && Mirrors(q, [record], 0)
    ensures var s, s' := Step(START, sent), WhenRead(sent, record, q);
            && Reachable(s) && IsRun(s, InBetween(sent, record, q))
            && Unsent(InBetween(sent, record, q), sent.commit)
            && Current(s, 0) && Live(s, 0) && Current(s', 0) && Live(s', 0)
            && Mirrors(EMPTY, s.log, 0) && Lists([], UnstampedAll(s'.cache))
            && Merged(PageOf(EMPTY, limit, 0), [], limit) == []
            && !Shown([], s.log, 0, sent.commit)
  {
    hide PrefixedMemo, Pow16, CommitmentOf, Mirrors, Reachable, IsRun, Run, WhenRead, FetchLimit, IsStored, Merged,
      PageOf, PageCommitments, Unstamped, Stamped;
    InBetweenRuns(sent, record, q);
    StartReachable();
    ReachableStep(START, sent);
    EmptyPage(limit);
    EmptyListing([], limit);
    assert CommitmentOf([record][0]) == sent.commit;
  }
}
