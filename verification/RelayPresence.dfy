/** When a sent transaction stays in the relayer's cache or in the indexer's log: the
    exact condition, at any moment and at the send. */
module RelayPresence {

  import opened Bounds
  import opened Hex
  import opened Outcome
  import opened Records
  import opened State
  import opened Pool
  import opened Indexer
  import opened LocalCache
  import opened MergedPage
  import opened RelayCache

  /** The receipt of transaction `k` was handled, and it reports a revert. */
  predicate Reverted(s: Relayer, k: nat) {
    k < s.resolved && k < |s.outcomes| && !s.outcomes[k]
  }

  /** Sent, not reverted and not expired. */
  predicate Current(s: Relayer, k: nat) {
    k < |s.jobs| && !Reverted(s, k) && s.clock - s.jobs[k].sentAt <= EXPIRATION_MS
  }

  ghost predicate Present(s: Relayer, commit: nat) {
    commit in s.cache || IsIndexed(s.log, commit)
  }

  /** The observer has yet to judge a copy of the entry that is older than `time`. */
  predicate OlderPending(pending: seq<LocalEntry>, commit: nat, time: nat) {
    exists i | 0 <= i < |pending| :: pending[i].commit == commit && pending[i].tx.timestamp < time
  }

  /** The transaction is unresolved and was not mined as successful. */
  predicate MayFail(s: Relayer, j: nat) {
    s.resolved <= j < |s.jobs| && (j < |s.outcomes| ==> s.outcomes[j] == false)
  }

  predicate MaySucceed(s: Relayer, k: nat)
    requires k < |s.jobs|
  {
    if k < |s.outcomes| then s.outcomes[k] else s.jobs[k].nullifier !in s.spent
  }

  /** Another transaction of the commitment may revert while `k` does not. */
  predicate Threatens(s: Relayer, j: nat, k: nat)
    requires k < |s.jobs|
  {
    j != k && MayFail(s, j) && s.jobs[j].commit == s.jobs[k].commit && (j < k || MaySucceed(s, k))
  }

  predicate RevertAhead(s: Relayer, k: nat)
    requires k < |s.jobs|
  {
    exists j | 0 <= j < |s.jobs| :: Threatens(s, j, k)
  }

  /** In the indexer's log, or cached with nothing ahead that takes it away. */
  ghost predicate Live(s: Relayer, k: nat)
    requires k < |s.jobs|
  {
    var tx := s.jobs[k];
    IsIndexed(s.log, tx.commit)
    || (tx.commit in s.cache && !OlderPending(s.pending, tx.commit, tx.sentAt) && !RevertAhead(s, k))
  }

  /** No step sends the commitment again. */
  predicate Unsent(actions: seq<Action>, commit: nat) {
    forall a | a in actions :: a.Send? ==> a.commit != commit
  }

  /** Whatever happens next, the transaction is present until it reverts or expires or
      its commitment is sent again. */
  ghost predicate StaysPresent(s: Relayer, k: nat)
    requires k < |s.jobs|
  {
    forall actions ::
      IsRun(s, actions) && Unsent(actions, s.jobs[k].commit) && Current(Run(s, actions), k)
      ==> Present(Run(s, actions), s.jobs[k].commit)
  }

  // ---------- A live transaction stays live ----------

  /** Transactions, their times and their outcomes stay as they are. */
  lemma JobsStay(s: Relayer, a: Action, k: nat)
    requires k < |s.jobs| && JobsOk(s) && Enabled(s, a)
    ensures var s' := Step(s, a);
            && k < |s'.jobs| && s'.jobs[k] == s.jobs[k]
            && (Current(s', k) ==> Current(s, k))
            && s.jobs[k].commit in s.lastSent
            && (!(a.Send? && a.commit == s.jobs[k].commit) ==>
                  s.jobs[k].commit in s'.lastSent && s'.lastSent[s.jobs[k].commit] == s.lastSent[s.jobs[k].commit])
  {
    hide Cached, Judged, Mirrors, PageOf, PageCommitments, FetchLimit, FetchOffset, PrefixedMemo, EntriesOf, Pow16;
  }

  /** A threat after a step was one before. */
  lemma ThreatBefore(s: Relayer, a: Action, j: nat, k: nat)
    requires k < |s.jobs| && JobsOk(s) && Enabled(s, a) && Step(s, a).jobs[..|s.jobs|] == s.jobs
    requires |s.jobs| <= |Step(s, a).jobs| && !(a.Send? && a.commit == s.jobs[k].commit)
    requires Threatens(Step(s, a), j, k)
    ensures j < |s.jobs| && Threatens(s, j, k)
  {
    hide Cached, Judged, Mirrors, PageOf, PageCommitments, FetchLimit, FetchOffset, PrefixedMemo, EntriesOf, Pow16;
    assert forall i | 0 <= i < |s.jobs| :: Step(s, a).jobs[..|s.jobs|][i] == s.jobs[i];
  }

  lemma JobsPrefix(s: Relayer, a: Action)
    ensures |s.jobs| <= |Step(s, a).jobs| && Step(s, a).jobs[..|s.jobs|] == s.jobs
  {
    hide Cached, Judged, PageOf, PageCommitments, FetchLimit, FetchOffset, PrefixedMemo;
  }

  /** What a step other than a send of the commitment leaves of a cached entry. */
  lemma CachedStays(s: Relayer, a: Action, k: nat)
    requires Inv(s) && Enabled(s, a) && k < |s.jobs| && Current(Step(s, a), k)
    requires !(a.Send? && a.commit == s.jobs[k].commit)
    requires s.jobs[k].commit in s.cache && !RevertAhead(s, k)
    requires !OlderPending(s.pending, s.jobs[k].commit, s.jobs[k].sentAt)
    ensures s.jobs[k].commit in Step(s, a).cache || IsIndexed(s.log, s.jobs[k].commit)
  {
    hide IsIndexed, Mirrors, PageOf, PageCommitments, FetchLimit, FetchOffset, PrefixedMemo, EntriesOf, CacheOk, LogOk,
      Pow16;
    match a
    case Resolve => assert !Threatens(s, s.resolved, k);
    case Check => assert s.pending[0].commit == s.jobs[k].commit ==> s.pending[0].tx.timestamp >= s.jobs[k].sentAt;
    case _ =>
  }

  /** The observer gets no older copy than it holds. */
  lemma CopiesStayYoung(s: Relayer, a: Action, k: nat)
    requires Inv(s) && Enabled(s, a) && k < |s.jobs| && !(a.Send? && a.commit == s.jobs[k].commit)
    requires !OlderPending(s.pending, s.jobs[k].commit, s.jobs[k].sentAt)
    ensures !OlderPending(Step(s, a).pending, s.jobs[k].commit, s.jobs[k].sentAt)
  {
    hide IsIndexed, Mirrors, PageOf, PageCommitments, FetchLimit, FetchOffset, PrefixedMemo, LogOk, SentOk, Unstamped,
      Pow16, NullifiersOk, PageOk;
    var c, t := s.jobs[k].commit, s.jobs[k].sentAt;
    match a
    case Snapshot(entries) =>
      forall i | 0 <= i < |entries| && entries[i].commit == c
        ensures entries[i].tx.timestamp >= t
      {
        assert entries[i].commit in UnstampedAll(s.cache);
      }
    case Check =>
      forall i | 0 <= i < |s.pending| - 1
        ensures Step(s, a).pending[i] == s.pending[i + 1]
      {
      }
    case _ =>
  }

  lemma StillIndexed(s: Relayer, a: Action, c: nat)
    requires IsIndexed(s.log, c)
    ensures IsIndexed(Step(s, a).log, c)
  {
    hide Cached, Judged, PageOf, PageCommitments, FetchLimit, FetchOffset, PrefixedMemo;
    if a.Index? {
      IndexedNow(s.log, a.record, c);
    }
    hide IsIndexed;
  }

  lemma StepLive(s: Relayer, a: Action, k: nat)
    requires Inv(s) && Enabled(s, a) && k < |s.jobs| && !(a.Send? && a.commit == s.jobs[k].commit)
    requires Live(s, k) && Current(Step(s, a), k)
    ensures Step(s, a).jobs[k] == s.jobs[k] && Live(Step(s, a), k)
  {
    hide IsIndexed, OlderPending, Threatens, Step, Enabled, CacheOk, PageOk, LogOk, NullifiersOk, ObserverOk, Current;
    var s', c := Step(s, a), s.jobs[k].commit;
    JobsStay(s, a, k);
    JobsPrefix(s, a);
    if IsIndexed(s.log, c) {
      StillIndexed(s, a, c);
    } else {
      CachedStays(s, a, k);
      CopiesStayYoung(s, a, k);
      forall j | 0 <= j < |s'.jobs|
        ensures !Threatens(s', j, k)
      {
        if Threatens(s', j, k) {
          ThreatBefore(s, a, j, k);
        }
      }
    }
  }

  /** Over a run: what was sent stays what it was, and a live transaction live. */
  lemma {:induction false} RunLive(s: Relayer, actions: seq<Action>, k: nat)
    requires Inv(s) && IsRun(s, actions) && k < |s.jobs| && Unsent(actions, s.jobs[k].commit)
    ensures var s' := Run(s, actions);
            && k < |s'.jobs| && s'.jobs[k] == s.jobs[k]
            && s.jobs[k].commit in s.lastSent && s.jobs[k].commit in s'.lastSent
            && s'.lastSent[s.jobs[k].commit] == s.lastSent[s.jobs[k].commit]
            && (Current(s', k) ==> Current(s, k) && (Live(s, k) ==> Live(s', k)))
    decreases |actions|
  {
    hide Step, Enabled, Live, Current, CacheOk, PageOk, LogOk, NullifiersOk, ObserverOk;
    if |actions| > 0 {
      assert actions[0] in actions && forall a | a in actions[1..] :: a in actions;
      JobsStay(s, actions[0], k);
      StepKeeps(s, actions[0]);
      var s1 := Step(s, actions[0]);
      RunLive(s1, actions[1..], k);
      if Live(s, k) && Current(s1, k) {
        StepLive(s, actions[0], k);
      }
    }
  }

  // ---------- A transaction that is not live can be lost ----------

  /** The transactions that are not mined yet, up to `j`, are mined; only `k` may
      succeed. */
  lemma {:induction false} MineUpTo(s: Relayer, j: nat, k: nat) returns (actions: seq<Action>)
    requires JobsOk(s) && j < |s.jobs| && k < |s.jobs|
    requires k <= j && |s.outcomes| <= k ==> s.jobs[k].nullifier !in s.spent
    ensures IsRun(s, actions) && forall a | a in actions :: a.Mine?
    ensures var s' := Run(s, actions);
            && s' == s.(outcomes := s'.outcomes, spent := s'.spent) && JobsOk(s') && s.outcomes <= s'.outcomes
            && |s'.outcomes| == (if |s.outcomes| <= j then j + 1 else |s.outcomes|)
            && forall i | |s.outcomes| <= i < |s'.outcomes| :: s'.outcomes[i] == (i == k)
    decreases |s.jobs| - |s.outcomes|
  {
    if |s.outcomes| <= j {
      var a := Mine(|s.outcomes| == k);
      var s1 := Step(s, a);
      var rest := MineUpTo(s1, j, k);
      FirstStep(s, a, rest);
      actions := [a] + rest;
      assert s1.outcomes[..|s.outcomes|] == s.outcomes;
    } else {
      actions := [];
      NoSteps(s);
    }
  }

  /** The receipts up to that of a reverted transaction are handled. */
  lemma {:induction false} ResolveUpTo(s: Relayer, j: nat) returns (actions: seq<Action>)
    requires JobsOk(s) && s.resolved <= j < |s.outcomes| && !s.outcomes[j]
    ensures IsRun(s, actions) && forall a | a in actions :: a == Resolve
    ensures var s' := Run(s, actions);
            && s'.jobs == s.jobs && s'.outcomes == s.outcomes && s'.resolved == j + 1
            && s'.log == s.log && s'.clock == s.clock && s.jobs[j].commit !in s'.cache
    decreases j - s.resolved
  {
    var s1 := Step(s, Resolve);
    if s.resolved == j {
      NoSteps(s1);
      FirstStep(s, Resolve, []);
      actions := [Resolve] + [];
    } else {
      var rest := ResolveUpTo(s1, j);
      FirstStep(s, Resolve, rest);
      actions := [Resolve] + rest;
    }
  }

  /** Another transaction of the commitment reverts. */
  lemma ThreatComesTrue(s: Relayer, j: nat, k: nat) returns (actions: seq<Action>)
    requires Inv(s) && j < |s.jobs| && Current(s, k) && Threatens(s, j, k) && !IsIndexed(s.log, s.jobs[k].commit)
    ensures IsRun(s, actions) && Unsent(actions, s.jobs[k].commit)
    ensures Current(Run(s, actions), k) && !Present(Run(s, actions), s.jobs[k].commit)
  {
    hide IsIndexed, Step, Enabled, CacheOk, PageOk, LogOk, NullifiersOk, ObserverOk, IsRun, Run;
    var mining := MineUpTo(s, j, k);
    var s1 := Run(s, mining);
    var resolving := ResolveUpTo(s1, j);
    RunsAppend(s, mining, resolving);
    actions := mining + resolving;
  }

  /** Some tiers that hold a log. */
  lemma SomeTiers(log: seq<HexString>) returns (q: Tiers)
    requires forall i | 0 <= i < |log| :: IsStored(log[i])
    ensures Mirrors(q, log, 0)
  {
    TierOfHolds(log);
    hide CommitmentOf, IsStored, TierOf;
    q := Tiers(EMPTY_TIER, TierOf(log));
    assert log[..0] == [];
  }

  /** The tier that holds a log. */
  function TierOf(log: seq<HexString>): Tier {
    Tier(Commitments(log), map k | 0 <= k < Key(|log|) && k % OUTPLUSONE == 0 :: log[k / OUTPLUSONE], {})
  }

  lemma TierOfHolds(log: seq<HexString>)
    requires forall i | 0 <= i < |log| :: IsStored(log[i])
    ensures Holds(TierOf(log), log)
  {
    hide CommitmentOf, IsStored;
    forall i | 0 <= i < |log|
      ensures TierOf(log).leaves[i] == CommitmentOf(log[i]) && TierOf(log).txs[Key(i)] == log[i]
    {
      assert Key(i) < Key(|log|) && Key(i) % OUTPLUSONE == 0 && Key(i) / OUTPLUSONE == i;
    }
  }

  /** What an observer does to its snapshot leaves the rest as it is. */
  predicate OnlyObserved(s: Relayer, s': Relayer) {
    s' == s.(cache := s'.cache, clock := s'.clock, pending := s'.pending, page := s'.page)
  }

  /** An older copy, `i` entries ahead, that the page lets pass: once its time is up
      the observer takes the entry. */
  lemma {:induction false} JudgedTooLate(s: Relayer, k: nat, i: nat) returns (actions: seq<Action>)
    requires Current(s, k) && s.page.Some? && s.jobs[k].commit !in s.page.value
    requires i < |s.pending| && s.pending[i].commit == s.jobs[k].commit && s.pending[i].tx.timestamp < s.jobs[k].sentAt
    ensures IsRun(s, actions) && forall a | a in actions :: !a.Send?
    ensures var s' := Run(s, actions);
            OnlyObserved(s, s') && s.jobs[k].commit !in s'.cache && s'.clock - s.jobs[k].sentAt <= EXPIRATION_MS
    decreases i
  {
    if i == 0 {
      var now := Max(s.clock, s.pending[0].tx.timestamp + EXPIRATION_MS + 1);
      var s1 := Step(s, Tick(now));
      NoSteps(Step(s1, Check));
      FirstStep(s1, Check, []);
      FirstStep(s, Tick(now), [Check] + []);
      actions := [Tick(now)] + ([Check] + []);
    } else {
      var s1 := Step(s, Check);
      assert s1.pending[i - 1] == s.pending[i];
      var rest := JudgedTooLate(s1, k, i - 1);
      FirstStep(s, Check, rest);
      actions := [Check] + rest;
    }
  }

  /** The observer has its page, or fetches it now. */
  lemma PageFetched(s: Relayer) returns (actions: seq<Action>)
    requires Inv(s) && s.pending != []
    ensures IsRun(s, actions) && forall a | a in actions :: a.Fetch?
    ensures var s' := Run(s, actions);
            s' == s.(page := s'.page) && s'.page.Some? && PageOk(s')
  {
    hide IsIndexed, Mirrors, PageOf, PageCommitments, FetchLimit, CacheOk, IsStored;
    if s.page.Some? {
      actions := [];
      NoSteps(s);
    } else {
      var q := SomeTiers(s.log);
      var a := Fetch(q, 0, |s.log|);
      FetchKeeps(s, q, 0, |s.log|);
      NoSteps(Step(s, a));
      FirstStep(s, a, []);
      actions := [a] + [];
    }
  }

  /** An expired copy takes the entry. */
  lemma CopyComesDue(s: Relayer, k: nat) returns (actions: seq<Action>)
    requires Inv(s) && Current(s, k) && OlderPending(s.pending, s.jobs[k].commit, s.jobs[k].sentAt)
    requires !IsIndexed(s.log, s.jobs[k].commit)
    ensures IsRun(s, actions) && Unsent(actions, s.jobs[k].commit)
    ensures Current(Run(s, actions), k) && !Present(Run(s, actions), s.jobs[k].commit)
  {
    hide IsIndexed, Step, Enabled, CacheOk, LogOk, NullifiersOk, ObserverOk, IsRun, Run;
    var i :| 0 <= i < |s.pending| && s.pending[i].commit == s.jobs[k].commit
             && s.pending[i].tx.timestamp < s.jobs[k].sentAt;
    var fetching := PageFetched(s);
    var s1 := Run(s, fetching);
    var judging := JudgedTooLate(s1, k, i);
    RunsAppend(s, fetching, judging);
    actions := fetching + judging;
  }

  // ---------- Main results ----------

  /** The exact condition, at any moment of any run: a current transaction stays
      present until it reverts or expires or its commitment is sent again, if and
      only if it is in the indexer's log, or it is cached, the observer holds no copy
      of the entry that is older, and no other transaction of the commitment may
      revert before it does. */
  lemma StaysExactly(s: Relayer, k: nat)
    requires Reachable(s) && Current(s, k)
    ensures StaysPresent(s, k) <==> Live(s, k)
  {
    assert k < |s.jobs|;
    hide Reachable, IsIndexed, Step, Enabled, IsRun, Run, CacheOk, JobsOk, PageOk, LogOk, NullifiersOk, ObserverOk,
      Current, OlderPending, Threatens;
    ReachableHolds(s);
    if Live(s, k) {
      forall actions | IsRun(s, actions) && Unsent(actions, s.jobs[k].commit) && Current(Run(s, actions), k)
        ensures Present(Run(s, actions), s.jobs[k].commit)
      {
        RunLive(s, actions, k);
      }
    } else if s.jobs[k].commit !in s.cache {
      NoSteps(s);
      assert Unsent([], s.jobs[k].commit);
    } else if OlderPending(s.pending, s.jobs[k].commit, s.jobs[k].sentAt) {
      var actions := CopyComesDue(s, k);
    } else {
      var j :| 0 <= j < |s.jobs| && Threatens(s, j, k);
      var actions := ThreatComesTrue(s, j, k);
    }
  }

  /** The condition at the send. */
  ghost predicate SafeToSend(s: Relayer, commit: nat) {
    IsIndexed(s.log, commit)
    || (!OlderPending(s.pending, commit, s.clock)
        && forall j | 0 <= j < |s.jobs| :: s.jobs[j].commit == commit ==> !MayFail(s, j))
  }

  /** A transaction stays present from its send on, whatever happens until it reverts
      or expires or its commitment is sent again, if and only if the observer holds no
      older copy of its entry and no earlier transaction of the commitment may still
      revert, or the indexer has the commitment already. */
  lemma SendIsSafe(s: Relayer, a: Action)
    requires Reachable(s) && a.Send? && Enabled(s, a)
    ensures StaysPresent(Step(s, a), |s.jobs|) <==> SafeToSend(s, a.commit)
  {
    hide Reachable, StaysPresent, IsIndexed, CacheOk, PageOk, LogOk, ObserverOk, PrefixedMemo, Pow16, OlderPending,
      Stamped, FetchOffset;
    ReachableStep(s, a);
    ReachableHolds(s);
    var s' := Step(s, a);
    StaysExactly(s', |s.jobs|);
    forall j | 0 <= j < |s'.jobs|
      ensures Threatens(s', j, |s.jobs|) <==> j < |s.jobs| && s.jobs[j].commit == a.commit && MayFail(s, j)
    {
    }
  }

  /** In every run a transaction that was safe to send is in the cache, exactly as it
      was sent, or in the indexer's log. */
  lemma NothingDisappears(s: Relayer, a: Action, actions: seq<Action>)
    requires Reachable(s) && a.Send? && Enabled(s, a) && SafeToSend(s, a.commit)
    requires IsRun(Step(s, a), actions) && Unsent(actions, a.commit) && Current(Run(Step(s, a), actions), |s.jobs|)
    ensures var s' := Run(Step(s, a), actions);
            && Present(s', a.commit)
            && (a.commit in s'.cache ==>
                  Unstamped(s'.cache[a.commit]) == CachedTx(PrefixedMemo(a.commit, a.txHash, a.memo), s.clock))
  {
    SendIsSafe(s, a);
    ReachableStep(s, a);
    var k, s1 := |s.jobs|, Step(s, a);
    assert s1.jobs[k].commit == a.commit;
    assert s1.lastSent[a.commit] == CachedTx(PrefixedMemo(a.commit, a.txHash, a.memo), s.clock);
    hide Reachable, Step, Enabled, IsRun, Run, IsIndexed, Live, Current, SafeToSend, PrefixedMemo, Unstamped;
    ReachableHolds(s1);
    RunLive(s1, actions, k);
    RunKeeps(s1, actions);
  }

  /** A second transaction with a nullifier is only sent after the receipt of some
      revert was handled since the first was sent; and the first has reverted itself or
      may still revert, unless the contract took the nullifier after it was asked. */
  lemma SecondNeedsRevert(s: Relayer, a: Action, j: nat)
    requires Reachable(s) && a.Send? && Enabled(s, a)
    requires j < |s.jobs| && s.jobs[j].nullifier == a.nullifier
    ensures j < s.cleared && SomeReverted(s.outcomes, s.resolved)
    ensures Reverted(s, j) || MayFail(s, j) || a.nullifier in s.spent
  {
    hide Reachable, CacheOk, PageOk, LogOk, ObserverOk, SomeReverted, Pow16;
    ReachableHolds(s);
  }

  /** When the revert of any transaction is handled, its commitment is present
      afterwards if and only if it is indexed: whoever else carries it. */
  lemma RevertTakes(s: Relayer)
    requires Reachable(s) && Enabled(s, Resolve) && !s.outcomes[s.resolved]
    ensures Present(Step(s, Resolve), s.jobs[s.resolved].commit) <==> IsIndexed(s.log, s.jobs[s.resolved].commit)
  {
    hide Reachable, IsIndexed;
  }

  /** One judgement: it takes a cached transaction away if and only if it is about an
      expired copy of it and the indexer does not have it. */
  lemma CheckTakes(s: Relayer, commit: nat)
    requires Reachable(s) && Enabled(s, Check) && commit in s.cache
    ensures var e := s.pending[0];
            Present(Step(s, Check), commit)
            <==> IsIndexed(s.log, commit) || e.commit != commit || s.clock - e.tx.timestamp <= EXPIRATION_MS
  {
    hide Reachable, IsIndexed, CacheOk, JobsOk, NullifiersOk, ObserverOk, LogOk;
    ReachableHolds(s);
  }

  // ---------- Instances ----------

  lemma LateTimestamp()
    ensures EXPIRATION_MS + 1 < Pow16(TIMESTAMP) && Pow16(TIMESTAMP) > 0
  {
  }

  lemma StartReachable()
    ensures Reachable(START)
  {
    NoSteps(START);
  }

  /** Two transactions are sent; the first one reverts, and the second is sent again. */
  function SentAgain(d: Action, c: Action): Relayer
    requires d.Send? && c.Send?
  {
    Step(Step(Step(Step(Step(START, d), c), Mine(false)), Resolve), c)
  }

  /** The revert has cleared the nullifier of the second, so it is accepted again. */
  lemma SentAgainIs(d: Action, c: Action)
    requires d.Send? && c.Send? && d.commit != c.commit && d.nullifier != c.nullifier
    requires Enabled(START, d) && Enabled(START, c)
    ensures var s := SentAgain(d, c);
            && Reachable(s) && s.outcomes == [false] && s.resolved == 1 && s.clock == 0 && s.log == [] && s.spent == {}
            && s.jobs == [SentTx(d.commit, d.nullifier, 0), SentTx(c.commit, c.nullifier, 0),
                          SentTx(c.commit, c.nullifier, 0)]
  {
    hide Cached, PrefixedMemo, Pow16, Reachable;
    StartReachable();
    ReachableStep(START, d);
    var s1 := Step(START, d);
    ReachableStep(s1, c);
    var s2 := Step(s1, c);
    ReachableStep(s2, Mine(false));
    var s3 := Step(s2, Mine(false));
    ReachableStep(s3, Resolve);
    var s4 := Step(s3, Resolve);
    assert s4.nullifiers == {} && s4.jobs == s2.jobs;
    ReachableStep(s4, c);
  }

  /** The first transaction with the nullifier succeeds. */
  function FirstSucceeded(d: Action, c: Action): Relayer
    requires d.Send? && c.Send?
  {
    Step(Step(SentAgain(d, c), Mine(true)), Resolve)
  }

  lemma FirstSucceededIs(d: Action, c: Action)
    requires d.Send? && c.Send? && d.commit != c.commit && d.nullifier != c.nullifier
    requires Enabled(START, d) && Enabled(START, c)
    ensures var s := FirstSucceeded(d, c);
            && Reachable(s) && s.outcomes == [false, true] && s.resolved == 2 && s.clock == 0 && s.log == []
            && s.jobs == SentAgain(d, c).jobs
  {
    SentAgainIs(d, c);
    hide SentAgain, Reachable;
    var s := SentAgain(d, c);
    ReachableStep(s, Mine(true));
    ReachableStep(Step(s, Mine(true)), Resolve);
  }

  /** Two jobs are in flight and the first one reverts, which clears the nullifier of
      the second; that one is sent again. The first transaction with it succeeds, the
      second reverts: until the indexer has it, the successful one is nowhere. */
  lemma SecondRevertTakesFirst(d: Action, c: Action)
    requires d.Send? && c.Send? && d.commit != c.commit && d.nullifier != c.nullifier
    requires Enabled(START, d) && Enabled(START, c)
    ensures var s := Step(Step(FirstSucceeded(d, c), Mine(false)), Resolve);
            && Reachable(s) && s.outcomes == [false, true, false] && s.resolved == 3
            && |s.jobs| == 3 && s.jobs[1] == SentTx(c.commit, c.nullifier, 0)
            && Current(s, 1) && !Present(s, c.commit)
  {
    hide SentAgain, FirstSucceeded, Reachable, CommitmentOf, Pow16, Judged, PageOf, PageCommitments;
    SentAgainIs(d, c);
    FirstSucceededIs(d, c);
    var s := FirstSucceeded(d, c);
    ReachableStep(s, Mine(false));
    ReachableStep(Step(s, Mine(false)), Resolve);
  }

  /** A transaction was sent and has expired. */
  function Overdue(c: Action): Relayer
    requires c.Send?
  {
    Step(Step(START, c), Tick(EXPIRATION_MS + 1))
  }

  lemma OverdueIs(c: Action)
    requires c.Send? && Enabled(START, c)
    ensures var s := Overdue(c);
            && Reachable(s)
            && s == Relayer(map[c.commit := Stamped(PrefixedMemo(c.commit, c.txHash, c.memo), 0)], {c.nullifier}, [],
                            EXPIRATION_MS + 1, {}, true, 0, [], None, [SentTx(c.commit, c.nullifier, 0)], [], 0,
                            map[c.commit := CachedTx(PrefixedMemo(c.commit, c.txHash, c.memo), 0)], 0)
  {
    hide PrefixedMemo, Stamped, Pow16, Reachable;
    StartReachable();
    ReachableStep(START, c);
    ReachableStep(Step(START, c), Tick(EXPIRATION_MS + 1));
  }

  /** The observer holds its copy and has the page. */
  function StaleHeld(c: Action): Relayer
    requires c.Send?
  {
    var copy := LocalEntry(c.commit, CachedTx(PrefixedMemo(c.commit, c.txHash, c.memo), 0));
    Step(Step(Overdue(c), Snapshot([copy])), Fetch(EMPTY, 0, 0))
  }

  lemma EmptyPage(limit: nat)
    ensures Mirrors(EMPTY, [], 0) && PageOf(EMPTY, limit, 0) == [] && PageCommitments([]) == {}
  {
  }

  lemma StaleHeldIs(c: Action)
    requires c.Send? && Enabled(START, c)
    ensures var copy := LocalEntry(c.commit, CachedTx(PrefixedMemo(c.commit, c.txHash, c.memo), 0));
            Reachable(StaleHeld(c)) && StaleHeld(c) == Overdue(c).(pending := [copy], page := Some({}))
  {
    hide PrefixedMemo, Stamped, Unstamped, Pow16, Reachable, PageOf, PageCommitments, Mirrors, Overdue, CommitmentOf;
    SendIsStored(c.commit, c.txHash, c.memo, 0);
    OverdueIs(c);
    EmptyPage(11);
    var s, copy := Overdue(c), LocalEntry(c.commit, CachedTx(PrefixedMemo(c.commit, c.txHash, c.memo), 0));
    assert copy in [copy];
    assert EntriesOf([copy], UnstampedAll(s.cache));
    hide EntriesOf;
    ReachableStep(s, Snapshot([copy]));
    ReachableStep(Step(s, Snapshot([copy])), Fetch(EMPTY, 0, 0));
  }

  /** The observer holds an expired copy when the transaction is sent once more, with
      another nullifier: its next step takes the one that was sent a moment ago. */
  lemma StaleCopyTakesResend(c: Action, again: Action)
    requires c.Send? && again.Send? && Enabled(START, c) && Enabled(START, again)
    requires again.commit == c.commit && again.nullifier != c.nullifier
    ensures var s := Step(Step(StaleHeld(c), again), Check);
            && Reachable(s) && s.outcomes == [] && |s.jobs| == 2
            && s.jobs[1] == SentTx(c.commit, again.nullifier, s.clock) && Current(s, 1) && !Present(s, c.commit)
  {
    LateTimestamp();
    hide StaleHeld, Overdue, PrefixedMemo, Pow16, Reachable, CommitmentOf, PageOf, PageCommitments, Stamped, Unstamped;
    OverdueIs(c);
    StaleHeldIs(c);
    var s := StaleHeld(c);
    ReachableStep(s, again);
    ReachableStep(Step(s, again), Check);
  }
}
