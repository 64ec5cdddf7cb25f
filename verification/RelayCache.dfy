/** The relayer's cache of sent transactions over whole runs: transactions are
    sent and revert, the indexer's log grows, and an observer removes what the
    indexer has or what is too old (`RelayPool.ts`). */
module RelayCache {

  import opened Bounds
  import opened Hex
  import opened Outcome
  import opened Records
  import opened State
  import opened Pool
  import opened Indexer
  import opened LocalCache
  import opened MergedPage

  const EXPIRATION_MS: nat := 1000 * 60 * 60 * 24
  const OFFSET_MARGIN: nat := 10 * OUTPLUSONE
  const EXTEND_LIMIT_TO_FETCH: nat := 10

  /** `cacheTxLocally`. */
  function Cached(cache: map<nat, HexString>, commit: nat, txHash: HexString, memo: HexString, now: nat)
    : map<nat, HexString>
  {
    cache[commit := Stamped(PrefixedMemo(commit, txHash, memo), now)]
  }

  /** The observer drops an entry of its snapshot that the page holds or that is
      too old, whatever the cache holds under that commitment by then. */
  predicate Dropped(e: LocalEntry, page: set<nat>, now: nat) {
    e.commit in page || now - e.tx.timestamp > EXPIRATION_MS
  }

  function Judged(cache: map<nat, HexString>, e: LocalEntry, page: set<nat>, now: nat): map<nat, HexString> {
    if Dropped(e, page, now) then cache - {e.commit} else cache
  }

  /** No entry of the snapshot takes the commitment out of the cache. */
  predicate Survives(commit: nat, entries: seq<LocalEntry>, page: set<nat>, times: seq<nat>)
    requires |entries| <= |times|
  {
    forall i | 0 <= i < |entries| && entries[i].commit == commit :: !Dropped(entries[i], page, times[i])
  }

  /** How many entries of the snapshot are not dropped. */
  function Left(entries: seq<LocalEntry>, page: set<nat>, times: seq<nat>): (n: nat)
    requires |entries| <= |times|
    ensures n <= |entries|
  {
    if |entries| == 0 then 0
    else
      var last := |entries| - 1;
      Left(entries[..last], page, times) + if Dropped(entries[last], page, times[last]) then 0 else 1
  }

  lemma LeftNext(entries: seq<LocalEntry>, k: nat, page: set<nat>, times: seq<nat>)
    requires k < |entries| <= |times|
    ensures Dropped(entries[k], page, times[k])
       <==> entries[k].commit in page || times[k] - entries[k].tx.timestamp > EXPIRATION_MS
    ensures Left(entries[..k + 1], page, times)
         == Left(entries[..k], page, times) + if Dropped(entries[k], page, times[k]) then 0 else 1
    ensures forall c :: Survives(c, entries[..k + 1], page, times)
                    <==> (Survives(c, entries[..k], page, times)
                          && (entries[k].commit == c ==> !Dropped(entries[k], page, times[k])))
  {
    assert entries[..k + 1][..k] == entries[..k];
    assert entries[..k + 1][k] == entries[k];
    forall c
      ensures Survives(c, entries[..k + 1], page, times)
         <==> (Survives(c, entries[..k], page, times)
               && (entries[k].commit == c ==> !Dropped(entries[k], page, times[k])))
    {
    }
  }

  /** The entries that are neither on the page nor older than a day when they are judged. */
  function Kept(entries: seq<LocalEntry>, page: set<nat>, times: seq<nat>): set<nat>
    requires |entries| <= |times|
  {
    set i | 0 <= i < |entries| && entries[i].commit !in page
            && times[i] <= entries[i].tx.timestamp + 24 * 60 * 60 * 1000
  }

  lemma KeptNext(entries: seq<LocalEntry>, page: set<nat>, times: seq<nat>)
    requires 0 < |entries| <= |times|
    ensures var last := |entries| - 1;
            Kept(entries, page, times)
            == Kept(entries[..last], page, times) + if Dropped(entries[last], page, times[last]) then {} else {last}
  {
    var last := |entries| - 1;
    forall i: nat
      ensures i in Kept(entries, page, times)
         <==> i in Kept(entries[..last], page, times) || (i == last && !Dropped(entries[last], page, times[last]))
    {
      assert i < last ==> entries[..last][i] == entries[i];
    }
  }

  lemma {:induction false} LeftCounts(entries: seq<LocalEntry>, page: set<nat>, times: seq<nat>)
    requires |entries| <= |times|
    ensures Left(entries, page, times) == |Kept(entries, page, times)|
  {
    if |entries| > 0 {
      var last := |entries| - 1;
      KeptNext(entries, page, times);
      assert last !in Kept(entries[..last], page, times);
      hide Kept, Dropped;
      LeftCounts(entries[..last], page, times);
    }
  }

  class RelayPool {
    const base: BasePool
    const txStore: TxStore

    constructor (rootOf: seq<nat> -> nat)
      ensures base.Valid() && base.View() == EMPTY && txStore.entries == map[]
    {
      base := new BasePool(rootOf);
      txStore := new TxStore();
    }

    /** The nullifier checks of `validateTx`; `spent` is the contract's answer. */
    method CheckNullifier(nullifier: nat, spent: bool) returns (ok: bool)
      ensures ok <==> nullifier !in base.optimisticState.nullifiers.members && !spent
    {
      var pending := base.optimisticState.nullifiers.IsInSet(nullifier);
      ok := !pending && !spent;
    }

    method OnSend(outCommit: nat, nullifier: Option<nat>, txHash: HexString, memo: HexString, now: nat)
      requires base.Valid()
      modifies base.optimisticState.nullifiers, txStore
      ensures base.View() == old(base.View().(optimistic := base.View().optimistic.(nullifiers :=
                base.View().optimistic.nullifiers + if nullifier.Some? then {nullifier.value} else {})))
      ensures txStore.entries == Cached(old(txStore.entries), outCommit, txHash, memo, now)
    {
      if nullifier.Some? {
        base.optimisticState.nullifiers.Add([nullifier.value]);
        assert base.optimisticState.nullifiers.members
            == old(base.optimisticState.nullifiers.members) + {nullifier.value};
      }
      txStore.Add(outCommit, PrefixedMemo(outCommit, txHash, memo), now);
    }

    /** The commitment is the third public input of the job's proof. */
    method OnFailed(jobInputs: Option<seq<nat>>)
      requires base.Valid()
      modifies base.optimisticState, base.optimisticState.nullifiers, txStore
      ensures base.View() == old(base.View()).ClearOptimisticState()
      ensures txStore.entries == if jobInputs.Some? && |jobInputs.value| > 2
                                 then old(txStore.entries) - {jobInputs.value[2]} else old(txStore.entries)
    {
      base.OnFailed();
      if jobInputs.Some? && |jobInputs.value| > 2 {
        txStore.Remove(jobInputs.value[2]);
      }
    }

    /** One round of the observer over its snapshot, undisturbed; `times` are the
        clock readings. It answers how many entries it left. */
    method ObserveEntries(localEntries: seq<LocalEntry>, indexerCommitments: set<nat>, times: seq<nat>)
      returns (localEntriesCnt: nat)
      requires |times| == |localEntries|
      modifies txStore
      ensures forall c :: c in txStore.entries
                      <==> c in old(txStore.entries) && Survives(c, localEntries, indexerCommitments, times)
      ensures forall c | c in txStore.entries :: txStore.entries[c] == old(txStore.entries)[c]
      ensures localEntriesCnt == Left(localEntries, indexerCommitments, times)
    {
      assert forall c :: Survives(c, localEntries[..0], indexerCommitments, times);
      hide Dropped, Survives, Left;
      localEntriesCnt := |localEntries|;
      for k := 0 to |localEntries|
        invariant forall c :: c in txStore.entries
                          <==> c in old(txStore.entries) && Survives(c, localEntries[..k], indexerCommitments, times)
        invariant forall c | c in txStore.entries :: txStore.entries[c] == old(txStore.entries)[c]
        invariant localEntriesCnt == Left(localEntries[..k], indexerCommitments, times) + |localEntries| - k
      {
        var e := localEntries[k];
        LeftNext(localEntries, k, indexerCommitments, times);
        if e.commit in indexerCommitments {
          txStore.Remove(e.commit);
          localEntriesCnt := localEntriesCnt - 1;
        } else if times[k] - e.tx.timestamp > EXPIRATION_MS {
          txStore.Remove(e.commit);
          localEntriesCnt := localEntriesCnt - 1;
        }
      }
      assert localEntries[..|localEntries|] == localEntries;
    }
  }

  // ---------- Runs ----------

  /** A transaction that was sent. Its position among all sent ones identifies it;
      nonces are handed out and mined in that order. */
  datatype SentTx = SentTx(commit: nat, nullifier: nat, sentAt: nat)

  /** The relayer: its cache and its optimistic nullifiers. Outside: the indexer's
      log, the clock, the nullifiers the contract holds. The observer: whether it
      runs, the offset it was started with, the size of its snapshot and what of it is
      to be judged, the commitments of its page. The transactions: all sent ones, the
      outcomes of the mined ones, the number of those whose receipt was handled. For
      the properties: the last entry that was cached for every commitment, and how
      many transactions had been sent when a revert was handled last. */
  datatype Relayer = Relayer(
    cache: map<nat, HexString>, nullifiers: set<nat>,
    log: seq<HexString>, clock: nat, spent: set<nat>,
    running: bool, from: nat, pending: seq<LocalEntry>, page: Option<set<nat>>,
    jobs: seq<SentTx>, outcomes: seq<bool>, resolved: nat,
    lastSent: map<nat, CachedTx>, cleared: nat)

  datatype Action =
    | Tick(now: nat)
    | Send(commit: nat, nullifier: nat, txHash: HexString, memo: HexString, deltaCount: nat)
    | Mine(success: bool)
    | Resolve
    | SpendElsewhere(spentNullifier: nat)
    | Index(record: HexString)
    | Snapshot(entries: seq<LocalEntry>)
    | Fetch(q: Tiers, c: nat, n: nat)
    | Check
    | Abandon

  ghost predicate IsIndexed(log: seq<HexString>, commit: nat) {
    exists i | 0 <= i < |log| :: CommitmentOf(log[i]) == commit
  }

  /** The offset that an observer keeps, from the indexer's confirmed index when it
      was started. */
  function FetchOffset(deltaIndex: nat): nat {
    if deltaIndex > OFFSET_MARGIN then deltaIndex - OFFSET_MARGIN else 0
  }

  /** How many transactions it asks for, when the indexer has announced `n` and
      `cached` entries are in its snapshot. */
  function FetchLimit(from: nat, n: nat, cached: nat): nat
    requires from <= Key(n)
  {
    (Key(n) - from) / OUTPLUSONE + cached + EXTEND_LIMIT_TO_FETCH
  }

  /** When a step can happen. A transaction is sent while the clock fits the 48 bits
      of a timestamp, if the relayer does not know its nullifier; that the contract did
      not know it either was checked some awaits earlier and may be out of date. The
      contract takes a nullifier once. The observer's page comes from a two-tier
      indexer that holds the log, which may have grown since it reported `n`. */
  ghost predicate Enabled(s: Relayer, a: Action) {
    match a
    case Tick(now) => s.clock <= now
    case Send(commit, nullifier, txHash, _, deltaCount) =>
      && commit < Pow16(WORD) && |txHash| == HASH && s.clock < Pow16(TIMESTAMP)
      && nullifier !in s.nullifiers && deltaCount <= |s.log|
    case Mine(success) => |s.outcomes| < |s.jobs| && (success ==> s.jobs[|s.outcomes|].nullifier !in s.spent)
    case Resolve => s.resolved < |s.outcomes| <= |s.jobs|
    case SpendElsewhere(_) => true
    case Index(record) => IsStored(record)
    case Snapshot(entries) => s.running && s.pending == [] && EntriesOf(entries, UnstampedAll(s.cache))
    case Fetch(q, c, n) =>
      s.pending != [] && s.page.None? && Mirrors(q, s.log, c) && s.from <= Key(n) && n <= |s.log|
    case Check => s.pending != [] && s.page.Some?
    case Abandon => s.pending != []
  }

  /** A send starts the observer unless it runs; it stops when it finds nothing in
      the cache. A receipt that reports a revert removes the entry of the commitment
      and clears the nullifiers. */
  function Step(s: Relayer, a: Action): Relayer {
    match a
    case Tick(now) => s.(clock := now)
    case Send(commit, nullifier, txHash, memo, deltaCount) =>
      s.(cache := Cached(s.cache, commit, txHash, memo, s.clock),
         nullifiers := s.nullifiers + {nullifier},
         running := true,
         from := if s.running then s.from else FetchOffset(Key(deltaCount)),
         jobs := s.jobs + [SentTx(commit, nullifier, s.clock)],
         lastSent := s.lastSent[commit := CachedTx(PrefixedMemo(commit, txHash, memo), s.clock)])
    case Mine(success) =>
      if |s.outcomes| >= |s.jobs| then s
      else
        s.(outcomes := s.outcomes + [success],
           spent := if success then s.spent + {s.jobs[|s.outcomes|].nullifier} else s.spent)
    case Resolve =>
      if s.resolved >= |s.outcomes| || s.resolved >= |s.jobs| then s
      else if s.outcomes[s.resolved] then s.(resolved := s.resolved + 1)
      else
        s.(resolved := s.resolved + 1, cache := s.cache - {s.jobs[s.resolved].commit},
           nullifiers := {}, cleared := |s.jobs|)
    case SpendElsewhere(nullifier) => s.(spent := s.spent + {nullifier})
    case Index(record) => s.(log := s.log + [record])
    case Snapshot(entries) => s.(running := entries != [], pending := entries, page := None)
    case Fetch(q, _, n) =>
      if s.from > Key(n) then s
      else s.(page := Some(PageCommitments(PageOf(q, FetchLimit(s.from, n, |s.pending|), s.from))))
    case Check =>
      if s.pending == [] || s.page.None? then s
      else s.(cache := Judged(s.cache, s.pending[0], s.page.value, s.clock), pending := s.pending[1..])
    case Abandon => s.(pending := [], page := None)
  }

  ghost predicate IsRun(s: Relayer, actions: seq<Action>)
    decreases |actions|
  {
    |actions| == 0 || (Enabled(s, actions[0]) && IsRun(Step(s, actions[0]), actions[1..]))
  }

  function Run(s: Relayer, actions: seq<Action>): Relayer
    decreases |actions|
  {
    if |actions| == 0 then s else Run(Step(s, actions[0]), actions[1..])
  }

  const START: Relayer := Relayer(map[], {}, [], 0, {}, false, 0, [], None, [], [], 0, map[], 0)

  ghost predicate Reachable(s: Relayer) {
    exists actions :: IsRun(START, actions) && s == Run(START, actions)
  }

  // ---------- The invariant ----------

  ghost predicate SentOk(clock: nat, commit: nat, tx: CachedTx) {
    commit < Pow16(WORD) && IsRecord(tx.memo) && CommitmentOf(tx.memo) == commit && tx.timestamp <= clock
  }

  /** Every cached entry reads back as the last one that was cached for it. */
  ghost predicate CacheOk(s: Relayer) {
    && (forall c | c in s.cache :: c in s.lastSent && Unstamped(s.cache[c]) == s.lastSent[c])
    && (forall c | c in s.lastSent :: SentOk(s.clock, c, s.lastSent[c]))
  }

  predicate JobsOk(s: Relayer) {
    && s.resolved <= |s.outcomes| <= |s.jobs|
    && forall j | 0 <= j < |s.jobs| ::
         s.jobs[j].commit in s.lastSent && s.jobs[j].sentAt <= s.lastSent[s.jobs[j].commit].timestamp
  }

  /** The optimistic nullifiers are those sent since the last handled revert; what
      succeeded is spent. */
  predicate NullifiersOk(s: Relayer) {
    && s.cleared <= |s.jobs|
    && (forall j | s.cleared <= j < |s.jobs| :: s.jobs[j].nullifier in s.nullifiers)
    && (forall j | 0 <= j < |s.outcomes| && j < |s.jobs| && s.outcomes[j] :: s.jobs[j].nullifier in s.spent)
    && (s.cleared > 0 ==> SomeReverted(s.outcomes, s.resolved))
  }

  /** The receipt of a reverted transaction was handled. */
  predicate SomeReverted(outcomes: seq<bool>, resolved: nat) {
    exists i | 0 <= i < resolved && i < |outcomes| :: !outcomes[i]
  }

  lemma RevertedStays(outcomes: seq<bool>, more: seq<bool>, resolved: nat)
    requires SomeReverted(outcomes, resolved) && outcomes <= more
    ensures SomeReverted(more, resolved) && SomeReverted(more, resolved + 1)
  {
    var i :| 0 <= i < resolved && i < |outcomes| && !outcomes[i];
    assert !more[i];
  }

  ghost predicate PageOk(s: Relayer) {
    s.page.Some? ==> forall c | c in s.page.value :: IsIndexed(s.log, c)
  }

  ghost predicate LogOk(s: Relayer) {
    forall i | 0 <= i < |s.log| :: IsStored(s.log[i])
  }

  /** The observer runs while there is something to observe. */
  predicate ObserverOk(s: Relayer) {
    (s.cache != map[] || s.pending != [] ==> s.running) && s.from <= Key(|s.log|) && DistinctEntries(s.pending)
  }

  ghost predicate Inv(s: Relayer) {
    CacheOk(s) && JobsOk(s) && NullifiersOk(s) && PageOk(s) && LogOk(s) && ObserverOk(s)
  }

  lemma SendIsStored(commit: nat, txHash: HexString, memo: HexString, now: nat)
    requires commit < Pow16(WORD) && |txHash| == HASH && now < Pow16(TIMESTAMP)
    ensures var record := PrefixedMemo(commit, txHash, memo);
            Unstamped(Stamped(record, now)) == CachedTx(record, now)
            && IsRecord(record) && CommitmentOf(record) == commit
  {
    hide PrefixedMemo, Stamped, Unstamped, Pow16;
    PrefixedMemoParts(commit, txHash, memo);
    StampRoundTrip(PrefixedMemo(commit, txHash, memo), now);
  }

  /** What a send caches under its commitment: the digits of the commitment, the hash
      and the memo, with the time of the send; other entries stay. */
  lemma CachedIs(cache: map<nat, HexString>, commit: nat, txHash: HexString, memo: HexString, now: nat)
    requires commit < Pow16(WORD) && |txHash| == HASH && now < Pow16(TIMESTAMP)
    ensures var cache' := Cached(cache, commit, txHash, memo, now);
            && commit in cache' && cache' - {commit} == cache - {commit}
            && var tx := Unstamped(cache'[commit]);
               && tx.timestamp == now && |tx.memo| == 128 + |memo|
               && Value(tx.memo[..64]) == commit && tx.memo[64..128] == txHash && tx.memo[128..] == memo
  {
    hide PrefixedMemo, Stamped, Unstamped, Pow16, Value, NumToHex;
    SendIsStored(commit, txHash, memo, now);
    PrefixedIs(commit, txHash, memo);
    var cache' := Cached(cache, commit, txHash, memo, now);
    assert cache' - {commit} == cache - {commit};
  }

  lemma SendKeeps(s: Relayer, a: Action)
    requires a.Send? && Inv(s) && Enabled(s, a)
    ensures Inv(Step(s, a))
  {
    hide PrefixedMemo, CommitmentOf, Stamped, Unstamped, Pow16, IsIndexed, IsStored, SomeReverted, DistinctEntries;
    SendIsStored(a.commit, a.txHash, a.memo, s.clock);
  }

  lemma SnapshotKeeps(s: Relayer, entries: seq<LocalEntry>)
    requires Inv(s) && Enabled(s, Snapshot(entries))
    ensures Inv(Step(s, Snapshot(entries)))
  {
    hide CommitmentOf, Unstamped, ByTimestamp, IsIndexed, IsStored, SentOk;
    if s.cache != map[] {
      var c :| c in s.cache;
      assert LocalEntry(c, UnstampedAll(s.cache)[c]) in entries;
    }
  }

  lemma PageIsIndexed(q: Tiers, log: seq<HexString>, c: nat, limit: nat, offset: nat)
    requires Mirrors(q, log, c)
    ensures forall k | k in PageCommitments(PageOf(q, limit, offset)) :: IsIndexed(log, k)
  {
    hide CommitmentOf, CarriesFrom, PageOf, Mirrors, PageCommitments;
    PageCommitAt(q, log, c, limit, offset);
    var page, a := PageOf(q, limit, offset), Min(offset / OUTPLUSONE, |log|);
    forall k | k in PageCommitments(page)
      ensures IsIndexed(log, k)
    {
      var i := CarriedFrom(page, log, a, k);
    }
  }

  lemma FetchKeeps(s: Relayer, q: Tiers, c: nat, n: nat)
    requires Inv(s) && Enabled(s, Fetch(q, c, n))
    ensures Inv(Step(s, Fetch(q, c, n)))
  {
    hide IsIndexed, PageCommitments, PageOf, SentOk, Mirrors, IsStored, Unstamped, FetchLimit;
    PageIsIndexed(q, s.log, c, FetchLimit(s.from, n, |s.pending|), s.from);
  }

  lemma IndexKeeps(s: Relayer, record: HexString)
    requires Inv(s) && Enabled(s, Index(record))
    ensures Inv(Step(s, Index(record)))
  {
    hide SentOk, CommitmentOf, Unstamped, IsStored, NullifiersOk, JobsOk;
    forall c
      ensures IsIndexed(s.log + [record], c) == (IsIndexed(s.log, c) || c == CommitmentOf(record))
    {
      IndexedNow(s.log, record, c);
    }
    hide IsIndexed;
    assert JobsOk(Step(s, Index(record))) && NullifiersOk(Step(s, Index(record))) by {
      JobsApartFromLog(s, s.log + [record]);
    }
  }

  lemma JobsApartFromLog(s: Relayer, log: seq<HexString>)
    requires JobsOk(s) && NullifiersOk(s)
    ensures JobsOk(s.(log := log)) && NullifiersOk(s.(log := log))
  {
  }

  lemma IndexedNow(log: seq<HexString>, record: HexString, c: nat)
    ensures IsIndexed(log + [record], c) <==> IsIndexed(log, c) || c == CommitmentOf(record)
  {
    hide CommitmentOf;
    var log' := log + [record];
    if IsIndexed(log, c) {
      var i :| 0 <= i < |log| && CommitmentOf(log[i]) == c;
      assert log'[i] == log[i];
    }
    assert log'[|log|] == record;
  }

  lemma MineKeeps(s: Relayer, a: Action)
    requires (a.Mine? || a.SpendElsewhere?) && Inv(s) && Enabled(s, a)
    ensures Inv(Step(s, a))
  {
    hide SentOk, Unstamped, IsStored, IsIndexed, SomeReverted, DistinctEntries;
    if SomeReverted(s.outcomes, s.resolved) {
      RevertedStays(s.outcomes, Step(s, a).outcomes, s.resolved);
    }
  }

  lemma ResolveKeeps(s: Relayer)
    requires Inv(s) && Enabled(s, Resolve)
    ensures Inv(Step(s, Resolve))
  {
    hide SentOk, Unstamped, IsStored, IsIndexed;
    var s' := Step(s, Resolve);
    if SomeReverted(s.outcomes, s.resolved) {
      RevertedStays(s.outcomes, s.outcomes, s.resolved);
    }
    assert !s.outcomes[s.resolved] ==> SomeReverted(s'.outcomes, s'.resolved);
    hide SomeReverted, DistinctEntries;
    assert s'.cache != map[] ==> s.cache != map[];
  }

  lemma OthersKeep(s: Relayer, a: Action)
    requires (a.Tick? || a.Check? || a.Abandon?) && Inv(s) && Enabled(s, a)
    ensures Inv(Step(s, a))
  {
    hide Unstamped, IsStored, IsIndexed, CommitmentOf, Pow16;
  }

  lemma StepKeeps(s: Relayer, a: Action)
    requires Inv(s) && Enabled(s, a)
    ensures Inv(Step(s, a))
  {
    hide Inv, Enabled, Step;
    match a
    case Send(_, _, _, _, _) => SendKeeps(s, a);
    case Index(record) => IndexKeeps(s, record);
    case Snapshot(entries) => SnapshotKeeps(s, entries);
    case Fetch(q, c, n) => FetchKeeps(s, q, c, n);
    case Mine(_) => MineKeeps(s, a);
    case Resolve => ResolveKeeps(s);
    case SpendElsewhere(_) => MineKeeps(s, a);
    case _ => OthersKeep(s, a);
  }

  lemma {:induction false} RunKeeps(s: Relayer, actions: seq<Action>)
    requires Inv(s) && IsRun(s, actions)
    ensures Inv(Run(s, actions))
    decreases |actions|
  {
    hide Inv, Enabled, Step;
    if |actions| > 0 {
      StepKeeps(s, actions[0]);
      RunKeeps(Step(s, actions[0]), actions[1..]);
    }
  }

  lemma StartHolds()
    ensures Inv(START)
  {
  }

  /** In every reachable state: entries read back as they were sent, the nullifiers
      are those sent since the last handled revert, the observer runs while anything
      is cached, and its page holds indexed commitments only. */
  lemma ReachableHolds(s: Relayer)
    requires Reachable(s)
    ensures Inv(s)
  {
    hide Run, IsRun, Inv;
    StartHolds();
    var actions :| IsRun(START, actions) && s == Run(START, actions);
    RunKeeps(START, actions);
  }

  // ---------- Runs, put together ----------

  lemma NoSteps(s: Relayer)
    ensures IsRun(s, []) && Run(s, []) == s
  {
  }

  lemma FirstStep(s: Relayer, a: Action, rest: seq<Action>)
    requires Enabled(s, a) && IsRun(Step(s, a), rest)
    ensures IsRun(s, [a] + rest) && Run(s, [a] + rest) == Run(Step(s, a), rest)
  {
    hide Enabled, Step;
    assert ([a] + rest)[1..] == rest;
  }

  lemma {:induction false} RunsAppend(s: Relayer, first: seq<Action>, rest: seq<Action>)
    requires IsRun(s, first) && IsRun(Run(s, first), rest)
    ensures IsRun(s, first + rest) && Run(s, first + rest) == Run(Run(s, first), rest)
    decreases |first|
  {
    hide Enabled, Step;
    if |first| == 0 {
      assert first + rest == rest;
    } else {
      RunsAppend(Step(s, first[0]), first[1..], rest);
      assert (first + rest)[1..] == first[1..] + rest;
    }
  }

  lemma ReachableRun(s: Relayer, rest: seq<Action>)
    requires Reachable(s) && IsRun(s, rest)
    ensures Reachable(Run(s, rest))
  {
    hide Run, IsRun;
    var actions :| IsRun(START, actions) && s == Run(START, actions);
    RunsAppend(START, actions, rest);
  }

  lemma ReachableStep(s: Relayer, a: Action)
    requires Reachable(s) && Enabled(s, a)
    ensures Reachable(Step(s, a))
  {
    hide Enabled, Step, Reachable;
    NoSteps(Step(s, a));
    FirstStep(s, a, []);
    ReachableRun(s, [a] + []);
  }
}
