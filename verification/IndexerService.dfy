/** The whole indexer: it rebuilds its pool from the contract and then watches
    the chain (`services/indexer/init.ts`). */
module IndexerService {

  import opened Bounds
  import opened Hex
  import opened Outcome
  import opened Records
  import opened State
  import opened Pool
  import opened Chain = Watcher
  import opened ContractSync
  import opened Indexer

  /** A pool that holds what the first `n` events announce, with `c` entries
      confirmed: at least those that the events' roots cover. A pool that was
      rebuilt from the contract may be ahead of the roots it has seen. */
  ghost predicate Holding(node: Node, p: Tiers, events: seq<Event>, n: nat, c: nat) {
    n <= |events| && Mirrors(p, Log(node, events[..n]), c) && Mined(events[..n]) <= c
  }

  function Nullifiers(p: Tiers): (set<nat>, set<nat>) {
    (p.confirmed.nullifiers, p.optimistic.nullifiers)
  }

  lemma {:induction false} CopyKeepsNullifiers(p: Tiers, i: nat, end: nat)
    ensures Nullifiers(p.CopyUp(i, end).0) == Nullifiers(p)
    decreases end - i
  {
    hide CommitmentOf, Put, Buffered;
    if i < end && Key(i) in p.optimistic.txs {
      var tx := p.optimistic.txs[Key(i)];
      CopyKeepsNullifiers(p.(confirmed := p.confirmed.UpdateState(i, CommitmentOf(tx), tx)), i + 1, end);
    }
  }

  /** The watcher's events never touch nullifiers. */
  lemma ApplyKeepsNullifiers(node: Node, p: Tiers, e: Event)
    ensures Nullifiers(Apply(node, p, e).0) == Nullifiers(p)
  {
    hide Put, Buffered, PrefixedMemo;
    match e
    case Message(_, _, _, _) =>
    case RootUpdated(index, _) =>
      CopyKeepsNullifiers(p, |p.confirmed.leaves|, index / OUTPLUSONE);
  }

  /** The next event of a batch, seen before or not. */
  lemma HoldNext(node: Node, p: Tiers, events: seq<Event>, n: nat, c: nat, i: nat)
    requires Consistent(node, events) && Holding(node, p, events, n, c) && i <= n && i < |events|
    ensures var (p', ok) := Apply(node, p, events[i]);
            var m := Max(n, i + 1);
            ok && Holding(node, p', events, m, Max(c, Mined(events[..m])))
  {
    hide Apply, GoodEvent, RecordOf, Mirrors;
    assert GoodEvent(node, events[i], |Log(node, events[..i])|);
    assert events[..i + 1][..i] == events[..i];
    if i < n {
      LogGrows(node, events, i + 1, n);
      if events[i].RootUpdated? {
        RootCovers(events[i], |Log(node, events[..i])|, node);
      }
      ApplyAgain(node, p, Log(node, events[..n]), c, events[i], |Log(node, events[..i])|);
    } else {
      ApplyNew(node, p, Log(node, events[..n]), c, events[n]);
      assert Log(node, events[..n]) + [] == Log(node, events[..n]);
    }
  }

  lemma RootCovers(e: Event, k: nat, node: Node)
    requires GoodEvent(node, e, k) && e.RootUpdated?
    ensures e.rootIndex / OUTPLUSONE <= k
  {
  }

  /** A batch that is processed again from any earlier event, up to a failure. */
  lemma {:induction false} BatchHolds(node: Node, p: Tiers, events: seq<Event>, n: nat, c: nat, from: nat, end: nat,
                                      budget: nat)
    requires Consistent(node, events) && Holding(node, p, events, n, c) && from <= n && from <= end <= |events|
    ensures var r := Process(node, p, events[from..end], budget);
            var m := Max(n, from + r.done);
            (from + r.done <= end && (r.ok <==> from + r.done == end)
             && Holding(node, r.pool, events, m, Max(c, Mined(events[..m])))
             && Nullifiers(r.pool) == Nullifiers(p))
    decreases end - from
  {
    hide Apply, Consistent, Mirrors, Nullifiers, Log, Mined;
    if from < end && budget > 0 {
      assert events[from..end][0] == events[from] && events[from..end][1..] == events[from + 1..end];
      HoldNext(node, p, events, n, c, from);
      ApplyKeepsNullifiers(node, p, events[from]);
      var m := Max(n, from + 1);
      var p' := Apply(node, p, events[from]).0;
      BatchHolds(node, p', events, m, Max(c, Mined(events[..m])), from + 1, end, budget - 1);
      var r := Process(node, p, events[from..end], budget);
      MinedGrows(node, events, m, Max(m, from + r.done));
    }
  }

  lemma MinedGrows(node: Node, events: seq<Event>, i: nat, n: nat)
    requires i <= n <= |events|
    ensures Mined(events[..i]) <= Mined(events[..n])
  {
    LogGrows(node, events, i, n);
  }

  /** What every polling round keeps: the pool holds a prefix of the chain's
      events that includes every event up to the last processed block. */
  ghost predicate Serving(node: Node, blocks: seq<seq<Event>>, s: WatchState, n: nat, c: nat) {
    && s.lastProcessedBlock < |blocks|
    && Before(blocks, s.lastProcessedBlock + 1) <= n <= |Flatten(blocks)|
    && Holding(node, s.pool, Flatten(blocks), n, c)
  }

  /** Every root, with those before it, covers all entries that were announced in
      the blocks below its own. */
  ghost predicate RootsCatchUp(node: Node, blocks: seq<seq<Event>>) {
    forall i | 0 <= i < |Flatten(blocks)| && Flatten(blocks)[i].RootUpdated? ::
      MessagesBelow(node, blocks, Flatten(blocks)[i].blockNumber) <= Mined(Flatten(blocks)[..i + 1])
  }

  /** A remembered block from which a restart misses nothing: the confirmed log
      holds every entry below it. */
  predicate Resumable(node: Node, blocks: seq<seq<Event>>, saved: nat, c: nat) {
    MessagesBelow(node, blocks, saved) <= c
  }

  /** The remembered block was known or is that of a root among the events. */
  lemma {:induction false} NotedIs(events: seq<Event>, saved: nat, a: nat, b: nat) returns (j: nat)
    requires a <= b <= |events|
    ensures var saved' := NoteRoots(saved, events[a..b]);
            && saved <= saved'
            && (forall i | a <= i < b && events[i].RootUpdated? :: events[i].blockNumber <= saved')
            && (saved' != saved ==> a <= j < b && events[j].RootUpdated? && events[j].blockNumber == saved')
    decreases b - a
  {
    j := a;
    if a < b {
      assert events[a..b][..b - a - 1] == events[a..b - 1];
      assert events[a..b][b - a - 1] == events[b - 1];
      j := NotedIs(events, saved, a, b - 1);
      if NoteRoots(saved, events[a..b]) != NoteRoots(saved, events[a..b - 1]) {
        j := b - 1;
      }
    }
  }

  /** With roots that catch up, what a batch remembers is resumable. */
  lemma NotedIsResumable(node: Node, blocks: seq<seq<Event>>, saved: nat, c: nat, a: nat, b: nat, m: nat)
    requires a <= b <= m <= |Flatten(blocks)| && RootsCatchUp(node, blocks) && Resumable(node, blocks, saved, c)
    ensures Resumable(node, blocks, NoteRoots(saved, Flatten(blocks)[a..b]), Max(c, Mined(Flatten(blocks)[..m])))
  {
    hide Flatten, MessagesBelow, Mined, NoteRoots;
    var j := NotedIs(Flatten(blocks), saved, a, b);
    if NoteRoots(saved, Flatten(blocks)[a..b]) != saved {
      MinedGrows(node, Flatten(blocks), j + 1, m);
    }
  }

  lemma RoundServes(node: Node, blocks: seq<seq<Event>>, cfg: WatcherConfig, s: WatchState, n: nat, c: nat, tick: Tick)
    returns (m: nat)
    requires Known(cfg, blocks, tick) && Consistent(node, Flatten(blocks)) && Serving(node, blocks, s, n, c)
    ensures n <= m <= |Flatten(blocks)|
    ensures var s' := WatchRound(node, blocks, cfg, s, tick);
            var c' := Max(c, Mined(Flatten(blocks)[..m]));
            && Serving(node, blocks, s', m, c') && Nullifiers(s'.pool) == Nullifiers(s.pool)
            && (RootsCatchUp(node, blocks) && Resumable(node, blocks, s.saved, c) ==>
                  Resumable(node, blocks, s'.saved, c'))
  {
    hide Process, Flatten, Consistent, Mirrors, Log, Mined, Nullifiers, NoteRoots, RootsCatchUp;
    var fromBlock := s.lastProcessedBlock + 1;
    var toBlock := WindowEnd(cfg, s.lastProcessedBlock, tick);
    if toBlock < fromBlock {
      m := n;
    } else {
      FlattenSlice(blocks, fromBlock, toBlock + 1);
      var a, b := Before(blocks, fromBlock), Before(blocks, toBlock + 1);
      BatchHolds(node, s.pool, Flatten(blocks), n, c, a, b, tick.budget);
      var done := Process(node, s.pool, Flatten(blocks)[a..b], tick.budget).done;
      m := Max(n, a + done);
      assert Flatten(blocks)[a..b][..done] == Flatten(blocks)[a..a + done];
      if RootsCatchUp(node, blocks) && Resumable(node, blocks, s.saved, c) {
        NotedIsResumable(node, blocks, s.saved, c, a, a + done, m);
      }
    }
  }

  /** Over any polling rounds with any failures. */
  lemma {:induction false} RunServes(node: Node, blocks: seq<seq<Event>>, cfg: WatcherConfig, s: WatchState, n: nat,
                                     c: nat, ticks: seq<Tick>)
    returns (m: nat)
    requires forall t | t in ticks :: Known(cfg, blocks, t)
    requires Consistent(node, Flatten(blocks)) && Serving(node, blocks, s, n, c)
    ensures n <= m <= |Flatten(blocks)|
    ensures var s' := WatchRun(node, blocks, cfg, s, ticks);
            var c' := Max(c, Mined(Flatten(blocks)[..m]));
            && Serving(node, blocks, s', m, c') && Nullifiers(s'.pool) == Nullifiers(s.pool)
            && (RootsCatchUp(node, blocks) && Resumable(node, blocks, s.saved, c) ==>
                  Resumable(node, blocks, s'.saved, c'))
    decreases |ticks|
  {
    hide WatchRound, Flatten, Consistent, Mirrors, Log, Mined, Nullifiers, Known, RootsCatchUp, MessagesBelow;
    if |ticks| == 0 {
      m := n;
    } else {
      assert ticks[0] in ticks && forall t | t in ticks[1..] :: t in ticks;
      var k := RoundServes(node, blocks, cfg, s, n, c, ticks[0]);
      var c' := Max(c, Mined(Flatten(blocks)[..k]));
      m := RunServes(node, blocks, cfg, WatchRound(node, blocks, cfg, s, ticks[0]), k, c', ticks[1..]);
      MinedGrows(node, Flatten(blocks), k, m);
    }
  }

  /** Every page is the slice of the log that its offset and limit name. */
  ghost predicate ServesPages(q: Tiers, log: seq<HexString>, c: nat) {
    forall limit: nat, offset: nat :: PageOf(q, limit, offset)
      == WireSlice(log, c, Min(offset / OUTPLUSONE, |log|), Min(offset / OUTPLUSONE + limit, |log|))
  }

  lemma MirrorsServe(q: Tiers, log: seq<HexString>, c: nat)
    requires Mirrors(q, log, c)
    ensures ServesPages(q, log, c)
  {
    hide Mirrors, PageOf, WireSlice;
    forall limit: nat, offset: nat
      ensures PageOf(q, limit, offset)
           == WireSlice(log, c, Min(offset / OUTPLUSONE, |log|), Min(offset / OUTPLUSONE + limit, |log|))
    {
      PageIsSlice(q, log, c, limit, offset);
    }
  }

  /** A pool that holds the first `m` events, in terms of the whole log. */
  lemma HoldsStretch(node: Node, p: Tiers, events: seq<Event>, m: nat, c: nat)
    requires Holding(node, p, events, m, c)
    ensures var n, log := |Log(node, events[..m])|, Log(node, events);
            c <= n <= |log| && Log(node, events[..m]) == log[..n]
  {
    hide Log, Mined, Holds;
    LogGrows(node, events, m, |events|);
    assert events[..|events|] == events;
  }

  /** The events up to one of two positions announce the longer of two stretches. */
  lemma LongerStretch(node: Node, events: seq<Event>, a: nat, b: nat)
    requires a <= |events| && b <= |events|
    ensures |Log(node, events[..Max(a, b)])| == Max(|Log(node, events[..a])|, |Log(node, events[..b])|)
    ensures Mined(events[..Max(a, b)]) == Max(Mined(events[..a]), Mined(events[..b]))
  {
    hide Log, Mined;
    if a <= b {
      LogGrows(node, events, a, b);
    } else {
      LogGrows(node, events, b, a);
    }
  }

  lemma BelowIs(node: Node, blocks: seq<seq<Event>>, b: nat)
    requires b <= |blocks|
    ensures Before(blocks, b) <= |Flatten(blocks)|
    ensures MessagesBelow(node, blocks, b) == |Log(node, Flatten(blocks)[..Before(blocks, b)])|
  {
    hide Log, Flatten;
    FlattenSlice(blocks, 0, b);
  }

  /** How many events the pool holds after a sync that has something to do: also those
      that the sync itself brings in. */
  function Synchronised(blocks: seq<seq<Event>>, sync: SyncConfig, m: nat, c: nat, mined: nat): nat
    requires sync.lastBlock < |blocks|
  {
    if c < mined then Max(m, Before(blocks, sync.lastBlock + 1)) else m
  }

  /** The pool that a start leaves behind, and how many events it holds. */
  lemma StartHolds(node: Node, rootOf: seq<nat> -> nat, blocks: seq<seq<Event>>, sync: SyncConfig,
                   held: Local, stored: Option<nat>, m: nat, c: nat, mined: nat) returns (m': nat)
    requires 1 <= sync.startBlock && 1 <= sync.lastBlock < |blocks| && Consistent(node, Flatten(blocks))
    requires Holding(node, held.pool, Flatten(blocks), m, c) && c <= mined <= |Log(node, Flatten(blocks))|
    requires stored.Some? ==> stored.value < |blocks|
                              && Before(blocks, stored.value + 1) <= Synchronised(blocks, sync, m, c, mined)
    requires Mined(Flatten(blocks[..sync.lastBlock + 1])) <= mined
    requires c == mined || WindowCloses(node, blocks, sync, held.saved, c, mined)
    requires stored.Some? || c < mined
          || MessagesBelow(node, blocks, sync.lastBlock + 1) <= |Log(node, Flatten(blocks)[..m])|
    ensures var contract := ContractAt(rootOf, Log(node, Flatten(blocks)), mined);
            var (s', ok) := Synced(rootOf, node, held, blocks, sync, contract, 1);
            && Ended(node, held, blocks, sync, contract.index, 1) && ok
            && Serving(node, blocks, WatchState(s'.pool, s'.saved, ResumeAt(stored, sync.lastBlock + 1)), m', mined)
            && s' == if c == mined then held else Pass(node, held, blocks, sync, contract.index).0
  {
    hide Consistent, Mirrors, Log, Mined, Flatten, WindowCloses, Synced, Ended, Pass, MessagesBelow, InSync;
    BelowIs(node, blocks, sync.lastBlock + 1);
    var events, log := Flatten(blocks), Log(node, Flatten(blocks));
    HoldsStretch(node, held.pool, events, m, c);
    var n := |Log(node, events[..m])|;
    SyncRestores(rootOf, node, held, blocks, sync, n, c, mined);
    FlattenSlice(blocks, 0, sync.lastBlock + 1);
    var end := Before(blocks, sync.lastBlock + 1);
    LongerStretch(node, events, m, end);
    m' := if stored.Some? && c == mined then m else Max(m, end);
    LogGrows(node, events, m', |events|);
    assert events[..|events|] == events;
    var n' := |Log(node, events[..m'])|;
    assert log[..n'] == Log(node, events[..m']);
    if stored.Some? {
      FlattenSlice(blocks, 0, stored.value + 1);
    }
  }

  /** The indexer over its whole life. It starts with a pool, a remembered block
      and a stored block from before, or with nothing; it syncs up to the head
      `sync.lastBlock`, goes on watching where it stopped, and serves pages. After
      any polling rounds, with any failures, its logs are the records that the
      chain announced in a prefix of its events and the confirmed part of them, it
      keeps the nullifiers it knew after the sync, and every page is the slice of
      that log. If the chain's roots catch up, the next restart can resume. */
  lemma IndexerServesTheChain(node: Node, rootOf: seq<nat> -> nat, blocks: seq<seq<Event>>,
                              sync: SyncConfig, cfg: WatcherConfig, held: Local, stored: Option<nat>,
                              m: nat, c: nat, mined: nat, ticks: seq<Tick>)
    returns (s': Local, s: WatchState, m': nat, c': nat)
    requires 1 <= sync.startBlock && 1 <= sync.lastBlock < |blocks| && Consistent(node, Flatten(blocks))
    requires Holding(node, held.pool, Flatten(blocks), m, c) && c <= mined <= |Log(node, Flatten(blocks))|
    requires stored.Some? ==> stored.value < |blocks|
                              && Before(blocks, stored.value + 1) <= Synchronised(blocks, sync, m, c, mined)
    requires Mined(Flatten(blocks[..sync.lastBlock + 1])) <= mined
    requires c == mined || WindowCloses(node, blocks, sync, held.saved, c, mined)
    requires stored.Some? || c < mined
          || MessagesBelow(node, blocks, sync.lastBlock + 1) <= |Log(node, Flatten(blocks)[..m])|
    requires forall t | t in ticks :: Known(cfg, blocks, t)
    ensures Ended(node, held, blocks, sync, Key(mined), 1)
    ensures Synced(rootOf, node, held, blocks, sync, ContractAt(rootOf, Log(node, Flatten(blocks)), mined), 1)
         == (s', true)
    ensures s == WatchRun(node, blocks, cfg, WatchState(s'.pool, s'.saved, ResumeAt(stored, sync.lastBlock + 1)), ticks)
    ensures Serving(node, blocks, s, m', c') && Nullifiers(s.pool) == Nullifiers(s'.pool)
    ensures c' == Max(mined, Mined(Flatten(blocks)[..m'])) && ServesPages(s.pool, Log(node, Flatten(blocks)[..m']), c')
    ensures Numbered(blocks) && RootsCatchUp(node, blocks) && Resumable(node, blocks, held.saved, c)
            ==> Resumable(node, blocks, s.saved, c')
  {
    hide Process, Consistent, Mirrors, Log, Mined, Flatten, WatchRun, Synced, ServesPages, Commitments, Nullifiers,
      Known, Pass, Ended, RootsCatchUp, Numbered, WindowCloses, MessagesBelow;
    var n := StartHolds(node, rootOf, blocks, sync, held, stored, m, c, mined);
    s' := Synced(rootOf, node, held, blocks, sync, ContractAt(rootOf, Log(node, Flatten(blocks)), mined), 1).0;
    var started := WatchState(s'.pool, s'.saved, ResumeAt(stored, sync.lastBlock + 1));
    m' := RunServes(node, blocks, cfg, started, n, mined, ticks);
    c' := Max(mined, Mined(Flatten(blocks)[..m']));
    s := WatchRun(node, blocks, cfg, started, ticks);
    MirrorsServe(s.pool, Log(node, Flatten(blocks)[..m']), c');
    if Numbered(blocks) && c < mined {
      PassRemembers(node, held, blocks, sync, mined);
    }
  }

  ghost predicate CanServe(node: Node, blocks: seq<seq<Event>>, s: WatchState, c: nat) {
    exists n: nat :: Serving(node, blocks, s, n, c)
  }

  /** A start with an empty pool: the first one, or the one after a wipe, when the
      watcher's block is still stored. The watcher can take over from the sync, unless
      nothing is confirmed yet and something was announced up to where it resumes: then
      the sync finds its empty tree in order, and neither of them reads those events. */
  lemma SyncFromNothing(node: Node, rootOf: seq<nat> -> nat, blocks: seq<seq<Event>>, sync: SyncConfig,
                        stored: Option<nat>, mined: nat)
    returns (p: Tiers)
    requires 1 <= sync.startBlock && 1 <= sync.lastBlock < |blocks| && Consistent(node, Flatten(blocks))
    requires MessagesBelow(node, blocks, sync.startBlock) == 0 && (stored.Some? ==> stored.value <= sync.lastBlock)
    requires Mined(Flatten(blocks[..sync.lastBlock + 1])) <= mined <= MessagesBelow(node, blocks, sync.lastBlock + 1)
    requires mined <= |Log(node, Flatten(blocks))|
    ensures var contract := ContractAt(rootOf, Log(node, Flatten(blocks)), mined);
            var (s', ok) := Synced(rootOf, node, Local(EMPTY, 0), blocks, sync, contract, 1);
            var started := WatchState(p, s'.saved, ResumeAt(stored, sync.lastBlock + 1));
            && ok && p == s'.pool && Ended(node, Local(EMPTY, 0), blocks, sync, contract.index, 1)
            && (CanServe(node, blocks, started, mined)
                <==> mined > 0 || MessagesBelow(node, blocks, started.lastProcessedBlock + 1) == 0)
  {
    EmptyMirrors();
    hide Consistent, Mirrors, Log, Mined, Flatten, Synced, Ended, Pass, MessagesBelow, InSync, CanServe;
    var log := Log(node, Flatten(blocks));
    assert log[..0] == [];
    SyncRestores(rootOf, node, Local(EMPTY, 0), blocks, sync, 0, 0, mined);
    var s' := Synced(rootOf, node, Local(EMPTY, 0), blocks, sync, ContractAt(rootOf, log, mined), 1).0;
    p := s'.pool;
    var started := WatchState(p, s'.saved, ResumeAt(stored, sync.lastBlock + 1));
    if mined > 0 {
      RebuiltServes(node, blocks, started, sync.lastBlock, mined);
    } else {
      EmptyServes(node, blocks, started, sync.lastBlock);
    }
  }

  lemma BeforeGrows(blocks: seq<seq<Event>>, a: nat, b: nat)
    requires a <= b <= |blocks|
    ensures Before(blocks, a) <= Before(blocks, b) <= |Flatten(blocks)|
  {
    FlattenSlice(blocks, a, b);
  }

  lemma BeforeIs(blocks: seq<seq<Event>>, b: nat)
    requires b <= |blocks|
    ensures Before(blocks, b) <= |Flatten(blocks)| && Flatten(blocks[..b]) == Flatten(blocks)[..Before(blocks, b)]
  {
    FlattenSlice(blocks, 0, b);
  }

  lemma RebuiltServes(node: Node, blocks: seq<seq<Event>>, s: WatchState, last: nat, mined: nat)
    requires s.lastProcessedBlock <= last < |blocks| && mined <= MessagesBelow(node, blocks, last + 1)
    requires MessagesBelow(node, blocks, last + 1) <= |Log(node, Flatten(blocks))|
    requires Mirrors(s.pool, Log(node, Flatten(blocks))[..MessagesBelow(node, blocks, last + 1)], mined)
    requires Mined(Flatten(blocks[..last + 1])) <= mined
    ensures CanServe(node, blocks, s, mined)
  {
    hide Mirrors, Log, Mined, Flatten, MessagesBelow, Before, Holding;
    BeforeGrows(blocks, s.lastProcessedBlock + 1, last + 1);
    BeforeIs(blocks, last + 1);
    BelowIs(node, blocks, last + 1);
    var end := Before(blocks, last + 1);
    RebuiltHolds(node, blocks, s.pool, end, MessagesBelow(node, blocks, last + 1), mined);
    assert Serving(node, blocks, s, end, mined);
  }

  lemma EmptyServes(node: Node, blocks: seq<seq<Event>>, s: WatchState, last: nat)
    requires s.pool == EMPTY && s.lastProcessedBlock <= last < |blocks| && Mined(Flatten(blocks[..last + 1])) == 0
    ensures CanServe(node, blocks, s, 0) <==> MessagesBelow(node, blocks, s.lastProcessedBlock + 1) == 0
  {
    hide Log, Mined, Flatten, MessagesBelow;
    FlattenSlice(blocks, 0, last + 1);
    FlattenSlice(blocks, 0, s.lastProcessedBlock + 1);
    FlattenSlice(blocks, s.lastProcessedBlock + 1, last + 1);
    LogGrows(node, Flatten(blocks), Before(blocks, s.lastProcessedBlock + 1), Before(blocks, last + 1));
    if MessagesBelow(node, blocks, s.lastProcessedBlock + 1) == 0 {
      NothingToServe(node, blocks, s);
    }
    hide Serving;
    forall n: nat | Serving(node, blocks, s, n, 0)
      ensures MessagesBelow(node, blocks, s.lastProcessedBlock + 1) == 0
    {
      ServesNothing(node, blocks, s, n);
    }
  }

  lemma RebuiltHolds(node: Node, blocks: seq<seq<Event>>, p: Tiers, end: nat, k: nat, mined: nat)
    requires end <= |Flatten(blocks)| && k == |Log(node, Flatten(blocks)[..end])| <= |Log(node, Flatten(blocks))|
    requires mined <= k && Mirrors(p, Log(node, Flatten(blocks))[..k], mined) && Mined(Flatten(blocks)[..end]) <= mined
    ensures Holding(node, p, Flatten(blocks), end, mined)
  {
    hide Mirrors, Log, Mined, Flatten;
    LogGrows(node, Flatten(blocks), end, |Flatten(blocks)|);
    assert Flatten(blocks)[..|Flatten(blocks)|] == Flatten(blocks);
    assert Log(node, Flatten(blocks))[..k] == Log(node, Flatten(blocks)[..end]);
  }

  /** An empty pool serves only while nothing was announced. */
  lemma ServesNothing(node: Node, blocks: seq<seq<Event>>, s: WatchState, n: nat)
    requires s.pool == EMPTY && Serving(node, blocks, s, n, 0)
    ensures MessagesBelow(node, blocks, s.lastProcessedBlock + 1) == 0
  {
    hide Log, Mined, Flatten, Mirrors;
    FlattenSlice(blocks, 0, s.lastProcessedBlock + 1);
    NothingMirrored(Log(node, Flatten(blocks)[..n]));
    LogGrows(node, Flatten(blocks), Before(blocks, s.lastProcessedBlock + 1), n);
  }

  lemma NothingToServe(node: Node, blocks: seq<seq<Event>>, s: WatchState)
    requires s.pool == EMPTY && s.lastProcessedBlock < |blocks|
    requires MessagesBelow(node, blocks, s.lastProcessedBlock + 1) == 0
    requires Mined(Flatten(blocks[..s.lastProcessedBlock + 1])) == 0
    ensures Serving(node, blocks, s, Before(blocks, s.lastProcessedBlock + 1), 0)
  {
    hide Log, Mined, Flatten, Mirrors;
    FlattenSlice(blocks, 0, s.lastProcessedBlock + 1);
    NothingMirrored(Log(node, Flatten(blocks)[..Before(blocks, s.lastProcessedBlock + 1)]));
  }

  lemma NothingMirrored(log: seq<HexString>)
    ensures Mirrors(EMPTY, log, 0) <==> log == []
  {
  }

  // ---------- Restarts ----------

  /** What an indexer that watched the chain from its first block holds and
      remembers after `m` events. */
  function Watched(node: Node, events: seq<Event>, m: nat): Local
    requires m <= |events|
  {
    Local(Fold(node, events[..m]), NoteRoots(0, events[..m]))
  }

  /** Every such state is reached: by one round that fails after `m` events. */
  lemma WatchedIsReached(node: Node, blocks: seq<seq<Event>>, m: nat)
    requires |blocks| >= 2 && blocks[0] == [] && Consistent(node, Flatten(blocks)) && m <= |Flatten(blocks)|
    ensures var cfg, tick := WatcherConfig(0, |blocks|), Tick(|blocks| - 1, m);
            var s := WatchRound(node, blocks, cfg, WatchState(EMPTY, 0, 0), tick);
            Local(s.pool, s.saved) == Watched(node, Flatten(blocks), m)
  {
    hide Process, Flatten, Consistent, NoteRoots;
    var events := Flatten(blocks);
    FirstBlockEmpty(blocks);
    FlattenSlice(blocks, 1, |blocks|);
    assert blocks[..|blocks|] == blocks;
    assert events[0..|events|] == events && events[..0] == [];
    assert Fold(node, []) == EMPTY;
    hide Fold;
    ProcessCatchesUp(node, events, 0, 0, |events|, m);
  }

  lemma FirstBlockEmpty(blocks: seq<seq<Event>>)
    requires |blocks| >= 1 && blocks[0] == []
    ensures Before(blocks, 1) == 0
  {
    assert blocks[..1][..0] == [] && blocks[..1][0] == [];
    assert Flatten(blocks[..1]) == Flatten([]) + [];
  }

  ghost predicate AlwaysResumable(node: Node, blocks: seq<seq<Event>>) {
    forall m: nat | m <= |Flatten(blocks)| ::
      Resumable(node, blocks, Watched(node, Flatten(blocks), m).saved, Mined(Flatten(blocks)[..m]))
  }

  /** Such an indexer can resume at every moment if and only if the chain's roots
      catch up. */
  lemma ResumableWhenCaughtUp(node: Node, blocks: seq<seq<Event>>)
    ensures AlwaysResumable(node, blocks) <==> RootsCatchUp(node, blocks)
  {
    hide Flatten, MessagesBelow, Mined, NoteRoots, Fold;
    var events := Flatten(blocks);
    if RootsCatchUp(node, blocks) {
      NothingBelow(node, blocks);
      forall m: nat | m <= |events|
        ensures Resumable(node, blocks, Watched(node, events, m).saved, Mined(events[..m]))
      {
        NotedIsResumable(node, blocks, 0, 0, 0, m, m);
        assert events[0..m] == events[..m];
      }
    }
    if AlwaysResumable(node, blocks) {
      forall i | 0 <= i < |events| && events[i].RootUpdated?
        ensures MessagesBelow(node, blocks, events[i].blockNumber) <= Mined(events[..i + 1])
      {
        RootRemembered(node, blocks, i);
        assert Resumable(node, blocks, Watched(node, events, i + 1).saved, Mined(events[..i + 1]));
      }
    }
  }

  lemma NothingBelow(node: Node, blocks: seq<seq<Event>>)
    ensures MessagesBelow(node, blocks, 0) == 0
  {
    assert blocks[..0] == [];
  }

  /** After a root event, the remembered block is the root's or a later one. */
  lemma RootRemembered(node: Node, blocks: seq<seq<Event>>, i: nat)
    requires i < |Flatten(blocks)| && Flatten(blocks)[i].RootUpdated?
    ensures var saved := Watched(node, Flatten(blocks), i + 1).saved;
            MessagesBelow(node, blocks, Flatten(blocks)[i].blockNumber) <= MessagesBelow(node, blocks, saved)
  {
    hide Flatten, MessagesBelow, NoteRoots, Fold;
    var events := Flatten(blocks);
    var j := NotedIs(events, 0, 0, i + 1);
    assert events[0..i + 1] == events[..i + 1];
    BelowGrows(node, blocks, events[i].blockNumber, NoteRoots(0, events[..i + 1]));
  }

  /** A root that leaves an entry of an earlier block behind: an indexer that stops
      right after it can only be restarted while the contract does not move on. */
  lemma LaggingRootBreaksRestart(rootOf: seq<nat> -> nat, node: Node, blocks: seq<seq<Event>>, cfg: SyncConfig, i: nat,
                                 mined: nat)
    requires 1 <= cfg.startBlock && 1 <= cfg.lastBlock < |blocks| && Consistent(node, Flatten(blocks))
    requires Injective(rootOf) && NoEmptyLeaf(Commitments(Log(node, Flatten(blocks))))
    requires i < |Flatten(blocks)| && Flatten(blocks)[i].RootUpdated?
    requires Mined(Flatten(blocks)[..i + 1]) < MessagesBelow(node, blocks, Flatten(blocks)[i].blockNumber)
    requires Mined(Flatten(blocks)[..i + 1]) <= mined <= |Log(node, Flatten(blocks))|
    ensures SyncsInOrder(rootOf, node, Watched(node, Flatten(blocks), i + 1), blocks, cfg,
              ContractAt(rootOf, Log(node, Flatten(blocks)), mined))
       <==> mined == Mined(Flatten(blocks)[..i + 1])
  {
    hide Consistent, Log, Flatten, MessagesBelow, Mirrors, Mined, NoteRoots, Fold, SyncsInOrder, Injective, NoEmptyLeaf;
    var events := Flatten(blocks);
    var held, c := Watched(node, events, i + 1), Mined(events[..i + 1]);
    FoldMirrors(node, events, i + 1);
    MirrorsBound(held.pool, Log(node, events[..i + 1]), c);
    HoldsStretch(node, held.pool, events, i + 1, c);
    StretchAgrees(held.pool, Log(node, events), |Log(node, events[..i + 1])|, c);
    SyncCondition(rootOf, node, held, blocks, cfg, mined);
    RootRemembered(node, blocks, i);
    BelowGrows(node, blocks, held.saved, ActualStart(cfg, held.saved));
  }

  lemma MirrorsBound(p: Tiers, log: seq<HexString>, c: nat)
    requires Mirrors(p, log, c)
    ensures c <= |log|
  {
  }

  /** Two announcements and the root of the first, then a third announcement and
      the root of all three. */
  function LaggingChain(a: Event, b: Event, c: Event): seq<seq<Event>> {
    [[], [a], [b], [RootUpdated(Key(1), 3)], [c], [RootUpdated(Key(3), 5)]]
  }

  lemma NothingYet(node: Node)
    ensures Flatten([]) == [] && Log(node, []) == [] && Mined([]) == 0 && NoteRoots(0, []) == 0
  {
  }

  lemma BlockAdded(blocks: seq<seq<Event>>, last: seq<Event>)
    ensures Flatten(blocks + [last]) == Flatten(blocks) + last
  {
    assert (blocks + [last])[..|blocks|] == blocks;
  }

  lemma EventAdded(node: Node, events: seq<Event>, e: Event)
    ensures |Log(node, events + [e])| == |Log(node, events)| + if e.Message? then 1 else 0
    ensures Mined(events + [e])
         == if e.RootUpdated? then Max(Mined(events), e.rootIndex / OUTPLUSONE) else Mined(events)
    ensures NoteRoots(0, events + [e])
         == if e.RootUpdated? then Max(NoteRoots(0, events), e.blockNumber) else NoteRoots(0, events)
  {
    hide RecordOf;
    assert (events + [e])[..|events|] == events;
  }

  lemma LaggingEvents(a: Event, b: Event, c: Event)
    ensures var blocks, r, t := LaggingChain(a, b, c), RootUpdated(Key(1), 3), RootUpdated(Key(3), 5);
            && |blocks| == 6
            && Flatten(blocks[..3]) == [a, b] && Flatten(blocks[..4]) == [a, b, r]
            && Flatten(blocks[..6]) == Flatten(blocks) == [a, b, r, c, t]
  {
    hide Flatten;
    var blocks, r, t := LaggingChain(a, b, c), RootUpdated(Key(1), 3), RootUpdated(Key(3), 5);
    NothingYet(h => h);
    BlockAdded([], []);
    assert [] + [[]] == blocks[..1];
    BlockAdded(blocks[..1], [a]);
    assert blocks[..1] + [[a]] == blocks[..2];
    BlockAdded(blocks[..2], [b]);
    assert blocks[..2] + [[b]] == blocks[..3];
    BlockAdded(blocks[..3], [r]);
    assert blocks[..3] + [[r]] == blocks[..4];
    BlockAdded(blocks[..4], [c]);
    assert blocks[..4] + [[c]] == blocks[..5];
    BlockAdded(blocks[..5], [t]);
    assert blocks[..5] + [[t]] == blocks[..6] == blocks;
  }

  lemma LaggingChainIs(node: Node, a: Event, b: Event, c: Event)
    requires a.Message? && b.Message? && c.Message?
    ensures var blocks := LaggingChain(a, b, c);
            && |blocks| == 6 && |Flatten(blocks)| == 5
            && |Log(node, Flatten(blocks))| == MessagesBelow(node, blocks, 6) == 3
            && MessagesBelow(node, blocks, 3) == MessagesBelow(node, blocks, 4) == 2
            && Mined(Flatten(blocks)[..3]) == 1 && NoteRoots(0, Flatten(blocks)[..3]) == 3
            && |Log(node, Flatten(blocks)[..3])| == 2
  {
    LaggingEvents(a, b, c);
    hide Flatten, Log, Mined, NoteRoots, LaggingChain;
    var r, t := RootUpdated(Key(1), 3), RootUpdated(Key(3), 5);
    NothingYet(node);
    EventAdded(node, [], a);
    EventAdded(node, [a], b);
    EventAdded(node, [a, b], r);
    EventAdded(node, [a, b, r], c);
    EventAdded(node, [a, b, r, c], t);
    assert [] + [a] == [a] && [a] + [b] == [a, b] && [a, b] + [r] == [a, b, r];
    assert [a, b, r] + [c] == [a, b, r, c] && [a, b, r, c] + [t] == [a, b, r, c, t];
    assert [a, b, r, c, t][..3] == [a, b, r];
  }

  /** An instance: an indexer that stops after the first root. If it restarts when
      the contract has moved on to all three entries, it scans from the root's block,
      leaves the second entry out and is wiped; if the contract has the first two
      only and nothing new is announced, it scans for ever. */
  lemma RestartExample(rootOf: seq<nat> -> nat, node: Node, a: Event, b: Event, c: Event, batchSize: nat)
    requires a.Message? && b.Message? && c.Message? && Consistent(node, Flatten(LaggingChain(a, b, c)))
    requires Injective(rootOf) && NoEmptyLeaf(Commitments(Log(node, Flatten(LaggingChain(a, b, c)))))
    ensures var blocks, cfg := LaggingChain(a, b, c), SyncConfig(1, 5, batchSize);
            var log, held := Log(node, Flatten(blocks)), Watched(node, Flatten(blocks), 3);
            && |log| == 3 && Ended(node, held, blocks, cfg, Key(3), 1)
            && Synced(rootOf, node, held, blocks, cfg, ContractAt(rootOf, log, 3), 1) == (Local(EMPTY, 0), false)
            && forall rounds: nat :: !Ended(node, held, blocks, SyncConfig(1, 3, batchSize), Key(2), rounds)
  {
    var blocks, cfg := LaggingChain(a, b, c), SyncConfig(1, 5, batchSize);
    LaggingChainIs(node, a, b, c);
    hide Consistent, Log, Flatten, MessagesBelow, Holds, Mined, NoteRoots, Fold, Ended, Synced, Injective, NoEmptyLeaf,
      LaggingChain;
    var events := Flatten(blocks);
    var held := Watched(node, events, 3);
    FoldMirrors(node, events, 3);
    HoldsStretch(node, held.pool, events, 3, 1);
    StretchAgrees(held.pool, Log(node, events), 2, 1);
    GapWipes(rootOf, node, held, blocks, cfg, 3);
    forall rounds: nat
      ensures !Ended(node, held, blocks, SyncConfig(1, 3, batchSize), Key(2), rounds)
    {
      NeverEnds(node, held, blocks, SyncConfig(1, 3, batchSize), 2, rounds);
    }
  }
}
