/** The polling watcher of the indexer: batches of chain events, each applied at
    least once, keep the pool equal to the events applied once each. */
module Watcher {

  import opened Bounds
  import opened Hex
  import opened Outcome
  import opened Records
  import opened Calldata
  import opened State
  import opened Pool
  import EventRanges

  datatype Event =
    | Message(txHash: HexString, index: nat, message: HexString, blockNumber: nat)
    | RootUpdated(rootIndex: nat, blockNumber: nat)

  /** Calldata of a mined transaction, as the node returns it. */
  type Node = HexString -> HexString

  /** The dispatch of the indexer's event processor. */
  function Apply(node: Node, p: Tiers, e: Event): (Tiers, bool) {
    match e
    case Message(txHash, index, message, _) => p.AddTxToState(txHash, node(txHash), index, message, Optimistic)
    case RootUpdated(index, _) => p.PropagateOptimisticState(index)
  }

  datatype Progress = Progress(pool: Tiers, done: nat, ok: bool)

  /** A batch whose processing fails after `budget` events, or at the first
      event the pool refuses. */
  function Process(node: Node, p: Tiers, events: seq<Event>, budget: nat): (progress: Progress)
    ensures progress.done <= |events|
    decreases |events|
  {
    if |events| == 0 then Progress(p, 0, true)
    else if budget == 0 then Progress(p, 0, false)
    else
      var (p', ok) := Apply(node, p, events[0]);
      if !ok then Progress(p', 0, false)
      else
        var rest := Process(node, p', events[1..], budget - 1);
        Progress(rest.pool, rest.done + 1, rest.ok)
  }

  /** The block that the pool remembers after the roots among the events. */
  function NoteRoots(saved: nat, events: seq<Event>): nat {
    if |events| == 0 then saved
    else
      var e, before := events[|events| - 1], NoteRoots(saved, events[..|events| - 1]);
      if e.RootUpdated? then Max(before, e.blockNumber) else before
  }

  // ---------- The chain and what it should make of the pool ----------

  function RecordOf(node: Node, e: Event): HexString {
    if e.Message? && Decode(node(e.txHash), e.message).Ok?
    then StoredRecord(Decode(node(e.txHash), e.message).value, e.txHash) else []
  }

  /** The records of the announced transactions, in order. */
  function Log(node: Node, events: seq<Event>): seq<HexString> {
    if |events| == 0 then []
    else
      var init, e := events[..|events| - 1], events[|events| - 1];
      Log(node, init) + if e.Message? then [RecordOf(node, e)] else []
  }

  /** The number of transactions that the announced roots cover. */
  function Mined(events: seq<Event>): nat {
    if |events| == 0 then 0
    else
      var e, m := events[|events| - 1], Mined(events[..|events| - 1]);
      if e.RootUpdated? && e.rootIndex / OUTPLUSONE > m then e.rootIndex / OUTPLUSONE else m
  }

  /** What the contract guarantees of an event that follows `k` messages: pool
      indices count up, a root covers announced transactions only. */
  predicate GoodEvent(node: Node, e: Event, k: nat) {
    match e
    case Message(txHash, index, message, _) =>
      && index == Key(k + 1) && |txHash| == HASH
      && Decode(node(txHash), message).Ok?
      && Decode(node(txHash), message).value.outCommit < Pow16(WORD)
    case RootUpdated(index, _) => index / OUTPLUSONE <= k
  }

  ghost predicate Consistent(node: Node, events: seq<Event>) {
    forall i | 0 <= i < |events| :: GoodEvent(node, events[i], |Log(node, events[..i])|)
  }

  /** The pool after every event was applied once. */
  function Fold(node: Node, events: seq<Event>): Tiers {
    if |events| == 0 then EMPTY
    else Apply(node, Fold(node, events[..|events| - 1]), events[|events| - 1]).0
  }

  /** Applied once each, the events leave the optimistic log equal to the
      announced records and the confirmed log equal to the covered ones. */
  lemma {:induction false} FoldMirrors(node: Node, events: seq<Event>, n: nat)
    requires Consistent(node, events) && n <= |events|
    ensures Mirrors(Fold(node, events[..n]), Log(node, events[..n]), Mined(events[..n]))
    ensures n > 0 ==> Apply(node, Fold(node, events[..n - 1]), events[n - 1]).1
  {
    hide Apply, GoodEvent, RecordOf, Mirrors;
    if n == 0 {
      assert Mirrors(EMPTY, [], 0) by {
        EmptyMirrors();
      }
    } else {
      var init, e := events[..n - 1], events[n - 1];
      assert events[..n][..n - 1] == init;
      FoldMirrors(node, events, n - 1);
      ApplyNew(node, Fold(node, init), Log(node, init), Mined(init), e);
      assert Log(node, init) + [] == Log(node, init);
      assert events[..n][n - 1] == e;
    }
  }

  /** Every announcement gives one record of the log: the commitment and the memo that
      its calldata or its event carries, under its hash, at the position that its pool
      index names. */
  lemma LogRecords(node: Node, events: seq<Event>, j: nat)
    requires Consistent(node, events) && j < |events| && events[j].Message?
    ensures var k, e := |Log(node, events[..j])|, events[j];
            && k < |Log(node, events)| && e.index == 128 * (k + 1)
            && Decode(node(e.txHash), e.message).Ok?
            && var d := Decode(node(e.txHash), e.message).value;
               Carries(Log(node, events)[k], d.outCommit, e.txHash, d.memo)
  {
    hide Decode, Carries, PrefixedMemo, Pow16, Buffered;
    var e := events[j];
    assert GoodEvent(node, e, |Log(node, events[..j])|);
    var d := Decode(node(e.txHash), e.message).value;
    StoredCarries(d.outCommit, e.txHash, d.memo);
    LogGrows(node, events, j + 1, |events|);
    assert events[..|events|] == events && events[..j + 1][..j] == events[..j];
  }

  /** A batch over any pool and any events stops at the failure or at the first event
      that the pool refuses, with the ones before applied. */
  lemma {:induction false} ProcessStops(node: Node, p: Tiers, events: seq<Event>, budget: nat)
    ensures var r := Process(node, p, events, budget);
            var applied := Process(node, p, events[..r.done], budget);
            && r.done <= budget && applied.ok && applied.done == r.done && (r.ok <==> r.done == |events|)
            && (r.ok || r.done == budget ==> r.pool == applied.pool)
            && (!r.ok && r.done < budget ==> Apply(node, applied.pool, events[r.done]) == (r.pool, false))
    decreases |events|
  {
    hide Apply;
    if |events| > 0 && budget > 0 {
      var (p', ok) := Apply(node, p, events[0]);
      var r := Process(node, p, events, budget);
      if ok {
        ProcessStops(node, p', events[1..], budget - 1);
        assert events[..r.done][1..] == events[1..][..r.done - 1];
      }
    }
  }

  lemma EmptyMirrors()
    ensures Mirrors(EMPTY, [], 0)
  {
  }

  lemma ApplyNew(node: Node, p: Tiers, log: seq<HexString>, c: nat, e: Event)
    requires Mirrors(p, log, c) && GoodEvent(node, e, |log|)
    ensures var (p', ok) := Apply(node, p, e);
            && ok
            && (e.Message? ==> Mirrors(p', log + [RecordOf(node, e)], c))
            && (e.RootUpdated? ==>
                  Mirrors(p', log, if e.rootIndex / OUTPLUSONE > c then e.rootIndex / OUTPLUSONE else c))
  {
    hide Mirrors, Decode;
    match e
    case Message(txHash, index, message, _) =>
      AnnounceAppends(p, log, c, Decode(node(txHash), message).value, txHash, index);
    case RootUpdated(index, _) =>
      PropagateMirrors(p, log, c, index);
  }

  /** An event that is part of the logs already. */
  lemma ApplyAgain(node: Node, p: Tiers, log: seq<HexString>, c: nat, e: Event, k: nat)
    requires Mirrors(p, log, c) && GoodEvent(node, e, k)
    requires e.Message? ==> k < |log| && log[k] == RecordOf(node, e)
    requires e.RootUpdated? ==> k <= |log| && e.rootIndex / OUTPLUSONE <= c
    ensures Apply(node, p, e) == (p, true)
  {
    hide Mirrors, Decode;
    match e
    case Message(txHash, index, message, _) =>
      AnnounceAgain(p, log, c, Decode(node(txHash), message).value, txHash, k);
    case RootUpdated(index, _) =>
      PropagateMirrors(p, log, c, index);
  }

  lemma {:induction false} LogGrows(node: Node, events: seq<Event>, i: nat, n: nat)
    requires i <= n <= |events|
    ensures Log(node, events[..i]) <= Log(node, events[..n]) && Mined(events[..i]) <= Mined(events[..n])
    decreases n
  {
    hide RecordOf;
    if i < n {
      assert events[..n][..n - 1] == events[..n - 1];
      LogGrows(node, events, i, n - 1);
    }
  }

  /** An event applied again, any time after it was applied, changes nothing:
      logs, roots, records and nullifiers stay as they are. */
  lemma Replay(node: Node, events: seq<Event>, n: nat, i: nat)
    requires Consistent(node, events) && i < n <= |events|
    ensures Apply(node, Fold(node, events[..n]), events[i]) == (Fold(node, events[..n]), true)
  {
    hide Apply, GoodEvent, RecordOf, Mirrors, Decode, Fold;
    FoldMirrors(node, events, n);
    LogGrows(node, events, i + 1, n);
    assert events[..i + 1][..i] == events[..i];
    assert GoodEvent(node, events[i], |Log(node, events[..i])|);
    ApplyAgain(node, Fold(node, events[..n]), Log(node, events[..n]), Mined(events[..n]),
      events[i], |Log(node, events[..i])|);
  }

  /** Reprocessing from any earlier event, up to a failure, never loses and
      never repeats an effect. */
  lemma {:induction false} ProcessCatchesUp(node: Node, events: seq<Event>, n: nat, from: nat, end: nat, budget: nat)
    requires Consistent(node, events) && from <= n <= |events| && from <= end <= |events|
    ensures var r := Process(node, Fold(node, events[..n]), events[from..end], budget);
            (from + r.done <= end
             && (r.ok <==> from + r.done == end)
             && r.done == Min(budget, end - from)
             && r.pool == Fold(node, events[..Max(n, from + r.done)]))
    decreases end - from
  {
    hide Apply, Fold, Consistent;
    if from < end && budget > 0 {
      assert events[from..end][1..] == events[from + 1..end];
      ApplyNext(node, events, n, from);
      ProcessCatchesUp(node, events, Max(n, from + 1), from + 1, end, budget - 1);
    }
  }

  /** The next event of a batch, seen before or not. */
  lemma ApplyNext(node: Node, events: seq<Event>, n: nat, from: nat)
    requires Consistent(node, events) && from <= n <= |events| && from < |events|
    ensures Apply(node, Fold(node, events[..n]), events[from]) == (Fold(node, events[..Max(n, from + 1)]), true)
  {
    hide Apply, GoodEvent, Mirrors, Log;
    if from < n {
      Replay(node, events, n, from);
    } else {
      assert events[..n + 1][..n] == events[..n];
      FoldMirrors(node, events, n + 1);
    }
  }

  // ---------- Blocks ----------

  /** The events of a run of blocks, in order. */
  function Flatten(blocks: seq<seq<Event>>): seq<Event> {
    if |blocks| == 0 then [] else Flatten(blocks[..|blocks| - 1]) + blocks[|blocks| - 1]
  }

  /** Number of events in the blocks below `b`. */
  function Before(blocks: seq<seq<Event>>, b: nat): nat
    requires b <= |blocks|
  {
    |Flatten(blocks[..b])|
  }

  lemma {:induction false} FlattenSlice(blocks: seq<seq<Event>>, a: nat, b: nat)
    requires a <= b <= |blocks|
    ensures Before(blocks, a) <= Before(blocks, b) <= |Flatten(blocks)|
    ensures Flatten(blocks[a..b]) == Flatten(blocks)[Before(blocks, a)..Before(blocks, b)]
    ensures Flatten(blocks[..b]) == Flatten(blocks)[..Before(blocks, b)]
  {
    FlattenConcat(blocks[..b], blocks[b..]);
    assert blocks[..b] + blocks[b..] == blocks;
    FlattenConcat(blocks[..a], blocks[a..b]);
    assert blocks[..a] + blocks[a..b] == blocks[..b];
  }

  lemma {:induction false} FlattenConcat(a: seq<seq<Event>>, b: seq<seq<Event>>)
    ensures Flatten(a + b) == Flatten(a) + Flatten(b)
  {
    if |b| == 0 {
      assert a + b == a;
    } else {
      var init, last := b[..|b| - 1], b[|b| - 1];
      assert (a + b)[..|a + b| - 1] == a + init && (a + b)[|a + b| - 1] == last;
      FlattenConcat(a, init);
      assert Flatten(a) + Flatten(init) + last == Flatten(a) + (Flatten(init) + last);
    }
  }

  // ---------- The watcher ----------

  datatype WatcherConfig = WatcherConfig(blockConfirmations: nat, batchSize: nat)

  /** What the outside world decides about one polling round: the chain head, and
      after how many events processing fails. */
  datatype Tick = Tick(head: int, budget: nat)

  /** `saved` is the pool's last confirmed block. */
  datatype WatchState = WatchState(pool: Tiers, saved: nat, lastProcessedBlock: nat)

  /** The head is known with all the blocks that have enough confirmations. */
  predicate Known(cfg: WatcherConfig, blocks: seq<seq<Event>>, tick: Tick) {
    tick.head - cfg.blockConfirmations < |blocks|
  }

  function EventsIn(blocks: seq<seq<Event>>, r: EventRanges.Range): seq<Event>
    requires 0 <= r.fromBlock <= r.toBlock < |blocks|
  {
    Flatten(blocks[r.fromBlock..r.toBlock + 1])
  }

  function WindowEnd(cfg: WatcherConfig, lastProcessedBlock: nat, tick: Tick): int {
    Min(tick.head - cfg.blockConfirmations, lastProcessedBlock + 1 + cfg.batchSize)
  }

  /** One round of `watch`. Its window is at most `batchSize + 1` blocks wide, so
      the range generator yields it in one piece. */
  function WatchRound(node: Node, blocks: seq<seq<Event>>, cfg: WatcherConfig, s: WatchState, tick: Tick): WatchState
    requires Known(cfg, blocks, tick)
  {
    var fromBlock := s.lastProcessedBlock + 1;
    var toBlock := WindowEnd(cfg, s.lastProcessedBlock, tick);
    if toBlock < fromBlock then s
    else
      var batch := EventsIn(blocks, EventRanges.Range(fromBlock, toBlock));
      var r := Process(node, s.pool, batch, tick.budget);
      WatchState(r.pool, NoteRoots(s.saved, batch[..r.done]), if r.ok then toBlock else s.lastProcessedBlock)
  }

  lemma WindowIsOneRange(ranges: seq<EventRanges.Range>, start: int, last: int, batchSize: nat)
    requires EventRanges.Tiles(ranges, start, last, batchSize)
    requires EventRanges.Generated(ranges, start, last, batchSize)
    requires last <= start + batchSize
    ensures ranges == if last < start then [] else [EventRanges.Range(start, last)]
  {
    if start <= last {
      assert EventRanges.Follows(ranges, start, last, batchSize, 0);
      if |ranges| > 1 {
        assert EventRanges.Follows(ranges, start, last, batchSize, 1);
        EventRanges.TilesAscend(ranges, start, last, batchSize, 0, |ranges| - 1);
      }
    }
  }

  /** A block number in Redis, which outlives the service that wrote it. */
  class BlockStore {
    var block: Option<nat>

    constructor ()
      ensures block == None
    {
      block := None;
    }
  }

  /** Where a watcher goes on that finds `stored` in Redis. */
  function ResumeAt(stored: Option<nat>, startBlock: nat): nat {
    match stored
    case Some(block) => block
    case None => if startBlock == 0 then 0 else startBlock - 1
  }

  class Watcher {
    const pool: BasePool
    const config: WatcherConfig
    const redis: BlockStore
    var lastProcessedBlock: nat

    constructor (pool: BasePool, config: WatcherConfig, redis: BlockStore, startBlock: nat)
      ensures this.pool == pool && this.config == config && this.redis == redis
      ensures lastProcessedBlock == ResumeAt(None, startBlock)
    {
      this.pool, this.config, this.redis := pool, config, redis;
      lastProcessedBlock := if startBlock == 0 then 0 else startBlock - 1;
    }

    ghost predicate Valid() {
      pool.Valid()
    }

    ghost function View(): WatchState
      reads this, pool, pool.Footprint()
    {
      WatchState(pool.View(), pool.lastConfirmedTxBlock, lastProcessedBlock)
    }

    /** What Redis holds is where this watcher is, once it has processed a range. */
    ghost predicate Persisted()
      reads this, redis
    {
      redis.block.Some? ==> redis.block == Some(lastProcessedBlock)
    }

    method Init()
      modifies this
      ensures lastProcessedBlock == if redis.block.Some? then redis.block.value else old(lastProcessedBlock)
      ensures Persisted()
    {
      if redis.block.Some? {
        lastProcessedBlock := redis.block.value;
      }
    }

    method Dispatch(node: Node, e: Event) returns (ok: bool)
      requires Valid()
      modifies pool, pool.Footprint()
      ensures (pool.View(), ok) == Apply(node, old(pool.View()), e)
      ensures pool.lastConfirmedTxBlock
           == if ok && e.RootUpdated? then Max(old(pool.lastConfirmedTxBlock), e.blockNumber)
              else old(pool.lastConfirmedTxBlock)
    {
      hide Decode;
      match e {
        case Message(txHash, index, message, blockNumber) =>
          ok := pool.AddTxToState(txHash, node(txHash), index, message, Optimistic, blockNumber);
        case RootUpdated(index, blockNumber) =>
          ok := pool.PropagateOptimisticState(index, blockNumber);
      }
    }

    method Processor(node: Node, batch: seq<Event>, budget: nat) returns (done: nat, ok: bool)
      requires Valid()
      modifies pool, pool.Footprint()
      ensures Progress(pool.View(), done, ok) == Process(node, old(pool.View()), batch, budget)
      ensures done <= |batch| && pool.lastConfirmedTxBlock == NoteRoots(old(pool.lastConfirmedTxBlock), batch[..done])
    {
      hide Apply;
      var i := 0;
      while i < |batch|
        invariant 0 <= i <= |batch| && i <= budget
        invariant pool.lastConfirmedTxBlock == NoteRoots(old(pool.lastConfirmedTxBlock), batch[..i])
        invariant var rest := Process(node, pool.View(), batch[i..], budget - i);
                  Process(node, old(pool.View()), batch, budget) == Progress(rest.pool, rest.done + i, rest.ok)
      {
        if i == budget {
          return i, false;
        }
        assert batch[i..][1..] == batch[i + 1..];
        assert batch[..i + 1][..i] == batch[..i];
        ok := Dispatch(node, batch[i]);
        if !ok {
          return i, false;
        }
        i := i + 1;
      }
      return i, true;
    }

    method Watch(node: Node, blocks: seq<seq<Event>>, tick: Tick)
      requires Valid() && Known(config, blocks, tick) && Persisted()
      modifies this, redis, pool, pool.Footprint()
      ensures View() == WatchRound(node, blocks, config, old(View()), tick)
      ensures Persisted() && (lastProcessedBlock != old(lastProcessedBlock) ==> redis.block.Some?)
      ensures old(redis.block).Some? ==> redis.block.Some?
    {
      var fromBlock := lastProcessedBlock + 1;
      var toBlock := WindowEnd(config, lastProcessedBlock, tick);
      hide Process, Flatten, EventRanges.Tiles, EventRanges.Generated, NoteRoots;
      var batches := EventRanges.GetEvents(fromBlock, toBlock, config.batchSize);
      WindowIsOneRange(batches, fromBlock, toBlock, config.batchSize);
      var i := 0;
      while i < |batches|
        invariant 0 <= i <= |batches|
        invariant i == 0 ==> View() == old(View()) && redis.block == old(redis.block)
        invariant i == 1 ==> View() == WatchRound(node, blocks, config, old(View()), tick)
        invariant i == 1 ==> redis.block == Some(lastProcessedBlock)
      {
        var _, ok := Processor(node, EventsIn(blocks, batches[i]), tick.budget);
        if !ok {
          return;
        }
        lastProcessedBlock := batches[i].toBlock;
        redis.block := Some(lastProcessedBlock);
        i := i + 1;
      }
    }
  }

  /** A restarted service: a new watcher over the old pool and Redis goes on where
      the last one stopped, and at the configured block only if there was none. */
  method Restart(pool: BasePool, config: WatcherConfig, redis: BlockStore, startBlock: nat) returns (watcher: Watcher)
    ensures fresh(watcher) && watcher.pool == pool && watcher.config == config && watcher.redis == redis
    ensures watcher.lastProcessedBlock == ResumeAt(redis.block, startBlock) && watcher.Persisted()
  {
    watcher := new Watcher(pool, config, redis, startBlock);
    watcher.Init();
  }

  // ---------- Exactly-once effect over every run ----------

  /** The pool is the fold of the first `n` events, and those include all events
      up to the last processed block. */
  ghost predicate CaughtUp(node: Node, blocks: seq<seq<Event>>, s: WatchState, n: nat) {
    && s.lastProcessedBlock < |blocks|
    && Before(blocks, s.lastProcessedBlock + 1) <= n <= |Flatten(blocks)|
    && s.pool == Fold(node, Flatten(blocks)[..n])
  }

  /** One round: it reaches the last block that has enough confirmations, but no
      further than `batchSize` past the first new one, and stays where it was if
      processing fails or no block has enough. It applies no event of a later block and
      misses none of an earlier one. */
  lemma WatchKeeps(node: Node, blocks: seq<seq<Event>>, cfg: WatcherConfig, s: WatchState, n: nat, tick: Tick)
    returns (n': nat)
    requires Known(cfg, blocks, tick) && Consistent(node, Flatten(blocks)) && CaughtUp(node, blocks, s, n)
    ensures var s' := WatchRound(node, blocks, cfg, s, tick);
            var last, ready := s.lastProcessedBlock, tick.head - cfg.blockConfirmations;
            var to := if ready < last + 1 + cfg.batchSize then ready else last + 1 + cfg.batchSize;
            && n <= n' && CaughtUp(node, blocks, s', n')
            && (ready <= last ==> s' == s && n' == n)
            && (ready > last ==>
                  && n' <= Max(n, Before(blocks, to + 1))
                  && (s'.lastProcessedBlock == to || s'.lastProcessedBlock == last)
                  && (tick.budget >= |Flatten(blocks)| ==> s'.lastProcessedBlock == to))
  {
    hide Process, Fold, Flatten, Consistent;
    var fromBlock := s.lastProcessedBlock + 1;
    var toBlock := WindowEnd(cfg, s.lastProcessedBlock, tick);
    if toBlock < fromBlock {
      n' := n;
    } else {
      FlattenSlice(blocks, fromBlock, toBlock + 1);
      var a, b := Before(blocks, fromBlock), Before(blocks, toBlock + 1);
      ProcessCatchesUp(node, Flatten(blocks), n, a, b, tick.budget);
      var r := Process(node, s.pool, Flatten(blocks)[a..b], tick.budget);
      n' := Max(n, a + r.done);
    }
  }

  function WatchRun(node: Node, blocks: seq<seq<Event>>, cfg: WatcherConfig, s: WatchState, ticks: seq<Tick>)
    : WatchState
    requires forall t | t in ticks :: Known(cfg, blocks, t)
    decreases |ticks|
  {
    if |ticks| == 0 then s
    else WatchRun(node, blocks, cfg, WatchRound(node, blocks, cfg, s, ticks[0]), ticks[1..])
  }

  /** However processing fails and however often batches are fetched again, the
      pool always is the once-each fold of a prefix of the chain's events: its
      optimistic log is the prefix's announced records, its confirmed log the
      records covered by the prefix's roots, and no event at or below the last
      processed block is missing from that prefix. */
  lemma {:induction false} ExactlyOnceEffect(node: Node, blocks: seq<seq<Event>>, cfg: WatcherConfig, s: WatchState,
                                             n: nat, ticks: seq<Tick>)
    returns (m: nat)
    requires forall t | t in ticks :: Known(cfg, blocks, t)
    requires Consistent(node, Flatten(blocks)) && CaughtUp(node, blocks, s, n)
    ensures var s' := WatchRun(node, blocks, cfg, s, ticks);
            && n <= m && CaughtUp(node, blocks, s', m)
            && var applied := Flatten(blocks)[..m];
            Mirrors(s'.pool, Log(node, applied), Mined(applied))
    decreases |ticks|
  {
    hide Process, Fold, Flatten, Consistent, Mirrors, WatchRound, Log, Mined;
    if |ticks| == 0 {
      m := n;
      FoldMirrors(node, Flatten(blocks), m);
    } else {
      var n' := WatchKeeps(node, blocks, cfg, s, n, ticks[0]);
      m := ExactlyOnceEffect(node, blocks, cfg, WatchRound(node, blocks, cfg, s, ticks[0]), n', ticks[1..]);
    }
  }
}
