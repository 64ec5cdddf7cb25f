/** Rebuilding both tiers from the contract's `Message` events, and the check of
    the result against the contract (`BasePool.syncState`). */
module ContractSync {

  import opened Bounds
  import opened Hex
  import opened Outcome
  import opened Records
  import opened Calldata
  import opened State
  import opened Pool
  import opened Chain = Watcher
  import EventRanges

  /** Announced beyond the contract's index means not mined yet. */
  function TargetOf(index: nat, contractIndex: nat): Target {
    if index <= contractIndex then All else Optimistic
  }

  /** What a sync works on: the pool and its last confirmed block. */
  datatype Local = Local(pool: Tiers, saved: nat)

  /** Only `Message` events are asked for; another one is as good as absent. */
  function AddMessage(node: Node, s: Local, e: Event, contractIndex: nat): (Local, bool) {
    match e
    case Message(txHash, index, message, blockNumber) =>
      var target := TargetOf(index, contractIndex);
      var (p, ok) := s.pool.AddTxToState(txHash, node(txHash), index, message, target);
      (Local(p, BlockAfterTx(s.saved, node(txHash), message, target, blockNumber)), ok)
    case RootUpdated(_, _) => (s, true)
  }

  /** Every message in order, until one is refused. */
  function AddMessages(node: Node, s: Local, events: seq<Event>, contractIndex: nat): (Local, bool)
    decreases |events|
  {
    if |events| == 0 then (s, true)
    else
      var (s', ok) := AddMessage(node, s, events[0], contractIndex);
      if ok then AddMessages(node, s', events[1..], contractIndex) else (s', false)
  }

  lemma {:induction false} AddMessagesConcat(node: Node, s: Local, a: seq<Event>, b: seq<Event>, contractIndex: nat)
    ensures AddMessages(node, s, a + b, contractIndex)
         == var (s', ok) := AddMessages(node, s, a, contractIndex);
            if ok then AddMessages(node, s', b, contractIndex) else (s', false)
    decreases |a|
  {
    hide AddMessage;
    if |a| == 0 {
      assert a + b == b;
    } else {
      assert (a + b)[0] == a[0] && (a + b)[1..] == a[1..] + b;
      AddMessagesConcat(node, AddMessage(node, s, a[0], contractIndex).0, a[1..], b, contractIndex);
    }
  }

  // ---------- The service ----------

  datatype SyncConfig = SyncConfig(startBlock: nat, lastBlock: nat, batchSize: nat)

  /** A pass starts at the configured block or where the pool was confirmed last. */
  function ActualStart(cfg: SyncConfig, saved: nat): nat {
    Max(cfg.startBlock, saved)
  }

  /** The events of the blocks from `from` up to the last block of the call. */
  function Window(blocks: seq<seq<Event>>, cfg: SyncConfig, from: nat): seq<Event>
    requires cfg.lastBlock < |blocks|
  {
    if from <= cfg.lastBlock then Flatten(blocks[from..cfg.lastBlock + 1]) else []
  }

  ghost function LocalOf(pool: BasePool): Local
    reads pool, pool.Footprint()
  {
    Local(pool.View(), pool.lastConfirmedTxBlock)
  }

  method AddMessageToPool(pool: BasePool, node: Node, e: Event, contractIndex: nat) returns (ok: bool)
    requires pool.Valid()
    modifies pool, pool.Footprint()
    ensures (LocalOf(pool), ok) == AddMessage(node, old(LocalOf(pool)), e, contractIndex)
  {
    hide Decode, BlockAfterTx;
    match e {
      case Message(txHash, index, message, blockNumber) =>
        ok := pool.AddTxToState(txHash, node(txHash), index, message, TargetOf(index, contractIndex), blockNumber);
      case RootUpdated(_, _) => ok := true;
    }
  }

  /** The inner loop over the events of one range. */
  method AddBatch(pool: BasePool, node: Node, events: seq<Event>, contractIndex: nat) returns (ok: bool)
    requires pool.Valid()
    modifies pool, pool.Footprint()
    ensures (LocalOf(pool), ok) == AddMessages(node, old(LocalOf(pool)), events, contractIndex)
  {
    hide AddMessage;
    var i := 0;
    while i < |events|
      invariant 0 <= i <= |events|
      invariant AddMessages(node, LocalOf(pool), events[i..], contractIndex)
             == AddMessages(node, old(LocalOf(pool)), events, contractIndex)
    {
      assert events[i..][1..] == events[i + 1..];
      ok := AddMessageToPool(pool, node, events[i], contractIndex);
      if !ok {
        return false;
      }
      i := i + 1;
    }
    return true;
  }

  /** A range of the generator lies in the window and starts the rest of it. */
  lemma RangeStarts(blocks: seq<seq<Event>>, ranges: seq<EventRanges.Range>, cfg: SyncConfig, from: nat, i: nat)
    requires cfg.lastBlock < |blocks| && i < |ranges|
    requires EventRanges.Tiles(ranges, from, cfg.lastBlock, cfg.batchSize)
    ensures 0 <= ranges[i].fromBlock <= ranges[i].toBlock <= cfg.lastBlock
    ensures i + 1 < |ranges| ==> ranges[i + 1].fromBlock == ranges[i].toBlock + 1
    ensures i + 1 == |ranges| ==> ranges[i].toBlock == cfg.lastBlock
    ensures Flatten(blocks[ranges[i].fromBlock..cfg.lastBlock + 1])
         == EventsIn(blocks, ranges[i]) + Flatten(blocks[ranges[i].toBlock + 1..cfg.lastBlock + 1])
  {
    hide Flatten;
    if i > 0 {
      EventRanges.TilesAscend(ranges, from, cfg.lastBlock, cfg.batchSize, 0, i);
    }
    if i < |ranges| - 1 {
      EventRanges.TilesAscend(ranges, from, cfg.lastBlock, cfg.batchSize, i, |ranges| - 1);
    }
    var a, b, end := ranges[i].fromBlock, ranges[i].toBlock + 1, cfg.lastBlock + 1;
    FlattenConcat(blocks[a..b], blocks[b..end]);
    assert blocks[a..b] + blocks[b..end] == blocks[a..end];
  }

  lemma TilesEnds(ranges: seq<EventRanges.Range>, cfg: SyncConfig, from: nat)
    requires EventRanges.Tiles(ranges, from, cfg.lastBlock, cfg.batchSize)
    ensures ranges == [] <==> cfg.lastBlock < from
    ensures ranges != [] ==> ranges[0].fromBlock == from
  {
  }

  /** `syncStateFromContract`: one pass over the window in the generator's ranges. */
  method SyncStateFromContract(pool: BasePool, node: Node, blocks: seq<seq<Event>>, cfg: SyncConfig, from: nat,
                               contractIndex: nat, localIndex: nat)
    returns (ok: bool)
    requires pool.Valid() && cfg.lastBlock < |blocks| && cfg.batchSize >= 1
    modifies pool, pool.Footprint()
    ensures contractIndex < localIndex ==> !ok && LocalOf(pool) == old(LocalOf(pool))
    ensures localIndex <= contractIndex ==>
              (LocalOf(pool), ok) == AddMessages(node, old(LocalOf(pool)), Window(blocks, cfg, from), contractIndex)
  {
    hide AddMessages, Flatten, EventRanges.Tiles, EventRanges.Generated;
    if contractIndex < localIndex {
      return false;
    }
    var ranges := EventRanges.GetEvents(from, cfg.lastBlock, cfg.batchSize);
    TilesEnds(ranges, cfg, from);
    ghost var next: int := from;
    ghost var start := LocalOf(pool);
    var i := 0;
    while i < |ranges|
      invariant 0 <= i <= |ranges| && 0 <= next
      invariant if i < |ranges| then next == ranges[i].fromBlock else next > cfg.lastBlock
      invariant AddMessages(node, LocalOf(pool), Window(blocks, cfg, next), contractIndex)
             == AddMessages(node, start, Window(blocks, cfg, from), contractIndex)
    {
      RangeStarts(blocks, ranges, cfg, from, i);
      next := ranges[i].toBlock + 1;
      NoBlocks(blocks, cfg, next);
      AddMessagesConcat(node, LocalOf(pool), EventsIn(blocks, ranges[i]), Window(blocks, cfg, next), contractIndex);
      var done := AddBatch(pool, node, EventsIn(blocks, ranges[i]), contractIndex);
      if !done {
        return false;
      }
      i := i + 1;
    }
    AddNothing(node, LocalOf(pool), contractIndex);
    return true;
  }

  lemma NoBlocks(blocks: seq<seq<Event>>, cfg: SyncConfig, next: nat)
    requires cfg.lastBlock < |blocks| && next <= cfg.lastBlock + 1
    ensures Window(blocks, cfg, next) == Flatten(blocks[next..cfg.lastBlock + 1])
  {
  }

  lemma AddNothing(node: Node, s: Local, contractIndex: nat)
    ensures AddMessages(node, s, [], contractIndex) == (s, true)
  {
  }

  // ---------- One message and one pass over any pool ----------

  /** A message up to the contract's index is stored in both tiers, a later one in the
      optimistic tier only, and only a mined `transact` moves the remembered block. */
  lemma MessageStores(node: Node, s: Local, e: Event, contractIndex: nat)
    requires e.Message? && e.index >= 128 && |e.txHash| == HASH
    requires Decode(node(e.txHash), e.message).Ok?
    requires Decode(node(e.txHash), e.message).value.outCommit < Pow16(WORD)
    ensures var (s', ok) := AddMessage(node, s, e, contractIndex);
            var d, i := Decode(node(e.txHash), e.message).value, e.index / 128 - 1;
            var nullifiers := if d.nullifier.Some? then {d.nullifier.value} else {};
            && ok && Writes(s.pool.optimistic, s'.pool.optimistic, i, d.outCommit, e.txHash, d.memo)
            && s'.pool.optimistic.nullifiers == s.pool.optimistic.nullifiers
            && (e.index <= contractIndex ==>
                  && Writes(s.pool.confirmed, s'.pool.confirmed, i, d.outCommit, e.txHash, d.memo)
                  && s'.pool.confirmed.nullifiers == s.pool.confirmed.nullifiers + nullifiers)
            && (e.index > contractIndex ==>
                  s'.pool.confirmed.leaves == s.pool.confirmed.leaves && s'.pool.confirmed.txs == s.pool.confirmed.txs
                  && s'.pool.confirmed.nullifiers == s.pool.confirmed.nullifiers)
            && s'.saved == if e.index <= contractIndex && d.nullifier.Some? && e.blockNumber > s.saved
                           then e.blockNumber else s.saved
  {
    hide Decode, Tiers.Record, Writes, Pow16;
    RecordStores(s.pool, Decode(node(e.txHash), e.message).value, e.txHash, e.index, TargetOf(e.index, contractIndex));
  }

  /** A pass scans the blocks from the configured start, or from the remembered block
      if that is later, to the last one, and nothing if the start lies past it. */
  lemma PassScans(node: Node, s: Local, blocks: seq<seq<Event>>, cfg: SyncConfig, contractIndex: nat)
    requires cfg.lastBlock < |blocks|
    ensures var from := if s.saved > cfg.startBlock then s.saved else cfg.startBlock;
            Pass(node, s, blocks, cfg, contractIndex)
            == if from > cfg.lastBlock then (s, true)
               else AddMessages(node, s, Flatten(blocks[from..cfg.lastBlock + 1]), contractIndex)
  {
    hide AddMessages, Flatten;
    AddNothing(node, s, contractIndex);
  }

  /** A pass ends with an error at the first message that is refused, with the ones
      before stored. */
  lemma {:induction false} AddMessagesStops(node: Node, s: Local, events: seq<Event>, contractIndex: nat)
    returns (k: nat)
    ensures k <= |events|
    ensures var (before, ok) := AddMessages(node, s, events[..k], contractIndex);
            && ok
            && (k == |events| ==> AddMessages(node, s, events, contractIndex) == (before, true))
            && (k < |events| ==>
                  var (s', done) := AddMessage(node, before, events[k], contractIndex);
                  !done && AddMessages(node, s, events, contractIndex) == (s', false))
    decreases |events|
  {
    hide AddMessage;
    k := 0;
    if |events| > 0 {
      var (s', ok) := AddMessage(node, s, events[0], contractIndex);
      if ok {
        var rest := AddMessagesStops(node, s', events[1..], contractIndex);
        k := rest + 1;
        assert events[..k][1..] == events[1..][..rest];
      }
    }
  }

  // ---------- What a pass makes of the logs ----------

  /** A record written where it stands, or appended. */
  lemma WriteTier(t: Tier, log: seq<HexString>, n: nat, k: nat, d: Decoded, txHash: HexString)
    requires n <= |log| && k <= n && k < |log| && Holds(t, log[..n])
    requires log[k] == StoredRecord(d, txHash) && d.outCommit < Pow16(WORD) && |txHash| == HASH
    ensures Holds(t.UpdateState(k, d.outCommit, PrefixedMemo(d.outCommit, txHash, d.memo)), log[..Max(n, k + 1)])
  {
    hide Holds, StoredRecord, PrefixedMemo, CommitmentOf, IsStored, Pow16, Put, Buffered;
    StoredRecordIsStored(d, txHash);
    UpdateStored(t, k, d, txHash);
    if k < n {
      RewriteHolds(t, log[..n], k);
    } else {
      AppendHolds(t, log[..n], d.outCommit, log[k]);
      assert log[..n] + [log[k]] == log[..n + 1];
    }
  }

  /** One message, for the `k`-th entry of the log, where `mined` entries are on
      the contract: the logs hold the same entries and this one. */
  lemma RecordOne(p: Tiers, log: seq<HexString>, n: nat, c: nat, k: nat, mined: nat, d: Decoded, txHash: HexString)
    requires c <= n <= |log| && k <= n && k < |log| && (k < mined ==> k <= c)
    requires Mirrors(p, log[..n], c)
    requires log[k] == StoredRecord(d, txHash) && d.outCommit < Pow16(WORD) && |txHash| == HASH
    ensures var (p', ok) := p.Record(d, txHash, Key(k + 1), TargetOf(Key(k + 1), Key(mined)));
            var c' := if k < mined then Max(c, k + 1) else c;
            && ok && Mirrors(p', log[..Max(n, k + 1)], c')
            && p'.confirmed.nullifiers == p.confirmed.nullifiers
                 + (if k < mined && d.nullifier.Some? then {d.nullifier.value} else {})
  {
    hide Holds, StoredRecord, PrefixedMemo, CommitmentOf, IsStored, Pow16, Put, Buffered;
    WriteTier(p.optimistic, log, n, k, d, txHash);
    var n' := Max(n, k + 1);
    assert log[..n][..c] == log[..c];
    if k < mined {
      var confirmed := if d.nullifier.Some?
        then p.confirmed.(nullifiers := p.confirmed.nullifiers + {d.nullifier.value}) else p.confirmed;
      NullifiersApart(p.confirmed, log[..c], confirmed.nullifiers);
      WriteTier(confirmed, log, c, k, d, txHash);
      assert log[..n'][..Max(c, k + 1)] == log[..Max(c, k + 1)];
    } else {
      assert log[..n'][..c] == log[..c];
    }
  }

  /** The nullifiers that mined transactions among the events spend. */
  function SpentBy(node: Node, e: Event, contractIndex: nat): set<nat> {
    if e.Message? && e.index <= contractIndex && Decode(node(e.txHash), e.message).Ok?
       && Decode(node(e.txHash), e.message).value.nullifier.Some?
    then {Decode(node(e.txHash), e.message).value.nullifier.value} else {}
  }

  function Spent(node: Node, events: seq<Event>, contractIndex: nat): set<nat> {
    if |events| == 0 then {} else SpentBy(node, events[0], contractIndex) + Spent(node, events[1..], contractIndex)
  }

  /** Where a pass stands after the events that announce `k` entries. */
  ghost predicate Reached(p: Tiers, log: seq<HexString>, n: nat, c: nat, k: nat, mined: nat) {
    c <= n <= |log| && k <= n && (k <= c || mined <= c) && Mirrors(p, log[..n], c)
  }

  lemma AddGood(node: Node, s: Local, log: seq<HexString>, n: nat, c: nat, k: nat, mined: nat, e: Event)
    requires Reached(s.pool, log, n, c, k, mined) && GoodEvent(node, e, k) && e.Message?
    requires k < |log| && log[k] == RecordOf(node, e)
    ensures var (s', ok) := AddMessage(node, s, e, Key(mined));
            && ok
            && Reached(s'.pool, log, Max(n, k + 1), if k < mined then Max(c, k + 1) else c, k + 1, mined)
            && s'.pool.confirmed.nullifiers == s.pool.confirmed.nullifiers + SpentBy(node, e, Key(mined))
  {
    hide Mirrors, Decode, Tiers.Record, BlockAfterTx;
    RecordOne(s.pool, log, n, c, k, mined, Decode(node(e.txHash), e.message).value, e.txHash);
  }

  /** The number of entries that the first `i` events announce. */
  function Announced(node: Node, events: seq<Event>, i: nat): nat
    requires i <= |events|
  {
    |Log(node, events[..i])|
  }

  /** The event after the first `i` announces the next entry, or none. */
  lemma AnnouncedNext(node: Node, events: seq<Event>, i: nat)
    requires Consistent(node, events) && i < |events|
    ensures var k, log := Announced(node, events, i), Log(node, events);
            && GoodEvent(node, events[i], k)
            && k <= Announced(node, events, i + 1) <= |log|
            && (events[i].RootUpdated? ==> Announced(node, events, i + 1) == k)
            && (events[i].Message? ==> Announced(node, events, i + 1) == k + 1 && log[k] == RecordOf(node, events[i]))
  {
    hide GoodEvent, RecordOf;
    LogGrows(node, events, i + 1, |events|);
    assert events[..|events|] == events;
    assert events[..i + 1][..i] == events[..i];
    assert GoodEvent(node, events[i], |Log(node, events[..i])|);
  }

  /** A pass over any stretch of events that leaves no gap: both logs end as
      stretches of the chain's log, the confirmed one up to the contract's index
      or the end of the stretch, and the nullifiers of mined transactions are
      known. Entries that were there stay. */
  lemma {:induction false} PassMirrors(node: Node, s: Local, events: seq<Event>, n: nat, c: nat, mined: nat, i: nat,
                                       b: nat)
    requires Consistent(node, events) && i <= b <= |events|
    requires Reached(s.pool, Log(node, events), n, c, Announced(node, events, i), mined)
    ensures var (s', ok) := AddMessages(node, s, events[i..b], Key(mined));
            var k := Announced(node, events, b);
            && ok
            && Reached(s'.pool, Log(node, events), Max(n, k), Max(c, Min(k, mined)), k, mined)
            && s'.pool.confirmed.nullifiers == s.pool.confirmed.nullifiers + Spent(node, events[i..b], Key(mined))
    decreases b - i
  {
    hide AddMessage, Log, GoodEvent, RecordOf, Mirrors, Consistent, SpentBy;
    if i < b {
      AnnouncedNext(node, events, i);
      assert events[i..b][0] == events[i] && events[i..b][1..] == events[i + 1..b];
      var log, k := Log(node, events), Announced(node, events, i);
      if events[i].Message? {
        AddGood(node, s, log, n, c, k, mined, events[i]);
        PassMirrors(node, AddMessage(node, s, events[i], Key(mined)).0, events,
          Max(n, k + 1), if k < mined then Max(c, k + 1) else c, mined, i + 1, b);
      } else {
        AddRoot(node, s, events[i], Key(mined));
        PassMirrors(node, s, events, n, c, mined, i + 1, b);
      }
      AnnouncedGrows(node, events, i + 1, b);
    }
  }

  lemma AddRoot(node: Node, s: Local, e: Event, contractIndex: nat)
    requires e.RootUpdated?
    ensures AddMessage(node, s, e, contractIndex) == (s, true) && SpentBy(node, e, contractIndex) == {}
  {
  }

  lemma AnnouncedGrows(node: Node, events: seq<Event>, i: nat, j: nat)
    requires i <= j <= |events|
    ensures Announced(node, events, i) <= Announced(node, events, j)
  {
    LogGrows(node, events, i, j);
  }

  // ---------- What a pass makes of the confirmed leaves, gap or not ----------

  /** The commitments `cs` written at the positions from `a` up to `b`. */
  function Written(leaves: seq<nat>, cs: seq<nat>, a: nat, b: nat): seq<nat>
    requires b <= |cs|
    decreases if a < b then b - a else 0
  {
    if a >= b then leaves else Written(Put(leaves, a, cs[a]), cs, a + 1, b)
  }

  /** Writing past the end leaves empty leaves in between. */
  lemma {:induction false} WrittenIs(leaves: seq<nat>, cs: seq<nat>, a: nat, b: nat)
    requires a < b <= |cs|
    ensures var r := Written(leaves, cs, a, b);
            && |r| == Max(|leaves|, b)
            && forall j | 0 <= j < |r| ::
                 r[j] == if a <= j < b then cs[j] else if j < |leaves| then leaves[j] else EMPTY_LEAF
    decreases b - a
  {
    var next := Put(leaves, a, cs[a]);
    if a + 1 < b {
      WrittenIs(next, cs, a + 1, b);
    } else {
      assert Written(leaves, cs, a, b) == next;
    }
  }

  /** One message for the `k`-th entry. */
  lemma AddLeaf(node: Node, s: Local, e: Event, k: nat, mined: nat)
    requires GoodEvent(node, e, k) && e.Message?
    ensures var (s', ok) := AddMessage(node, s, e, Key(mined));
            && ok
            && s'.pool.confirmed.leaves
               == (if k < mined then Put(s.pool.confirmed.leaves, k, CommitmentOf(RecordOf(node, e)))
                   else s.pool.confirmed.leaves)
            && s.saved <= s'.saved && (s'.saved == s.saved || (k < mined && s'.saved == e.blockNumber))
  {
    hide Decode, StoredRecord, PrefixedMemo, CommitmentOf, Put, Buffered, Pow16, IsStored, BlockAfterTx;
    var d, input := Decode(node(e.txHash), e.message).value, node(e.txHash);
    StoredRecordIsStored(d, e.txHash);
    BlockAfterTxIs(s.saved, input, e.message, TargetOf(e.index, Key(mined)), e.blockNumber);
  }

  lemma BlockAfterTxIs(saved: nat, input: HexString, message: HexString, target: Target, blockNumber: nat)
    ensures var saved' := BlockAfterTx(saved, input, message, target, blockNumber);
            saved <= saved' && (saved' == saved || (target == All && saved' == blockNumber))
  {
    hide Decode;
  }

  /** A pass writes the mined ones of the entries it sees, wherever it starts, and
      remembers the block of one of them or the block it knew. */
  lemma {:induction false} PassLeaves(node: Node, s: Local, events: seq<Event>, mined: nat, i: nat, b: nat)
    returns (j: nat)
    requires Consistent(node, events) && i <= b <= |events| && mined <= |Log(node, events)|
    requires Announced(node, events, b) <= |Log(node, events)|
    ensures var (s', ok) := AddMessages(node, s, events[i..b], Key(mined));
            var k, end := Announced(node, events, i), Min(Announced(node, events, b), mined);
            && ok
            && s'.pool.confirmed.leaves == Written(s.pool.confirmed.leaves, Commitments(Log(node, events)), k, end)
            && s.saved <= s'.saved
            && (s'.saved != s.saved ==>
                  i <= j < b && s'.saved == events[j].blockNumber && k <= Announced(node, events, j) < end)
    decreases b - i
  {
    hide AddMessage, Log, GoodEvent, RecordOf, Consistent, Commitments, CommitmentOf, Put;
    j := i;
    if i < b {
      AnnouncedNext(node, events, i);
      AnnouncedGrows(node, events, i + 1, b);
      assert events[i..b][0] == events[i] && events[i..b][1..] == events[i + 1..b];
      var k := Announced(node, events, i);
      if events[i].Message? {
        AddLeaf(node, s, events[i], k, mined);
        CommitmentAt(Log(node, events), k);
        j := PassLeaves(node, AddMessage(node, s, events[i], Key(mined)).0, events, mined, i + 1, b);
        var s' := AddMessages(node, s, events[i..b], Key(mined)).0;
        if s'.saved == AddMessage(node, s, events[i], Key(mined)).0.saved {
          j := i;
        }
      } else {
        AddRoot(node, s, events[i], Key(mined));
        j := PassLeaves(node, s, events, mined, i + 1, b);
      }
    }
  }

  lemma CommitmentAt(log: seq<HexString>, k: nat)
    requires k < |log|
    ensures Commitments(log)[k] == CommitmentOf(log[k])
  {
  }

  // ---------- The sync and its check ----------

  /** What `syncState` finds on the contract. */
  datatype Contract = Contract(index: nat, root: nat)

  /** The contract after `mined` transactions. */
  function ContractAt(rootOf: seq<nat> -> nat, log: seq<HexString>, mined: nat): Contract
    requires mined <= |log|
  {
    Contract(Key(mined), rootOf(Commitments(log[..mined])))
  }

  /** The local confirmed tier is what the contract says. */
  predicate InSync(rootOf: seq<nat> -> nat, p: Tiers, contract: Contract) {
    p.confirmed.NextIndex() == contract.index && rootOf(p.confirmed.leaves) == contract.root
  }

  /** One round of the loop, which looks up its start anew. */
  function Pass(node: Node, s: Local, blocks: seq<seq<Event>>, cfg: SyncConfig, contractIndex: nat): (Local, bool)
    requires cfg.lastBlock < |blocks|
  {
    AddMessages(node, s, Window(blocks, cfg, ActualStart(cfg, s.saved)), contractIndex)
  }

  /** The loop of `syncState`, cut off after some rounds. It throws without a
      start block or a last block. */
  function Looped(node: Node, s: Local, blocks: seq<seq<Event>>, cfg: SyncConfig,
                  contractIndex: nat, rounds: nat): (Local, bool)
    requires cfg.lastBlock < |blocks|
    decreases rounds
  {
    if rounds == 0 || s.pool.confirmed.NextIndex() >= contractIndex then (s, true)
    else if cfg.startBlock == 0 || cfg.lastBlock == 0 then (s, false)
    else
      var (s', ok) := Pass(node, s, blocks, cfg, contractIndex);
      if ok then Looped(node, s', blocks, cfg, contractIndex, rounds - 1) else (s', false)
  }

  /** The loop is over by then. */
  predicate Ended(node: Node, s: Local, blocks: seq<seq<Event>>, cfg: SyncConfig, contractIndex: nat, rounds: nat)
    requires cfg.lastBlock < |blocks|
  {
    var (s', ok) := Looped(node, s, blocks, cfg, contractIndex, rounds);
    !ok || s'.pool.confirmed.NextIndex() >= contractIndex
  }

  function Wiped(p: Tiers): Tiers {
    Tiers(p.confirmed.Wiped(), p.optimistic.Wiped())
  }

  /** The outcome: an error of a message is passed on, a root that differs wipes
      both tiers and forgets the block. */
  function Synced(rootOf: seq<nat> -> nat, node: Node, s: Local, blocks: seq<seq<Event>>, cfg: SyncConfig,
                  contract: Contract, rounds: nat): (Local, bool)
    requires cfg.lastBlock < |blocks|
  {
    var (s', ok) := Looped(node, s, blocks, cfg, contract.index, rounds);
    if !ok then (s', false)
    else if rootOf(s'.pool.confirmed.leaves) != contract.root then (Local(Wiped(s'.pool), 0), false)
    else (s', true)
  }

  /** `rounds` are rounds after which the loop is over. */
  method SyncState(pool: BasePool, node: Node, blocks: seq<seq<Event>>, cfg: SyncConfig, contract: Contract,
                   ghost rounds: nat)
    returns (ok: bool)
    requires pool.Valid() && cfg.lastBlock < |blocks| && cfg.batchSize >= 1
    requires Ended(node, LocalOf(pool), blocks, cfg, contract.index, rounds)
    modifies pool, pool.Footprint()
    ensures (LocalOf(pool), ok) == Synced(pool.state.rootOf, node, old(LocalOf(pool)), blocks, cfg, contract, rounds)
  {
    hide AddMessages, Window;
    var localIndex, localRoot := pool.state.GetNextIndex(), pool.state.GetMerkleRoot();
    if contract.root == localRoot && contract.index == localIndex {
      return true;
    }
    ghost var left := rounds;
    while localIndex < contract.index
      invariant localIndex == pool.state.GetNextIndex() && localRoot == pool.state.GetMerkleRoot()
      invariant Ended(node, LocalOf(pool), blocks, cfg, contract.index, left)
      invariant Looped(node, LocalOf(pool), blocks, cfg, contract.index, left)
             == Looped(node, old(LocalOf(pool)), blocks, cfg, contract.index, rounds)
      decreases left
    {
      if cfg.startBlock == 0 || cfg.lastBlock == 0 {
        return false;
      }
      var from := Max(cfg.startBlock, pool.lastConfirmedTxBlock);
      var done := SyncStateFromContract(pool, node, blocks, cfg, from, contract.index, localIndex);
      if !done {
        return false;
      }
      localIndex, localRoot := pool.state.GetNextIndex(), pool.state.GetMerkleRoot();
      left := left - 1;
    }
    if localRoot != contract.root {
      pool.state.Wipe();
      pool.optimisticState.Wipe();
      pool.lastConfirmedTxBlock := 0;
      return false;
    }
    return true;
  }

  lemma LoopOnce(node: Node, s: Local, blocks: seq<seq<Event>>, cfg: SyncConfig, contractIndex: nat)
    requires 1 <= cfg.startBlock && 1 <= cfg.lastBlock < |blocks|
    ensures Looped(node, s, blocks, cfg, contractIndex, 1)
         == if s.pool.confirmed.NextIndex() >= contractIndex then (s, true)
            else Pass(node, s, blocks, cfg, contractIndex)
  {
    hide Pass;
    var (s', ok) := Pass(node, s, blocks, cfg, contractIndex);
    assert Looped(node, s', blocks, cfg, contractIndex, 0) == (s', true);
  }

  /** More rounds than the loop takes make no difference. */
  lemma {:induction false} EndedStays(node: Node, s: Local, blocks: seq<seq<Event>>, cfg: SyncConfig,
                                      contractIndex: nat, rounds: nat, more: nat)
    requires cfg.lastBlock < |blocks| && rounds <= more && Ended(node, s, blocks, cfg, contractIndex, rounds)
    ensures Looped(node, s, blocks, cfg, contractIndex, more) == Looped(node, s, blocks, cfg, contractIndex, rounds)
    decreases rounds
  {
    hide Pass;
    if rounds > 0 && s.pool.confirmed.NextIndex() < contractIndex && cfg.startBlock != 0 && cfg.lastBlock != 0 {
      var (s', ok) := Pass(node, s, blocks, cfg, contractIndex);
      if ok {
        EndedStays(node, s', blocks, cfg, contractIndex, rounds - 1, more - 1);
      }
    }
  }

  /** An error ends the sync and is passed on, with what was stored before it and
      without a wipe: a message that is refused, or a configuration without a start or a
      last block while entries are missing. */
  lemma ErrorEndsSync(rootOf: seq<nat> -> nat, node: Node, s: Local, blocks: seq<seq<Event>>, cfg: SyncConfig,
                      contract: Contract, rounds: nat)
    requires cfg.lastBlock < |blocks| && rounds > 0 && 128 * |s.pool.confirmed.leaves| < contract.index
    ensures cfg.startBlock == 0 || cfg.lastBlock == 0 ==>
              Ended(node, s, blocks, cfg, contract.index, rounds)
              && Synced(rootOf, node, s, blocks, cfg, contract, rounds) == (s, false)
    ensures cfg.startBlock > 0 && cfg.lastBlock > 0 && !Pass(node, s, blocks, cfg, contract.index).1 ==>
              Ended(node, s, blocks, cfg, contract.index, rounds)
              && Synced(rootOf, node, s, blocks, cfg, contract, rounds)
                 == (Pass(node, s, blocks, cfg, contract.index).0, false)
  {
    hide Pass;
  }

  // ---------- When a sync ends, and how ----------

  /** The number of entries that the blocks below `b` announce. */
  function MessagesBelow(node: Node, blocks: seq<seq<Event>>, b: nat): nat {
    |Log(node, Flatten(blocks[..Min(b, |blocks|)]))|
  }

  /** A pool that holds a stretch `log[..n]` of the chain's log, `c` entries of it
      confirmed, whatever block it remembers. */
  ghost predicate LocalState(node: Node, s: Local, blocks: seq<seq<Event>>, cfg: SyncConfig, n: nat, c: nat) {
    && 1 <= cfg.startBlock && 1 <= cfg.lastBlock < |blocks| && Consistent(node, Flatten(blocks))
    && c <= n <= |Log(node, Flatten(blocks))|
    && Mirrors(s.pool, Log(node, Flatten(blocks))[..n], c)
  }

  /** The window in terms of events. */
  lemma WindowIs(node: Node, blocks: seq<seq<Event>>, cfg: SyncConfig, from: nat) returns (i: nat, b: nat)
    requires cfg.lastBlock < |blocks|
    ensures i <= b <= |Flatten(blocks)| && Window(blocks, cfg, from) == Flatten(blocks)[i..b]
    ensures from <= cfg.lastBlock ==>
              i == Before(blocks, from) && b == Before(blocks, cfg.lastBlock + 1)
              && Announced(node, Flatten(blocks), i) == MessagesBelow(node, blocks, from)
              && Announced(node, Flatten(blocks), b) == MessagesBelow(node, blocks, cfg.lastBlock + 1)
    ensures Announced(node, Flatten(blocks), b) <= |Log(node, Flatten(blocks))|
    ensures from > cfg.lastBlock ==>
              i == b == 0 && MessagesBelow(node, blocks, from) >= MessagesBelow(node, blocks, cfg.lastBlock + 1)
  {
    hide Log, Flatten;
    if from <= cfg.lastBlock {
      FlattenSlice(blocks, from, cfg.lastBlock + 1);
      FlattenSlice(blocks, 0, from);
      i, b := Before(blocks, from), Before(blocks, cfg.lastBlock + 1);
    } else {
      i, b := 0, 0;
      BelowGrows(node, blocks, cfg.lastBlock + 1, from);
    }
    AnnouncedAll(node, Flatten(blocks), b);
  }

  lemma BelowGrows(node: Node, blocks: seq<seq<Event>>, a: nat, b: nat)
    requires a <= b
    ensures MessagesBelow(node, blocks, a) <= MessagesBelow(node, blocks, b) <= |Log(node, Flatten(blocks))|
  {
    hide Log, Flatten;
    var a', b' := Min(a, |blocks|), Min(b, |blocks|);
    FlattenSlice(blocks, 0, a');
    FlattenSlice(blocks, a', b');
    var events := Flatten(blocks);
    AnnouncedGrows(node, events, Before(blocks, a'), Before(blocks, b'));
    AnnouncedAll(node, events, Before(blocks, b'));
  }

  lemma AnnouncedAll(node: Node, events: seq<Event>, i: nat)
    requires i <= |events|
    ensures Announced(node, events, i) <= |Log(node, events)|
  {
    LogGrows(node, events, i, |events|);
    assert events[..|events|] == events;
  }

  /** The leaves and the remembered block after one pass, wherever it starts. */
  lemma PassWrites(node: Node, s: Local, blocks: seq<seq<Event>>, cfg: SyncConfig, mined: nat)
    requires cfg.lastBlock < |blocks| && Consistent(node, Flatten(blocks)) && mined <= |Log(node, Flatten(blocks))|
    ensures var (s', ok) := Pass(node, s, blocks, cfg, Key(mined));
            var cs := Commitments(Log(node, Flatten(blocks)));
            var k := MessagesBelow(node, blocks, ActualStart(cfg, s.saved));
            var end := Min(MessagesBelow(node, blocks, cfg.lastBlock + 1), mined);
            && ok && end <= |cs|
            && s'.pool.confirmed.leaves == Written(s.pool.confirmed.leaves, cs, k, end)
            && (end <= k ==> s'.saved == s.saved)
  {
    hide AddMessages, Consistent, Log, Flatten, Commitments, Announced, MessagesBelow, Window;
    var from := ActualStart(cfg, s.saved);
    var i, b := WindowIs(node, blocks, cfg, from);
    var j := PassLeaves(node, s, Flatten(blocks), mined, i, b);
    if from > cfg.lastBlock {
      assert Flatten(blocks)[i..b] == [];
      AddNothing(node, s, Key(mined));
    }
  }

  /** One pass over a window that starts no later than the first message the
      confirmed log misses. */
  lemma WindowPass(node: Node, s: Local, blocks: seq<seq<Event>>, cfg: SyncConfig, n: nat, c: nat, mined: nat)
    requires LocalState(node, s, blocks, cfg, n, c) && ActualStart(cfg, s.saved) <= cfg.lastBlock
    requires MessagesBelow(node, blocks, ActualStart(cfg, s.saved)) <= c
    ensures var (s', ok) := Pass(node, s, blocks, cfg, Key(mined));
            var k := MessagesBelow(node, blocks, cfg.lastBlock + 1);
            && ok && k <= |Log(node, Flatten(blocks))|
            && Mirrors(s'.pool, Log(node, Flatten(blocks))[..Max(n, k)], Max(c, Min(k, mined)))
            && s'.pool.confirmed.nullifiers == s.pool.confirmed.nullifiers
                 + Spent(node, Window(blocks, cfg, ActualStart(cfg, s.saved)), Key(mined))
  {
    hide AddMessages, Mirrors, Consistent, Log, Flatten, Spent, MessagesBelow, Announced, Window;
    var i, b := WindowIs(node, blocks, cfg, ActualStart(cfg, s.saved));
    PassMirrors(node, s, Flatten(blocks), n, c, mined, i, b);
  }

  lemma LeavesAre(t: Tier, log: seq<HexString>)
    requires Holds(t, log)
    ensures t.leaves == Commitments(log) && t.NextIndex() == Key(|log|)
  {
  }

  /** The window reaches from the first missing message to the contract's index. */
  predicate WindowCloses(node: Node, blocks: seq<seq<Event>>, cfg: SyncConfig, saved: nat, c: nat, mined: nat) {
    && MessagesBelow(node, blocks, ActualStart(cfg, saved)) <= c
    && mined <= MessagesBelow(node, blocks, cfg.lastBlock + 1)
  }

  /** Then, or with nothing to do, the sync ends at once in the contract's log: the
      optimistic tier holds every announced entry of the window and nothing is
      wiped. */
  lemma SyncRestores(rootOf: seq<nat> -> nat, node: Node, s: Local, blocks: seq<seq<Event>>, cfg: SyncConfig,
                     n: nat, c: nat, mined: nat)
    requires LocalState(node, s, blocks, cfg, n, c)
    requires c <= mined <= |Log(node, Flatten(blocks))|
    requires c == mined || WindowCloses(node, blocks, cfg, s.saved, c, mined)
    ensures var log, k := Log(node, Flatten(blocks)), MessagesBelow(node, blocks, cfg.lastBlock + 1);
            var contract := ContractAt(rootOf, log, mined);
            var (s', ok) := Synced(rootOf, node, s, blocks, cfg, contract, 1);
            var n' := if c == mined then n else Max(n, k);
            && Ended(node, s, blocks, cfg, contract.index, 1)
            && ok && n' <= |log| && Mirrors(s'.pool, log[..n'], mined) && InSync(rootOf, s'.pool, contract)
            && s' == if c == mined then s else Pass(node, s, blocks, cfg, contract.index).0
  {
    hide Holds, Consistent, Log, Flatten, Commitments, MessagesBelow, Pass;
    var log, k := Log(node, Flatten(blocks)), MessagesBelow(node, blocks, cfg.lastBlock + 1);
    LoopOnce(node, s, blocks, cfg, Key(mined));
    LeavesAre(s.pool.confirmed, log[..n][..c]);
    assert log[..n][..c] == log[..c];
    hide Looped;
    if c < mined {
      StartsInWindow(node, blocks, cfg, s.saved, c, mined);
      WindowPass(node, s, blocks, cfg, n, c, mined);
      var s' := Pass(node, s, blocks, cfg, Key(mined)).0;
      LeavesAre(s'.pool.confirmed, log[..Max(n, k)][..mined]);
      assert log[..Max(n, k)][..mined] == log[..mined];
    }
  }

  lemma StartsInWindow(node: Node, blocks: seq<seq<Event>>, cfg: SyncConfig, saved: nat, c: nat, mined: nat)
    requires WindowCloses(node, blocks, cfg, saved, c, mined) && c < mined
    ensures ActualStart(cfg, saved) <= cfg.lastBlock
  {
    hide MessagesBelow;
    if ActualStart(cfg, saved) > cfg.lastBlock {
      BelowGrows(node, blocks, cfg.lastBlock + 1, ActualStart(cfg, saved));
    }
  }

  /** A window that ends too early, or starts after everything that is missing:
      every pass succeeds and none gets further, so the loop never ends. */
  lemma {:induction false} NeverEnds(node: Node, s: Local, blocks: seq<seq<Event>>, cfg: SyncConfig, mined: nat,
                                     rounds: nat)
    requires 1 <= cfg.startBlock && 1 <= cfg.lastBlock < |blocks| && Consistent(node, Flatten(blocks))
    requires |s.pool.confirmed.leaves| < mined <= |Log(node, Flatten(blocks))|
    requires MessagesBelow(node, blocks, cfg.lastBlock + 1) < mined
          || mined <= MessagesBelow(node, blocks, ActualStart(cfg, s.saved))
    ensures !Ended(node, s, blocks, cfg, Key(mined), rounds)
    decreases rounds
  {
    hide Consistent, Log, Flatten, MessagesBelow, Pass, Commitments, ActualStart;
    if rounds > 0 {
      PassWrites(node, s, blocks, cfg, mined);
      var cs := Commitments(Log(node, Flatten(blocks)));
      var k := MessagesBelow(node, blocks, ActualStart(cfg, s.saved));
      var end := Min(MessagesBelow(node, blocks, cfg.lastBlock + 1), mined);
      if k < end {
        WrittenIs(s.pool.confirmed.leaves, cs, k, end);
      }
      NeverEnds(node, Pass(node, s, blocks, cfg, Key(mined)).0, blocks, cfg, mined, rounds - 1);
    }
  }

  /** Records are stored at the positions of the tree only. */
  predicate Keyed(t: Tier) {
    forall k | k in t.txs :: KeyFrom(k, 0, |t.leaves|)
  }

  lemma UpdateKeyed(t: Tier, i: nat, outCommit: nat, txData: HexString)
    requires Keyed(t)
    ensures Keyed(t.UpdateState(i, outCommit, txData))
  {
    hide Buffered;
  }

  lemma {:induction false} PassKeyed(node: Node, s: Local, events: seq<Event>, contractIndex: nat)
    requires Keyed(s.pool.confirmed) && Keyed(s.pool.optimistic)
    ensures var p := AddMessages(node, s, events, contractIndex).0.pool;
            Keyed(p.confirmed) && Keyed(p.optimistic)
    decreases |events|
  {
    hide Keyed, AddMessage;
    if |events| > 0 {
      MessageKeyed(node, s, events[0], contractIndex);
      PassKeyed(node, AddMessage(node, s, events[0], contractIndex).0, events[1..], contractIndex);
    }
  }

  lemma MessageKeyed(node: Node, s: Local, e: Event, contractIndex: nat)
    requires Keyed(s.pool.confirmed) && Keyed(s.pool.optimistic)
    ensures var p := AddMessage(node, s, e, contractIndex).0.pool;
            Keyed(p.confirmed) && Keyed(p.optimistic)
  {
    hide Tier.UpdateState, Decode, PrefixedMemo, BlockAfterTx;
    if e.Message? && Decode(node(e.txHash), e.message).Ok? && e.index >= OUTPLUSONE {
      var d := Decode(node(e.txHash), e.message).value;
      var i, memo := (e.index - OUTPLUSONE) / OUTPLUSONE, PrefixedMemo(d.outCommit, e.txHash, d.memo);
      UpdateKeyed(s.pool.optimistic, i, d.outCommit, memo);
      UpdateKeyed(s.pool.confirmed, i, d.outCommit, memo);
      if d.nullifier.Some? {
        var nullifiers := s.pool.confirmed.nullifiers + {d.nullifier.value};
        UpdateKeyed(s.pool.confirmed.(nullifiers := nullifiers), i, d.outCommit, memo);
      }
    }
  }

  /** After a mismatch of the roots both tiers start over. */
  lemma WipeEmpties(p: Tiers)
    requires Keyed(p.confirmed) && Keyed(p.optimistic)
    ensures Wiped(p) == EMPTY
  {
    assert p.confirmed.Wiped().txs == map[] && p.optimistic.Wiped().txs == map[];
  }

  lemma MirrorsKeyed(p: Tiers, log: seq<HexString>, c: nat)
    requires Mirrors(p, log, c)
    ensures Keyed(p.confirmed) && Keyed(p.optimistic)
  {
    hide CommitmentOf, IsStored;
  }

  predicate NoEmptyLeaf(cs: seq<nat>) {
    forall c | c in cs :: c != EMPTY_LEAF
  }

  /** How far a sequence of leaves agrees with the chain's commitments. */
  function Agree(leaves: seq<nat>, cs: seq<nat>): (n: nat)
    ensures n <= |leaves| && n <= |cs| && leaves[..n] == cs[..n]
    ensures n < |leaves| && n < |cs| ==> leaves[n] != cs[n]
  {
    if leaves == [] || cs == [] || leaves[0] != cs[0] then 0
    else
      assert leaves == leaves[..1] + leaves[1..] && cs == cs[..1] + cs[1..];
      Agree(leaves[1..], cs[1..]) + 1
  }

  lemma AgreePrefix(cs: seq<nat>, c: nat)
    requires c <= |cs|
    ensures Agree(cs[..c], cs) == c
  {
    assert forall j | 0 <= j < c :: cs[..c][j] == cs[j];
  }

  /** Writing from `k` on completes the leaves exactly when they agree up to `k`. */
  lemma WrittenCompletes(leaves: seq<nat>, cs: seq<nat>, k: nat, mined: nat)
    requires NoEmptyLeaf(cs) && |leaves| < mined <= |cs| && k < mined
    ensures Written(leaves, cs, k, mined) == cs[..mined] <==> k <= Agree(leaves, cs)
  {
    hide Agree;
    WrittenIs(leaves, cs, k, mined);
    var r, n := Written(leaves, cs, k, mined), Agree(leaves, cs);
    assert cs[n] in cs;
    if n < k {
      assert r[n] != cs[n] && cs[..mined][n] == cs[n];
    } else {
      forall j | 0 <= j < k
        ensures r[j] == cs[j]
      {
        assert leaves[..n][j] == cs[..n][j];
      }
    }
  }

  /** A window that starts after the first leaf that is missing or wrong and reaches
      the contract's index: the pass leaves that one as it is, and the roots differ. */
  lemma GapDiffers(rootOf: seq<nat> -> nat, node: Node, s: Local, blocks: seq<seq<Event>>, cfg: SyncConfig, mined: nat)
    requires 1 <= cfg.startBlock && 1 <= cfg.lastBlock < |blocks| && Consistent(node, Flatten(blocks))
    requires |s.pool.confirmed.leaves| < mined <= |Log(node, Flatten(blocks))|
    requires Injective(rootOf) && NoEmptyLeaf(Commitments(Log(node, Flatten(blocks))))
    requires Agree(s.pool.confirmed.leaves, Commitments(Log(node, Flatten(blocks))))
           < MessagesBelow(node, blocks, ActualStart(cfg, s.saved)) < mined
    requires mined <= MessagesBelow(node, blocks, cfg.lastBlock + 1)
    ensures var contract := ContractAt(rootOf, Log(node, Flatten(blocks)), mined);
            var (s', ok) := Pass(node, s, blocks, cfg, Key(mined));
            && Ended(node, s, blocks, cfg, contract.index, 1)
            && Looped(node, s, blocks, cfg, contract.index, 1) == (s', true) == (s', ok)
            && rootOf(s'.pool.confirmed.leaves) != contract.root
  {
    hide Consistent, Log, Flatten, MessagesBelow, Pass, Injective, NoEmptyLeaf, Agree, Written, CommitmentOf;
    LoopOnce(node, s, blocks, cfg, Key(mined));
    hide Looped;
    var log := Log(node, Flatten(blocks));
    var k := MessagesBelow(node, blocks, ActualStart(cfg, s.saved));
    PassWrites(node, s, blocks, cfg, mined);
    WrittenCompletes(s.pool.confirmed.leaves, Commitments(log), k, mined);
    WrittenIs(s.pool.confirmed.leaves, Commitments(log), k, mined);
    assert Commitments(log[..mined]) == Commitments(log)[..mined];
    RootsDiffer(rootOf, Pass(node, s, blocks, cfg, Key(mined)).0.pool.confirmed.leaves, Commitments(log[..mined]));
  }

  lemma RootsDiffer(rootOf: seq<nat> -> nat, a: seq<nat>, b: seq<nat>)
    requires Injective(rootOf) && a != b
    ensures rootOf(a) != rootOf(b)
  {
  }

  /** Then both tiers are wiped, whatever they held, and the block is forgotten. */
  lemma GapWipes(rootOf: seq<nat> -> nat, node: Node, s: Local, blocks: seq<seq<Event>>, cfg: SyncConfig, mined: nat)
    requires 1 <= cfg.startBlock && 1 <= cfg.lastBlock < |blocks| && Consistent(node, Flatten(blocks))
    requires Keyed(s.pool.confirmed) && Keyed(s.pool.optimistic)
    requires |s.pool.confirmed.leaves| < mined <= |Log(node, Flatten(blocks))|
    requires Injective(rootOf) && NoEmptyLeaf(Commitments(Log(node, Flatten(blocks))))
    requires Agree(s.pool.confirmed.leaves, Commitments(Log(node, Flatten(blocks))))
           < MessagesBelow(node, blocks, ActualStart(cfg, s.saved)) < mined
    requires mined <= MessagesBelow(node, blocks, cfg.lastBlock + 1)
    ensures var contract := ContractAt(rootOf, Log(node, Flatten(blocks)), mined);
            && Ended(node, s, blocks, cfg, contract.index, 1)
            && Synced(rootOf, node, s, blocks, cfg, contract, 1) == (Local(EMPTY, 0), false)
  {
    hide Consistent, Log, Flatten, MessagesBelow, Keyed, Wiped, Injective, Agree, Looped, Ended, NoEmptyLeaf,
      Commitments;
    GapDiffers(rootOf, node, s, blocks, cfg, mined);
    PassKeyed(node, s, Window(blocks, cfg, ActualStart(cfg, s.saved)), Key(mined));
    var s' := Pass(node, s, blocks, cfg, Key(mined)).0;
    hide Pass;
    WipeEmpties(s'.pool);
  }

  /** The sync comes to an end, without an error, in the contract's log. */
  ghost predicate SyncsInOrder(rootOf: seq<nat> -> nat, node: Node, s: Local, blocks: seq<seq<Event>>, cfg: SyncConfig,
                               contract: Contract)
    requires cfg.lastBlock < |blocks|
  {
    exists rounds: nat ::
      && Ended(node, s, blocks, cfg, contract.index, rounds)
      && Synced(rootOf, node, s, blocks, cfg, contract, rounds).1
      && InSync(rootOf, Synced(rootOf, node, s, blocks, cfg, contract, rounds).0.pool, contract)
  }

  /** What is known before the call: the confirmed leaves are those of the contract, or
      fewer, and the window reaches from the first one that is missing or wrong to the
      contract's index. */
  predicate Recoverable(node: Node, s: Local, blocks: seq<seq<Event>>, cfg: SyncConfig, mined: nat)
    requires mined <= |Log(node, Flatten(blocks))|
  {
    var leaves, cs := s.pool.confirmed.leaves, Commitments(Log(node, Flatten(blocks)));
    leaves == cs[..mined] || (|leaves| < mined && WindowCloses(node, blocks, cfg, s.saved, Agree(leaves, cs), mined))
  }

  /** The exact condition, for any local state. */
  lemma SyncCondition(rootOf: seq<nat> -> nat, node: Node, s: Local, blocks: seq<seq<Event>>, cfg: SyncConfig,
                      mined: nat)
    requires 1 <= cfg.startBlock && 1 <= cfg.lastBlock < |blocks| && Consistent(node, Flatten(blocks))
    requires mined <= |Log(node, Flatten(blocks))|
    requires Injective(rootOf) && NoEmptyLeaf(Commitments(Log(node, Flatten(blocks))))
    ensures SyncsInOrder(rootOf, node, s, blocks, cfg, ContractAt(rootOf, Log(node, Flatten(blocks)), mined))
       <==> Recoverable(node, s, blocks, cfg, mined)
  {
    hide Consistent, Log, Flatten, MessagesBelow, Commitments, Injective, Ended, Synced, InSync, NoEmptyLeaf, Agree;
    var contract := ContractAt(rootOf, Log(node, Flatten(blocks)), mined);
    if |s.pool.confirmed.leaves| >= mined {
      NothingToDo(rootOf, node, s, blocks, cfg, mined);
    } else if WindowCloses(node, blocks, cfg, s.saved,
                           Agree(s.pool.confirmed.leaves, Commitments(Log(node, Flatten(blocks)))), mined) {
      ClosedSyncs(rootOf, node, s, blocks, cfg, mined);
    } else {
      forall rounds: nat | Ended(node, s, blocks, cfg, contract.index, rounds)
        ensures !Synced(rootOf, node, s, blocks, cfg, contract, rounds).1
      {
        OpenFails(rootOf, node, s, blocks, cfg, mined, rounds);
      }
    }
  }

  /** As many leaves as the contract, or more: no pass is made. */
  lemma NothingToDo(rootOf: seq<nat> -> nat, node: Node, s: Local, blocks: seq<seq<Event>>, cfg: SyncConfig, mined: nat)
    requires cfg.lastBlock < |blocks| && mined <= |Log(node, Flatten(blocks))| && Injective(rootOf)
    requires |s.pool.confirmed.leaves| >= mined
    ensures SyncsInOrder(rootOf, node, s, blocks, cfg, ContractAt(rootOf, Log(node, Flatten(blocks)), mined))
       <==> s.pool.confirmed.leaves == Commitments(Log(node, Flatten(blocks)))[..mined]
  {
    hide Log, Flatten, CommitmentOf, Pass;
    var log, contract := Log(node, Flatten(blocks)), ContractAt(rootOf, Log(node, Flatten(blocks)), mined);
    assert Commitments(log[..mined]) == Commitments(log)[..mined];
    forall rounds: nat
      ensures Looped(node, s, blocks, cfg, contract.index, rounds) == (s, true)
    {
    }
    hide Looped;
    assert Ended(node, s, blocks, cfg, contract.index, 0);
    if s.pool.confirmed.leaves != Commitments(log[..mined]) {
      RootsDiffer(rootOf, s.pool.confirmed.leaves, Commitments(log[..mined]));
    }
  }

  /** One pass completes the leaves. */
  lemma ClosedSyncs(rootOf: seq<nat> -> nat, node: Node, s: Local, blocks: seq<seq<Event>>, cfg: SyncConfig, mined: nat)
    requires 1 <= cfg.startBlock && 1 <= cfg.lastBlock < |blocks| && Consistent(node, Flatten(blocks))
    requires |s.pool.confirmed.leaves| < mined <= |Log(node, Flatten(blocks))|
    requires NoEmptyLeaf(Commitments(Log(node, Flatten(blocks))))
    requires WindowCloses(node, blocks, cfg, s.saved,
                          Agree(s.pool.confirmed.leaves, Commitments(Log(node, Flatten(blocks)))), mined)
    ensures SyncsInOrder(rootOf, node, s, blocks, cfg, ContractAt(rootOf, Log(node, Flatten(blocks)), mined))
  {
    hide Consistent, Log, Flatten, MessagesBelow, Pass, NoEmptyLeaf, Agree, Written, CommitmentOf;
    LoopOnce(node, s, blocks, cfg, Key(mined));
    hide Looped;
    var log := Log(node, Flatten(blocks));
    PassWrites(node, s, blocks, cfg, mined);
    WrittenCompletes(s.pool.confirmed.leaves, Commitments(log), MessagesBelow(node, blocks, ActualStart(cfg, s.saved)),
      mined);
    assert Commitments(log[..mined]) == Commitments(log)[..mined];
    assert Ended(node, s, blocks, cfg, Key(mined), 1);
  }

  lemma OpenFails(rootOf: seq<nat> -> nat, node: Node, s: Local, blocks: seq<seq<Event>>, cfg: SyncConfig,
                  mined: nat, rounds: nat)
    requires 1 <= cfg.startBlock && 1 <= cfg.lastBlock < |blocks| && Consistent(node, Flatten(blocks))
    requires |s.pool.confirmed.leaves| < mined <= |Log(node, Flatten(blocks))|
    requires Injective(rootOf) && NoEmptyLeaf(Commitments(Log(node, Flatten(blocks))))
    requires !WindowCloses(node, blocks, cfg, s.saved,
                           Agree(s.pool.confirmed.leaves, Commitments(Log(node, Flatten(blocks)))), mined)
    requires Ended(node, s, blocks, cfg, Key(mined), rounds)
    ensures !Synced(rootOf, node, s, blocks, cfg, ContractAt(rootOf, Log(node, Flatten(blocks)), mined), rounds).1
  {
    hide Consistent, Log, Flatten, MessagesBelow, Commitments, Injective, NoEmptyLeaf, Pass, Agree;
    var k := MessagesBelow(node, blocks, ActualStart(cfg, s.saved));
    if MessagesBelow(node, blocks, cfg.lastBlock + 1) < mined || mined <= k {
      NeverEnds(node, s, blocks, cfg, mined, rounds);
    } else {
      GapDiffers(rootOf, node, s, blocks, cfg, mined);
      EndedStays(node, s, blocks, cfg, Key(mined), 1, Max(rounds, 1));
    }
  }

  /** A pool that holds a stretch of the chain's log agrees with it exactly so far. */
  lemma StretchAgrees(p: Tiers, log: seq<HexString>, n: nat, c: nat)
    requires n <= |log| && Mirrors(p, log[..n], c)
    ensures p.confirmed.leaves == Commitments(log)[..c] && |p.confirmed.leaves| == c
    ensures Agree(p.confirmed.leaves, Commitments(log)) == c
    ensures Keyed(p.confirmed) && Keyed(p.optimistic)
  {
    MirrorsKeyed(p, log[..n], c);
    hide CommitmentOf, Holds, Keyed, Agree;
    LeavesAre(p.confirmed, log[..n][..c]);
    AgreePrefix(Commitments(log), c);
  }

  // ---------- The remembered block ----------

  /** Every event knows its block. */
  predicate Numbered(blocks: seq<seq<Event>>) {
    forall b | 0 <= b < |blocks| :: forall e | e in blocks[b] :: e.blockNumber == b
  }

  lemma {:induction false} InItsBlock(blocks: seq<seq<Event>>, j: nat)
    requires Numbered(blocks) && j < |Flatten(blocks)|
    ensures var b := Flatten(blocks)[j].blockNumber;
            b < |blocks| && Before(blocks, b) <= j < Before(blocks, b + 1)
    decreases |blocks|
  {
    var init, last := blocks[..|blocks| - 1], blocks[|blocks| - 1];
    assert blocks[..|blocks|] == blocks;
    if j < |Flatten(init)| {
      InItsBlock(init, j);
      var b := Flatten(init)[j].blockNumber;
      assert init[..b] == blocks[..b] && init[..b + 1] == blocks[..b + 1];
    } else {
      assert last[j - |Flatten(init)|] in last;
      assert init == blocks[..|blocks| - 1];
    }
  }

  /** The entries below an event's block are announced before the event. */
  lemma AnnouncedBefore(node: Node, blocks: seq<seq<Event>>, j: nat)
    requires Numbered(blocks) && j < |Flatten(blocks)|
    ensures MessagesBelow(node, blocks, Flatten(blocks)[j].blockNumber) <= Announced(node, Flatten(blocks), j)
  {
    InItsBlock(blocks, j);
    hide Flatten, Log, Numbered;
    var b := Flatten(blocks)[j].blockNumber;
    FlattenSlice(blocks, 0, b);
    AnnouncedGrows(node, Flatten(blocks), Before(blocks, b), j);
  }

  /** A pass remembers the block it knew or one below which every entry is on the
      contract and in the window. */
  lemma PassRemembers(node: Node, s: Local, blocks: seq<seq<Event>>, cfg: SyncConfig, mined: nat)
    requires cfg.lastBlock < |blocks| && Consistent(node, Flatten(blocks)) && mined <= |Log(node, Flatten(blocks))|
    requires Numbered(blocks)
    ensures var s' := Pass(node, s, blocks, cfg, Key(mined)).0;
            s'.saved == s.saved
            || MessagesBelow(node, blocks, s'.saved) < Min(MessagesBelow(node, blocks, cfg.lastBlock + 1), mined)
  {
    hide AddMessages, Consistent, Log, Flatten, Commitments, Announced, MessagesBelow, Window, Numbered;
    var from := ActualStart(cfg, s.saved);
    var i, b := WindowIs(node, blocks, cfg, from);
    var j := PassLeaves(node, s, Flatten(blocks), mined, i, b);
    if from > cfg.lastBlock {
      assert Flatten(blocks)[i..b] == [];
      AddNothing(node, s, Key(mined));
    } else if Pass(node, s, blocks, cfg, Key(mined)).0.saved != s.saved {
      AnnouncedBefore(node, blocks, j);
    }
  }
}
