/** Another service rebuilds both logs from the indexer's pages
    (`BasePool.syncStateFromIndexer`). */
module Replica {

  import opened Bounds
  import opened Hex
  import opened Records
  import opened State
  import opened Pool
  import opened Indexer

  /** Entries the replica asks for at a time. */
  const PAGE: nat := 200

  datatype Logs = Logs(confirmed: seq<nat>, optimistic: seq<nat>)

  /** One entry of a page, written at `commitIndex`. */
  function WriteEntry(l: Logs, commitIndex: nat, commitment: nat, isMined: bool): Logs {
    Logs(
      if isMined then Put(l.confirmed, commitIndex, commitment) else l.confirmed,
      Put(l.optimistic, commitIndex, commitment))
  }

  /** The entries from `a` up to `b` of the indexer's log, of which the first
      `mined` are confirmed, written from `commitIndex` on. */
  function WritePage(cs: seq<nat>, mined: nat, l: Logs, commitIndex: nat, a: nat, b: nat): Logs
    requires a <= b <= |cs|
    decreases b - a
  {
    if a == b then l
    else WritePage(cs, mined, WriteEntry(l, commitIndex, cs[a], a < mined), commitIndex + 1, a + 1, b)
  }

  lemma {:induction false} WritePageLength(cs: seq<nat>, mined: nat, l: Logs, commitIndex: nat, a: nat, b: nat)
    requires a <= b <= |cs| && commitIndex <= |l.optimistic|
    ensures var n, k := |l.optimistic|, commitIndex + (b - a);
            |WritePage(cs, mined, l, commitIndex, a, b).optimistic| == if n < k then k else n
    decreases b - a
  {
    if a < b {
      WritePageLength(cs, mined, WriteEntry(l, commitIndex, cs[a], a < mined), commitIndex + 1, a + 1, b);
    }
  }

  /** The loop of `syncStateFromIndexer`: the next offset is the local optimistic
      length, while `commitIndex` only counts what was written. */
  function SyncLoop(cs: seq<nat>, mined: nat, l: Logs, commitIndex: nat, o: nat): Logs
    requires commitIndex <= o <= |l.optimistic|
    decreases if |l.optimistic| < |cs| then |cs| - |l.optimistic| else 0, |l.optimistic| - commitIndex
  {
    if o >= |cs| then l
    else
      var e := Min(o + PAGE, |cs|);
      var l' := WritePage(cs, mined, l, commitIndex, o, e);
      WritePageLength(cs, mined, l, commitIndex, o, e);
      SyncLoop(cs, mined, l', commitIndex + (e - o), |l'.optimistic|)
  }

  function Sync(cs: seq<nat>, mined: nat, l: Logs): Logs
    requires |l.confirmed| <= |l.optimistic|
  {
    SyncLoop(cs, mined, l, |l.confirmed|, |l.confirmed|)
  }

  ghost function LogsOf(pool: BasePool): Logs
    reads pool.state, pool.optimisticState
  {
    Logs(pool.state.leaves, pool.optimisticState.leaves)
  }

  /** The service's method against a fixed indexer snapshot `q`. */
  method SyncStateFromIndexer(pool: BasePool, q: Tiers, ghost log: seq<HexString>, ghost mined: nat)
    requires pool.Valid() && Mirrors(q, log, mined)
    requires |pool.state.leaves| <= |pool.optimisticState.leaves|
    modifies pool.state`leaves, pool.optimisticState`leaves
    ensures LogsOf(pool) == Sync(Commitments(log), mined, old(LogsOf(pool)))
  {
    hide Mirrors, PageOf, SyncLoop, WritePage, WireSlice, Commitments;
    var offset := pool.state.GetNextIndex();
    var commitIndex := offset / OUTPLUSONE;
    ghost var cs := Commitments(log);
    ghost var o := commitIndex;
    MirroredRecords(q, log, mined);
    var more := true;
    while more
      invariant 0 <= commitIndex <= o <= |pool.optimisticState.leaves| && offset == Key(o)
      invariant more ==> SyncLoop(cs, mined, LogsOf(pool), commitIndex, o) == Sync(cs, mined, old(LogsOf(pool)))
      invariant !more ==> LogsOf(pool) == Sync(cs, mined, old(LogsOf(pool)))
      decreases more,
        if |pool.optimisticState.leaves| < |cs| then |cs| - |pool.optimisticState.leaves| else 0,
        |pool.optimisticState.leaves| - commitIndex
    {
      var txs := PageOf(q, PAGE, offset);
      PageIsSlice(q, log, mined, PAGE, offset);
      SyncStep(cs, mined, LogsOf(pool), commitIndex, o);
      if txs == [] {
        more := false;
      } else {
        ghost var e := Min(o + PAGE, |log|);
        WritePageLength(cs, mined, LogsOf(pool), commitIndex, o, e);
        WriteTxs(pool, txs, commitIndex, log, mined, o, e);
        commitIndex := commitIndex + |txs|;
        offset := pool.optimisticState.GetNextIndex();
        o := |pool.optimisticState.leaves|;
      }
    }
  }

  lemma MirroredRecords(q: Tiers, log: seq<HexString>, mined: nat)
    requires Mirrors(q, log, mined)
    ensures mined <= |log| && forall r | r in log :: IsRecord(r)
  {
  }

  /** The inner loop over one page. */
  method WriteTxs(pool: BasePool, txs: seq<HexString>, first: nat, ghost log: seq<HexString>, ghost mined: nat,
                  ghost a: nat, ghost b: nat)
    requires pool.Valid() && a <= b <= |log| && txs == WireSlice(log, mined, a, b)
    requires forall r | r in log :: IsRecord(r)
    modifies pool.state`leaves, pool.optimisticState`leaves
    ensures LogsOf(pool) == WritePage(Commitments(log), mined, old(LogsOf(pool)), first, a, b)
  {
    hide ToV2Format, CommitmentOf, WireSlice, Put;
    ghost var cs := Commitments(log);
    var i := 0;
    while i < |txs|
      invariant 0 <= i <= |txs|
      invariant WritePage(cs, mined, LogsOf(pool), first + i, a + i, b)
             == WritePage(cs, mined, old(LogsOf(pool)), first, a, b)
    {
      assert log[a + i] in log;
      WriteTx(pool, txs[i], first + i, log[a + i], a + i < mined);
      i := i + 1;
    }
  }

  /** One entry read off the wire. */
  method WriteTx(pool: BasePool, wire: HexString, commitIndex: nat, ghost record: HexString, ghost isMined: bool)
    requires pool.Valid() && IsRecord(record)
    requires wire == ToV2Format(if isMined then CONFIRMED else OPTIMISTIC, record)
    modifies pool.state`leaves, pool.optimisticState`leaves
    ensures LogsOf(pool) == WriteEntry(old(LogsOf(pool)), commitIndex, CommitmentOf(record), isMined)
  {
    WireRoundTrip(if isMined then CONFIRMED else OPTIMISTIC, record);
    hide ToV2Format, CommitmentOf, FromWire, Value, Put;
    var tx := FromWire(wire);
    var outCommit := Value(tx.commitment);
    pool.optimisticState.AddCommitment(commitIndex, outCommit);
    if tx.isMined {
      pool.state.AddCommitment(commitIndex, outCommit);
    }
  }

  // ---------- When the replica agrees ----------

  /** The replica agrees with the indexer: its confirmed log is the indexer's,
      its optimistic log starts with the whole merged log. */
  predicate Agrees(cs: seq<nat>, mined: nat, l: Logs)
    requires mined <= |cs|
  {
    l.confirmed == cs[..mined] && cs <= l.optimistic
  }

  /** A local state the replica may start from: the confirmed log is a prefix of
      the indexer's confirmed log and of the local optimistic one. */
  predicate Starts(cs: seq<nat>, mined: nat, l: Logs) {
    mined <= |cs| && |l.confirmed| <= mined && l.confirmed == cs[..|l.confirmed|] && l.confirmed <= l.optimistic
  }

  /** Writing a page at its own position. */
  lemma {:induction false} WriteAligned(cs: seq<nat>, mined: nat, l: Logs, a: nat, b: nat)
    requires mined <= |cs| && a <= b <= |cs| && a <= |l.optimistic|
    requires l.optimistic[..a] == cs[..a] && l.confirmed == cs[..Min(a, mined)]
    ensures var l' := WritePage(cs, mined, l, a, a, b);
            && l'.optimistic == cs[..b] + (if b < |l.optimistic| then l.optimistic[b..] else [])
            && l'.confirmed == cs[..Min(b, mined)]
    decreases b - a
  {
    if a < b {
      var l' := WriteEntry(l, a, cs[a], a < mined);
      assert l'.optimistic[..a + 1] == cs[..a + 1];
      if a < mined {
        assert l'.confirmed == cs[..a + 1];
      }
      WriteAligned(cs, mined, l', a + 1, b);
    } else {
      assert l.optimistic == l.optimistic[..a] + l.optimistic[a..];
    }
  }

  /** One round of the loop. */
  lemma SyncStep(cs: seq<nat>, mined: nat, l: Logs, commitIndex: nat, o: nat)
    requires commitIndex <= o <= |l.optimistic|
    ensures o >= |cs| ==> SyncLoop(cs, mined, l, commitIndex, o) == l
    ensures o < |cs| ==>
              var e := Min(o + PAGE, |cs|);
              var l' := WritePage(cs, mined, l, commitIndex, o, e);
              commitIndex + (e - o) <= |l'.optimistic|
              && SyncLoop(cs, mined, l, commitIndex, o)
                 == SyncLoop(cs, mined, l', commitIndex + (e - o), |l'.optimistic|)
  {
    if o < |cs| {
      WritePageLength(cs, mined, l, commitIndex, o, Min(o + PAGE, |cs|));
    }
  }

  /** While the lengths agree, every round appends the next page. */
  lemma {:induction false} SyncAligned(cs: seq<nat>, mined: nat, l: Logs, k: nat)
    requires mined <= |cs| && k <= |cs|
    requires l.optimistic == cs[..k] && l.confirmed == cs[..Min(k, mined)]
    ensures SyncLoop(cs, mined, l, k, k) == Logs(cs[..mined], cs)
    decreases |cs| - k
  {
    if k < |cs| {
      var e := Min(k + PAGE, |cs|);
      WriteAligned(cs, mined, l, k, e);
      SyncAligned(cs, mined, WritePage(cs, mined, l, k, k, e), e);
    }
  }

  /** The sync succeeds when the local optimistic log is at most a page longer
      than the confirmed one, or the indexer has at most a page to send. */
  lemma SyncAgrees(cs: seq<nat>, mined: nat, l: Logs)
    requires Starts(cs, mined, l)
    requires |l.optimistic| <= |l.confirmed| + PAGE || |cs| <= |l.confirmed| + PAGE
    ensures Agrees(cs, mined, Sync(cs, mined, l))
  {
    var a := |l.confirmed|;
    var e := Min(a + PAGE, |cs|);
    hide SyncLoop, WritePage;
    SyncStep(cs, mined, l, a, a);
    if a < |cs| {
      WriteAligned(cs, mined, l, a, e);
      var l' := WritePage(cs, mined, l, a, a, e);
      if |cs| > a + PAGE {
        SyncAligned(cs, mined, l', e);
      } else {
        assert cs[..e] == cs;
        SyncStep(cs, mined, l', e, |l'.optimistic|);
      }
    } else {
      assert cs[..a] == cs;
    }
  }

  /** Positions below `commitIndex` are never written again. */
  lemma {:induction false} WritePageKeeps(cs: seq<nat>, mined: nat, l: Logs, commitIndex: nat, a: nat, b: nat, i: nat)
    requires a <= b <= |cs| && i < commitIndex && i < |l.confirmed|
    ensures var c := WritePage(cs, mined, l, commitIndex, a, b).confirmed;
            i < |c| && c[i] == l.confirmed[i]
    decreases b - a
  {
    if a < b {
      WritePageKeeps(cs, mined, WriteEntry(l, commitIndex, cs[a], a < mined), commitIndex + 1, a + 1, b, i);
    }
  }

  lemma {:induction false} SyncLoopKeeps(cs: seq<nat>, mined: nat, l: Logs, commitIndex: nat, o: nat, i: nat)
    requires commitIndex <= o <= |l.optimistic| && i < commitIndex && i < |l.confirmed|
    ensures var c := SyncLoop(cs, mined, l, commitIndex, o).confirmed;
            i < |c| && c[i] == l.confirmed[i]
    decreases if |l.optimistic| < |cs| then |cs| - |l.optimistic| else 0, |l.optimistic| - commitIndex
  {
    if o < |cs| {
      var e := Min(o + PAGE, |cs|);
      var l' := WritePage(cs, mined, l, commitIndex, o, e);
      WritePageLength(cs, mined, l, commitIndex, o, e);
      WritePageKeeps(cs, mined, l, commitIndex, o, e, i);
      SyncLoopKeeps(cs, mined, l', commitIndex + (e - o), |l'.optimistic|, i);
    }
  }

  /** A log in which entry `k` differs from all the others. */
  function MarkedLog(n: nat, k: nat): (cs: seq<nat>)
    ensures |cs| == n
  {
    seq(n, i => if i == k then 1 else 0)
  }

  /** Otherwise there are logs of these lengths, local and remote in full
      agreement before the call, that the sync leaves different: the second page
      is asked for at the optimistic length but written at the confirmed one. */
  lemma SyncDiverges(a: nat, b: nat, n: nat) returns (cs: seq<nat>, l: Logs)
    requires a + PAGE < b && a + PAGE < n
    ensures |cs| == n && |l.confirmed| == a && |l.optimistic| == b
    ensures Starts(cs, n, l) && !Agrees(cs, n, Sync(cs, n, l))
  {
    hide SyncLoop, WritePage;
    var k := a + PAGE;
    cs := MarkedLog(n, k);
    var stale := seq(Max(b, n) - n, i => 0);
    l := Logs(cs[..a], (cs + stale)[..b]);
    assert l.optimistic[..a] == cs[..a];
    SyncStep(cs, n, l, a, a);
    WriteAligned(cs, n, l, a, k);
    var l' := WritePage(cs, n, l, a, a, k);
    WritePageLength(cs, n, l, a, a, k);
    SyncStep(cs, n, l', k, b);
    if b < n {
      MarkLost(cs, n, l', k, b);
    }
    assert cs[..n][k] == 1;
  }

  lemma WriteFirst(cs: seq<nat>, mined: nat, l: Logs, commitIndex: nat, a: nat, b: nat)
    requires a < b <= |cs|
    ensures WritePage(cs, mined, l, commitIndex, a, b)
         == WritePage(cs, mined, WriteEntry(l, commitIndex, cs[a], a < mined), commitIndex + 1, a + 1, b)
  {
  }

  /** The entry written at `k` is not the one that belongs there. */
  lemma MarkLost(cs: seq<nat>, n: nat, l: Logs, k: nat, b: nat)
    requires |cs| == n && k < b < n && |l.confirmed| == k && |l.optimistic| == b && cs[b] == 0
    ensures var c := SyncLoop(cs, n, l, k, b).confirmed; k < |c| && c[k] == 0
  {
    hide SyncLoop, WritePage;
    var e := Min(b + PAGE, n);
    var l' := WriteEntry(l, k, cs[b], true);
    var l'' := WritePage(cs, n, l, k, b, e);
    WriteFirst(cs, n, l, k, b, e);
    WritePageLength(cs, n, l, k, b, e);
    WritePageKeeps(cs, n, l', k + 1, b + 1, e, k);
    SyncStep(cs, n, l, k, b);
    SyncLoopKeeps(cs, n, l'', k + (e - b), |l''.optimistic|, k);
  }

  /** Every sync with these lengths succeeds. */
  ghost predicate AlwaysAgrees(a: nat, b: nat, n: nat) {
    forall cs: seq<nat>, mined: nat, l: Logs ::
      |cs| == n && |l.confirmed| == a && |l.optimistic| == b && Starts(cs, mined, l) ==>
        Agrees(cs, mined, Sync(cs, mined, l))
  }

  /** The exact condition, in lengths that a caller knows before the call. */
  lemma SyncCondition(a: nat, b: nat, n: nat)
    ensures AlwaysAgrees(a, b, n) <==> b <= a + PAGE || n <= a + PAGE
  {
    if b <= a + PAGE || n <= a + PAGE {
      forall cs: seq<nat>, mined: nat, l: Logs |
        |cs| == n && |l.confirmed| == a && |l.optimistic| == b && Starts(cs, mined, l)
        ensures Agrees(cs, mined, Sync(cs, mined, l))
      {
        SyncAgrees(cs, mined, l);
      }
    } else {
      var cs, l := SyncDiverges(a, b, n);
    }
  }
}
