/** The relayer's `/transactions/v2`: a page of the indexer followed by cached
    transactions the page does not hold (`services/relayer/endpoints.ts`). */
module MergedPage {

  import opened Bounds
  import opened Hex
  import opened Records
  import opened State
  import opened Pool
  import opened Indexer
  import opened LocalCache

  datatype LocalEntry = LocalEntry(commit: nat, tx: CachedTx)

  /** The commitment a client reads from a transaction on the wire. */
  function CommitOnWire(wire: HexString): nat {
    Value(FromWire(wire).commitment)
  }

  function PageCommitments(page: seq<HexString>): set<nat> {
    set i | 0 <= i < |page| :: CommitOnWire(page[i])
  }

  /** `Object.entries` of the cache, in some order. */
  ghost predicate EntriesOf(entries: seq<LocalEntry>, cache: map<nat, CachedTx>) {
    && (forall i | 0 <= i < |entries| :: entries[i].commit in cache && cache[entries[i].commit] == entries[i].tx)
    && (forall c | c in cache :: LocalEntry(c, cache[c]) in entries)
    && DistinctEntries(entries)
  }

  /** The same, sorted by timestamp. */
  ghost predicate Lists(entries: seq<LocalEntry>, cache: map<nat, CachedTx>) {
    EntriesOf(entries, cache) && ByTimestamp(entries)
  }

  predicate DistinctEntries(entries: seq<LocalEntry>) {
    forall i, j | 0 <= i < j < |entries| :: entries[i].commit != entries[j].commit
  }

  predicate ByTimestamp(entries: seq<LocalEntry>) {
    forall i, j | 0 <= i < j < |entries| :: entries[i].tx.timestamp <= entries[j].tx.timestamp
  }

  /** Every cached record starts with the commitment it is stored under. */
  predicate WellKeyed(cache: map<nat, CachedTx>) {
    forall c | c in cache :: IsRecord(cache[c].memo) && CommitmentOf(cache[c].memo) == c
  }

  function Unindexed(entries: seq<LocalEntry>, indexed: set<nat>): (rest: seq<LocalEntry>)
    ensures |rest| <= |entries|
  {
    if |entries| == 0 then []
    else
      var e, before := entries[|entries| - 1], Unindexed(entries[..|entries| - 1], indexed);
      if e.commit in indexed then before else before + [e]
  }

  function SentWires(entries: seq<LocalEntry>): (wires: seq<HexString>)
    ensures |wires| == |entries|
    ensures forall i | 0 <= i < |entries| :: wires[i] == ToV2Format(SENT, entries[i].tx.memo)
  {
    seq(|entries|, i requires 0 <= i < |entries| => ToV2Format(SENT, entries[i].tx.memo))
  }

  /** The cached entries that fill the page up to the limit. */
  function Added(indexerTxs: seq<HexString>, entries: seq<LocalEntry>, limit: nat): (added: seq<LocalEntry>)
    ensures |indexerTxs| <= limit ==> |indexerTxs| + |added| <= limit
  {
    var rest := Unindexed(entries, PageCommitments(indexerTxs));
    rest[..Min(|rest|, if |indexerTxs| < limit then limit - |indexerTxs| else 0)]
  }

  function Merged(indexerTxs: seq<HexString>, entries: seq<LocalEntry>, limit: nat): seq<HexString> {
    indexerTxs + SentWires(Added(indexerTxs, entries, limit))
  }

  lemma {:induction false} UnindexedGrows(entries: seq<LocalEntry>, indexed: set<nat>, k: nat)
    requires k <= |entries|
    ensures Unindexed(entries[..k], indexed) <= Unindexed(entries, indexed)
    decreases |entries|
  {
    if k == |entries| {
      assert entries[..k] == entries;
    } else {
      assert entries[..|entries| - 1][..k] == entries[..k];
      UnindexedGrows(entries[..|entries| - 1], indexed, k);
    }
  }

  method GetTransactionsV2(indexerTxs: seq<HexString>, localEntries: seq<LocalEntry>, limit: nat)
    returns (txs: seq<HexString>)
    ensures txs == Merged(indexerTxs, localEntries, limit)
  {
    var indexerCommitments := PageCommitments(indexerTxs);
    var optimisticTxs: seq<HexString> := [];
    ghost var kept: seq<LocalEntry> := [];
    hide PageCommitments, ToV2Format;
    var i := 0;
    while i < |localEntries|
      invariant 0 <= i <= |localEntries|
      invariant kept == Unindexed(localEntries[..i], indexerCommitments)
      invariant optimisticTxs == SentWires(kept)
      invariant kept == [] || |indexerTxs| + |kept| <= limit
    {
      UnindexedGrows(localEntries, indexerCommitments, i);
      if |indexerTxs| + |optimisticTxs| >= limit {
        break;
      }
      var entry := localEntries[i];
      assert localEntries[..i + 1][..i] == localEntries[..i];
      if entry.commit !in indexerCommitments {
        optimisticTxs := optimisticTxs + [ToV2Format(SENT, entry.tx.memo)];
        kept := kept + [entry];
      }
      i := i + 1;
    }
    UnindexedGrows(localEntries, indexerCommitments, i);
    assert localEntries[..|localEntries|] == localEntries;
    assert kept == Added(indexerTxs, localEntries, limit);
    txs := indexerTxs + optimisticTxs;
  }

  // ---------- What a client gets ----------

  /** Filtering keeps exactly the unindexed entries. */
  lemma {:induction false} UnindexedAre(entries: seq<LocalEntry>, indexed: set<nat>)
    ensures forall e :: e in Unindexed(entries, indexed) <==> e in entries && e.commit !in indexed
  {
    if |entries| > 0 {
      var before := entries[..|entries| - 1];
      UnindexedAre(before, indexed);
      assert entries == before + [entries[|entries| - 1]];
    }
  }

  /** `e` comes after every one of `es`. */
  predicate After(es: seq<LocalEntry>, e: LocalEntry) {
    forall x | x in es :: x.commit != e.commit && x.tx.timestamp <= e.tx.timestamp
  }

  lemma AfterAppends(es: seq<LocalEntry>, e: LocalEntry)
    ensures DistinctEntries(es + [e]) && ByTimestamp(es + [e])
       <==> DistinctEntries(es) && ByTimestamp(es) && After(es, e)
  {
    var all := es + [e];
    if DistinctEntries(all) && ByTimestamp(all) {
      forall i, j | 0 <= i < j < |es|
        ensures es[i].commit != es[j].commit && es[i].tx.timestamp <= es[j].tx.timestamp
      {
        assert all[i] == es[i] && all[j] == es[j];
      }
      forall x | x in es
        ensures x.commit != e.commit && x.tx.timestamp <= e.tx.timestamp
      {
        var i :| 0 <= i < |es| && es[i] == x;
        assert all[i] == x && all[|es|] == e;
      }
    }
  }

  /** Filtering keeps the listing's order. */
  lemma {:induction false} UnindexedParts(entries: seq<LocalEntry>, indexed: set<nat>)
    requires DistinctEntries(entries) && ByTimestamp(entries)
    ensures ByTimestamp(Unindexed(entries, indexed)) && DistinctEntries(Unindexed(entries, indexed))
    ensures forall e :: e in Unindexed(entries, indexed) <==> e in entries && e.commit !in indexed
  {
    UnindexedAre(entries, indexed);
    if |entries| > 0 {
      var before, e := entries[..|entries| - 1], entries[|entries| - 1];
      hide ByTimestamp, DistinctEntries;
      assert entries == before + [e];
      AfterAppends(before, e);
      UnindexedParts(before, indexed);
      AfterAppends(Unindexed(before, indexed), e);
    }
  }

  lemma WireCommit(flag: Digit, record: HexString)
    requires IsRecord(record)
    ensures CommitOnWire(ToV2Format(flag, record)) == CommitmentOf(record)
  {
  }

  /** No two transactions of a page carry one commitment. */
  predicate NoRepeat(page: seq<HexString>) {
    forall i, j | 0 <= i < j < |page| :: CommitOnWire(page[i]) != CommitOnWire(page[j])
  }

  /** The merged page starts with everything the indexer sent; what follows are
      cached records, flagged as sent, oldest first, that the indexer's part does
      not hold; and no commitment appears twice. */
  lemma MergedPageIs(indexerTxs: seq<HexString>, entries: seq<LocalEntry>, cache: map<nat, CachedTx>, limit: nat)
    requires Lists(entries, cache) && WellKeyed(cache) && NoRepeat(indexerTxs)
    ensures var txs, added := Merged(indexerTxs, entries, limit), Added(indexerTxs, entries, limit);
            && indexerTxs <= txs
            && |txs| == |indexerTxs| + |added|
            && (forall i | 0 <= i < |added| ::
                  && added[i].commit in cache && cache[added[i].commit] == added[i].tx
                  && added[i].commit !in PageCommitments(indexerTxs)
                  && txs[|indexerTxs| + i] == ToV2Format(SENT, added[i].tx.memo)
                  && CommitOnWire(txs[|indexerTxs| + i]) == added[i].commit)
            && ByTimestamp(added)
            && NoRepeat(txs)
  {
    var indexed := PageCommitments(indexerTxs);
    UnindexedParts(entries, indexed);
    hide Unindexed, ToV2Format, CommitOnWire;
    var txs, added := Merged(indexerTxs, entries, limit), Added(indexerTxs, entries, limit);
    var rest := Unindexed(entries, indexed);
    forall i | 0 <= i < |added|
      ensures added[i] in entries && added[i].commit !in indexed
      ensures CommitOnWire(txs[|indexerTxs| + i]) == added[i].commit
    {
      assert added[i] == rest[i] && rest[i] in rest;
      WireCommit(SENT, added[i].tx.memo);
    }
    forall i, j | 0 <= i < j < |txs|
      ensures CommitOnWire(txs[i]) != CommitOnWire(txs[j])
    {
      if i < |indexerTxs| <= j {
        assert CommitOnWire(txs[i]) in indexed;
        assert added[j - |indexerTxs|].commit !in indexed;
      } else if i >= |indexerTxs| {
        assert added[i - |indexerTxs|] == rest[i - |indexerTxs|] && added[j - |indexerTxs|] == rest[j - |indexerTxs|];
      }
    }
  }

  /** When not all fit, the oldest are taken: whatever is left out was cached no earlier
      than what is shown. */
  lemma OldestFirst(indexerTxs: seq<HexString>, entries: seq<LocalEntry>, cache: map<nat, CachedTx>, limit: nat,
                    e: LocalEntry)
    requires Lists(entries, cache) && e in entries && e.commit !in PageCommitments(indexerTxs)
    requires e !in Added(indexerTxs, entries, limit)
    ensures forall a | a in Added(indexerTxs, entries, limit) :: a.tx.timestamp <= e.tx.timestamp
  {
    hide PageCommitments, EntriesOf;
    var rest := Unindexed(entries, PageCommitments(indexerTxs));
    assert DistinctEntries(entries) by {
      EntriesDistinct(entries, cache);
    }
    UnindexedParts(entries, PageCommitments(indexerTxs));
    hide Unindexed;
    var j :| 0 <= j < |rest| && rest[j] == e;
    var added := Added(indexerTxs, entries, limit);
    assert forall i | 0 <= i < |added| :: added[i] == rest[i] && added[i] in added;
    forall a | a in added
      ensures a.tx.timestamp <= e.tx.timestamp
    {
      var i :| 0 <= i < |added| && added[i] == a;
      assert rest[i] == a;
    }
  }

  lemma EntriesDistinct(entries: seq<LocalEntry>, cache: map<nat, CachedTx>)
    requires EntriesOf(entries, cache)
    ensures DistinctEntries(entries)
  {
  }

  /** A merged page below the limit holds every cached transaction. */
  lemma ShortPageHoldsAll(indexerTxs: seq<HexString>, entries: seq<LocalEntry>, cache: map<nat, CachedTx>, limit: nat,
                          c: nat)
    requires Lists(entries, cache) && WellKeyed(cache)
    requires |Merged(indexerTxs, entries, limit)| < limit && c in cache
    ensures c in PageCommitments(Merged(indexerTxs, entries, limit))
  {
    var indexed := PageCommitments(indexerTxs);
    UnindexedParts(entries, indexed);
    hide Unindexed, ToV2Format, CommitOnWire;
    var txs, added := Merged(indexerTxs, entries, limit), Added(indexerTxs, entries, limit);
    assert added == Unindexed(entries, indexed);
    if c in indexed {
      var i :| 0 <= i < |indexerTxs| && CommitOnWire(indexerTxs[i]) == c;
      assert txs[i] == indexerTxs[i];
    } else {
      assert LocalEntry(c, cache[c]) in entries;
      var i :| 0 <= i < |added| && added[i] == LocalEntry(c, cache[c]);
      WireCommit(SENT, cache[c].memo);
      assert txs[|indexerTxs| + i] == ToV2Format(SENT, cache[c].memo);
    }
  }

  /** The page is filled up: its length is the limit, or all there is. */
  lemma MergedPageLength(indexerTxs: seq<HexString>, entries: seq<LocalEntry>, cache: map<nat, CachedTx>, limit: nat)
    requires Lists(entries, cache) && |indexerTxs| <= limit
    ensures |Merged(indexerTxs, entries, limit)|
         == Min(limit, |indexerTxs| + |cache.Keys - PageCommitments(indexerTxs)|)
  {
    hide Unindexed, ToV2Format, CommitOnWire, PageCommitments, Lists;
    CountUnindexed(entries, cache, PageCommitments(indexerTxs));
  }

  lemma CountUnindexed(entries: seq<LocalEntry>, cache: map<nat, CachedTx>, indexed: set<nat>)
    requires Lists(entries, cache)
    ensures |Unindexed(entries, indexed)| == |cache.Keys - indexed|
  {
    hide Unindexed, ByTimestamp, DistinctEntries;
    UnindexedParts(entries, indexed);
    var rest := Unindexed(entries, indexed);
    CountCommits(rest);
    forall c
      ensures c in cache.Keys - indexed <==> c in (set e | e in rest :: e.commit)
    {
      if c in cache.Keys - indexed {
        assert LocalEntry(c, cache[c]) in rest;
      }
    }
    assert cache.Keys - indexed == set e | e in rest :: e.commit;
  }

  lemma {:induction false} CountCommits(entries: seq<LocalEntry>)
    requires DistinctEntries(entries)
    ensures |set e | e in entries :: e.commit| == |entries|
  {
    if |entries| > 0 {
      var before, last := entries[..|entries| - 1], entries[|entries| - 1];
      CountCommits(before);
      assert entries == before + [last];
      var commits := set e | e in before :: e.commit;
      assert last.commit !in commits;
      assert (set e | e in entries :: e.commit) == commits + {last.commit};
    }
  }

  // ---------- Pages of the indexer ----------

  /** No two records of a log carry one commitment. */
  predicate DistinctCommits(log: seq<HexString>) {
    forall i, j | 0 <= i < j < |log| :: CommitmentOf(log[i]) != CommitmentOf(log[j])
  }

  /** The page carries the commitments of the log from position `a` on. */
  predicate CarriesFrom(page: seq<HexString>, log: seq<HexString>, a: nat) {
    a + |page| <= |log| && forall i | 0 <= i < |page| :: CommitOnWire(page[i]) == CommitmentOf(log[a + i])
  }

  lemma CarriedAt(page: seq<HexString>, log: seq<HexString>, a: nat, i: nat)
    requires CarriesFrom(page, log, a) && a <= i < a + |page|
    ensures CommitmentOf(log[i]) in PageCommitments(page)
  {
    hide CommitOnWire, CommitmentOf;
    assert CommitOnWire(page[i - a]) == CommitmentOf(log[a + (i - a)]);
  }

  lemma CarriedFrom(page: seq<HexString>, log: seq<HexString>, a: nat, commit: nat) returns (i: nat)
    requires CarriesFrom(page, log, a) && commit in PageCommitments(page)
    ensures a <= i < a + |page| && CommitmentOf(log[i]) == commit
  {
    hide CommitOnWire, CommitmentOf;
    var j :| 0 <= j < |page| && CommitOnWire(page[j]) == commit;
    i := a + j;
  }

  lemma MirroredRecord(q: Tiers, log: seq<HexString>, c: nat, i: nat)
    requires Mirrors(q, log, c) && i < |log|
    ensures IsRecord(log[i])
  {
  }

  /** The commitments of an indexer page are those of the stretch of the log. */
  lemma PageCommitAt(q: Tiers, log: seq<HexString>, c: nat, limit: nat, offset: nat)
    requires Mirrors(q, log, c)
    ensures var page, a := PageOf(q, limit, offset), Min(offset / OUTPLUSONE, |log|);
            && a + |page| == Min(offset / OUTPLUSONE + limit, |log|)
            && CarriesFrom(page, log, a)
  {
    hide PageOf, CommitOnWire, CommitmentOf, ToV2Format, WireSlice, Mirrors;
    PageIsSlice(q, log, c, limit, offset);
    var page, a := PageOf(q, limit, offset), Min(offset / OUTPLUSONE, |log|);
    forall i | 0 <= i < |page|
      ensures CommitOnWire(page[i]) == CommitmentOf(log[a + i])
    {
      assert page[i] == Wire(log, c, a + i);
      MirroredRecord(q, log, c, a + i);
      WireCommit(if a + i < c then CONFIRMED else OPTIMISTIC, log[a + i]);
    }
  }

  lemma IndexerPageDistinct(q: Tiers, log: seq<HexString>, c: nat, limit: nat, offset: nat)
    requires Mirrors(q, log, c) && DistinctCommits(log)
    ensures NoRepeat(PageOf(q, limit, offset))
  {
    PageCommitAt(q, log, c, limit, offset);
    hide PageOf, CommitOnWire, CommitmentOf, Mirrors;
  }
}
