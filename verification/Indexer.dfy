/** The indexer's `/transactions/v2`: a page of the merged log. */
module Indexer {

  import opened Bounds
  import opened Hex
  import opened Records
  import opened State
  import opened Pool

  function MapWire(flag: Digit, txs: seq<HexString>): (wires: seq<HexString>)
    ensures |wires| == |txs|
    ensures forall i | 0 <= i < |txs| :: wires[i] == ToV2Format(flag, txs[i])
  {
    seq(|txs|, i requires 0 <= i < |txs| => ToV2Format(flag, txs[i]))
  }

  /** Confirmed records first, then optimistic ones from where those ended. */
  function PageOf(q: Tiers, limit: nat, offset: nat): seq<HexString> {
    var first := q.confirmed.GetTransactions(limit, offset);
    if |first.txs| < limit then
      MapWire(CONFIRMED, first.txs)
      + MapWire(OPTIMISTIC, q.optimistic.GetTransactions(limit - |first.txs|, first.nextOffset).txs)
    else MapWire(CONFIRMED, first.txs)
  }

  method GetTransactionsV2(pool: BasePool, limit: nat, offset: nat) returns (txs: seq<HexString>)
    ensures txs == PageOf(pool.View(), limit, offset)
  {
    hide MapWire, RecordsFrom, Tier.GetTransactions, ToV2Format;
    var first := pool.state.GetTransactions(limit, offset);
    txs := MapWire(CONFIRMED, first.txs);
    if |txs| < limit {
      var second := pool.optimisticState.GetTransactions(limit - |txs|, first.nextOffset);
      txs := txs + MapWire(OPTIMISTIC, second.txs);
    }
  }

  /** Entry `i` of the merged log on the wire: flag `1` exactly when confirmed. */
  function Wire(log: seq<HexString>, c: nat, i: nat): HexString
    requires i < |log|
  {
    ToV2Format(if i < c then CONFIRMED else OPTIMISTIC, log[i])
  }

  /** The entries from `a` up to `b` of the merged log. */
  function WireSlice(log: seq<HexString>, c: nat, a: nat, b: nat): (wires: seq<HexString>)
    requires a <= b <= |log|
    ensures |wires| == b - a
    ensures forall k | 0 <= k < b - a :: wires[k] == Wire(log, c, a + k)
  {
    seq(b - a, k requires 0 <= k < b - a => Wire(log, c, a + k))
  }

  lemma RecordsAreSliceAnywhere(t: Tier, log: seq<HexString>, limit: nat, i: nat)
    requires Holds(t, log)
    ensures RecordsFrom(t.txs, limit, Key(i)) == log[Min(i, |log|)..Min(i + limit, |log|)]
  {
    hide Holds;
    if i <= |log| {
      RecordsAreSlice(t, log, limit, i);
    } else {
      RecordAt(t, log, i);
    }
  }

  lemma WireSliceSplit(log: seq<HexString>, c: nat, a: nat, m: nat, b: nat)
    requires a <= m <= b <= |log|
    ensures WireSlice(log, c, a, m) + WireSlice(log, c, m, b) == WireSlice(log, c, a, b)
  {
  }

  /** A stretch on one side of the border carries one flag. */
  lemma MapWireIsSlice(log: seq<HexString>, c: nat, a: nat, b: nat)
    requires a <= b <= |log|
    ensures b <= c ==> MapWire(CONFIRMED, log[a..b]) == WireSlice(log, c, a, b)
    ensures c <= a ==> MapWire(OPTIMISTIC, log[a..b]) == WireSlice(log, c, a, b)
  {
  }

  /** Past the border the confirmed part is empty. */
  lemma OptimisticPage(q: Tiers, log: seq<HexString>, c: nat, limit: nat, offset: nat)
    requires Mirrors(q, log, c) && offset / OUTPLUSONE > c
    ensures var o := offset / OUTPLUSONE;
            PageOf(q, limit, offset) == WireSlice(log, c, Min(o, |log|), Min(o + limit, |log|))
  {
    hide Holds, ToV2Format, RecordsFrom, MapWire, WireSlice;
    var o := offset / OUTPLUSONE;
    RecordsAreSliceAnywhere(q.confirmed, log[..c], limit, o);
    RecordsAreSliceAnywhere(q.optimistic, log, limit, o);
    MapWireIsSlice(log, c, Min(o, |log|), Min(o + limit, |log|));
    assert MapWire(CONFIRMED, []) == [];
  }

  /** A page is the slice of the merged log that the offset and the limit name. */
  lemma PageIsSlice(q: Tiers, log: seq<HexString>, c: nat, limit: nat, offset: nat)
    requires Mirrors(q, log, c)
    ensures var o := offset / OUTPLUSONE;
            PageOf(q, limit, offset) == WireSlice(log, c, Min(o, |log|), Min(o + limit, |log|))
  {
    hide Holds, ToV2Format, RecordsFrom, MapWire, WireSlice;
    var o := offset / OUTPLUSONE;
    if o > c {
      OptimisticPage(q, log, c, limit, offset);
    } else {
      var n := Min(o + limit, c) - o;
      RecordsAreSliceAnywhere(q.confirmed, log[..c], limit, o);
      assert q.confirmed.GetTransactions(limit, offset).txs == log[o..o + n];
      MapWireIsSlice(log, c, o, o + n);
      if n < limit {
        var b := Min(o + limit, |log|);
        RecordsAreSliceAnywhere(q.optimistic, log, limit - n, o + n);
        MapWireIsSlice(log, c, o + n, b);
        WireSliceSplit(log, c, o, o + n, b);
      }
    }
  }

  /** The digits of every entry: `1` for a confirmed one and `2` for an optimistic one,
      then hash, commitment and memo of the record at its position. */
  lemma PageDigits(q: Tiers, log: seq<HexString>, c: nat, limit: nat, offset: nat, k: nat)
    requires Mirrors(q, log, c) && k < |PageOf(q, limit, offset)|
    ensures var i, entry := offset / 128 + k, PageOf(q, limit, offset)[k];
            && i < |log| && |log[i]| >= 128 && |entry| == |log[i]| + 1
            && entry[0] == (if i < c then 1 else 2)
            && entry[1..65] == log[i][64..128] && entry[65..129] == log[i][..64] && entry[129..] == log[i][128..]
  {
    hide PageOf, ToV2Format, Mirrors;
    PageIsSlice(q, log, c, limit, offset);
    var i := offset / 128 + k;
    IsRecordAt(q, log, c, i);
    WireLayout(if i < c then CONFIRMED else OPTIMISTIC, log[i]);
  }

  lemma IsRecordAt(q: Tiers, log: seq<HexString>, c: nat, i: nat)
    requires Mirrors(q, log, c) && i < |log|
    ensures |log[i]| >= 128
  {
  }

  /** Pages that follow each other make up one page: no gap and no repeat, also
      across the border between confirmed and optimistic entries. */
  lemma PagesConcatenate(q: Tiers, log: seq<HexString>, c: nat, o: nat, k: nat, l: nat)
    requires Mirrors(q, log, c)
    ensures PageOf(q, k, Key(o)) + PageOf(q, l, Key(o + k)) == PageOf(q, k + l, Key(o))
  {
    hide PageOf, WireSlice, Mirrors;
    PageIsSlice(q, log, c, k, Key(o));
    PageIsSlice(q, log, c, l, Key(o + k));
    PageIsSlice(q, log, c, k + l, Key(o));
    WireSliceSplit(log, c, Min(o, |log|), Min(o + k, |log|), Min(o + k + l, |log|));
  }

  /** A client that pages until it gets an empty page. */
  function ReadAll(q: Tiers, limit: nat, o: nat, fuel: nat): seq<HexString>
    decreases fuel
  {
    var page := PageOf(q, limit, Key(o));
    if page == [] || fuel == 0 then [] else page + ReadAll(q, limit, o + limit, fuel - 1)
  }

  /** Paging from an offset reads the rest of the merged log, whatever the limit,
      and stops by itself after at most one request per entry. */
  lemma {:induction false} PagingReadsAll(q: Tiers, log: seq<HexString>, c: nat, limit: nat, o: nat, fuel: nat)
    requires Mirrors(q, log, c) && limit >= 1 && fuel + o >= |log|
    ensures ReadAll(q, limit, o, fuel) == WireSlice(log, c, Min(o, |log|), |log|)
    decreases fuel
  {
    hide PageOf, WireSlice, Mirrors;
    PageIsSlice(q, log, c, limit, Key(o));
    if o < |log| {
      PagingReadsAll(q, log, c, limit, o + limit, fuel - 1);
      WireSliceSplit(log, c, o, Min(o + limit, |log|), |log|);
    }
  }
}
