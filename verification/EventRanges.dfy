/** The block ranges that `EvmBackend.getEvents` asks the node for. */
module EventRanges {

  import opened Bounds

  datatype Range = Range(fromBlock: int, toBlock: int)

  /** The ranges are non-empty, follow each other without gap or overlap from
      `start` to `last`, and hold at most `batchSize + 1` blocks. */
  predicate Tiles(ranges: seq<Range>, start: int, last: int, batchSize: nat) {
    && (start > last ==> ranges == [])
    && (start <= last ==> |ranges| > 0 && ranges[0].fromBlock == start && ranges[|ranges| - 1].toBlock == last)
    && (forall i | 0 <= i < |ranges| ::
          ranges[i].fromBlock <= ranges[i].toBlock <= ranges[i].fromBlock + batchSize)
    && (forall i | 1 <= i < |ranges| :: ranges[i].fromBlock == ranges[i - 1].toBlock + 1)
  }

  /** Where the generator ends a range that starts at `fromBlock`: the first
      range holds one block more than the others. */
  function RangeEnd(first: bool, fromBlock: int, last: int, batchSize: nat): int {
    Min(fromBlock + batchSize - (if first then 0 else 1), last)
  }

  predicate Follows(ranges: seq<Range>, start: int, last: int, batchSize: nat, i: nat)
    requires i < |ranges|
  {
    && ranges[i].fromBlock == (if i == 0 then start else ranges[i - 1].toBlock + 1)
    && ranges[i].toBlock == RangeEnd(i == 0, ranges[i].fromBlock, last, batchSize)
    && ranges[i].fromBlock <= ranges[i].toBlock
  }

  predicate Generated(ranges: seq<Range>, start: int, last: int, batchSize: nat) {
    forall i | 0 <= i < |ranges| :: Follows(ranges, start, last, batchSize, i)
  }

  /** The generator ends unless the batch size is zero and more than the first
      block is wanted. */
  method GetEvents(start: int, last: int, batchSize: nat) returns (ranges: seq<Range>)
    requires batchSize >= 1 || last <= start
    ensures Tiles(ranges, start, last, batchSize)
    ensures Generated(ranges, start, last, batchSize)
  {
    ranges := [];
    var fromBlock, toBlock := start, start;
    while fromBlock <= last
      invariant ranges == [] ==> fromBlock == toBlock == start
      invariant ranges != [] ==>
                  start <= last && fromBlock == toBlock + 1 && toBlock == ranges[|ranges| - 1].toBlock <= last
      invariant Generated(ranges, start, last, batchSize)
      invariant batchSize == 0 && ranges != [] ==> fromBlock > last
      decreases last + 1 - fromBlock
    {
      toBlock := Min(toBlock + batchSize, last);
      ghost var before := ranges;
      ranges := ranges + [Range(fromBlock, toBlock)];
      forall i | 0 <= i < |ranges|
        ensures Follows(ranges, start, last, batchSize, i)
      {
        assert i < |before| ==> Follows(before, start, last, batchSize, i);
      }
      fromBlock := toBlock + 1;
    }
    GeneratedTiles(ranges, start, last, batchSize);
  }

  lemma GeneratedTiles(ranges: seq<Range>, start: int, last: int, batchSize: nat)
    requires Generated(ranges, start, last, batchSize)
    requires if start > last then ranges == [] else ranges != [] && ranges[|ranges| - 1].toBlock == last
    ensures Tiles(ranges, start, last, batchSize)
  {
    forall i | 0 <= i < |ranges|
      ensures ranges[i].fromBlock <= ranges[i].toBlock <= ranges[i].fromBlock + batchSize
      ensures i >= 1 ==> ranges[i].fromBlock == ranges[i - 1].toBlock + 1
    {
      assert Follows(ranges, start, last, batchSize, i);
    }
    assert ranges != [] ==> Follows(ranges, start, last, batchSize, 0);
  }

  predicate Covers(r: Range, b: int) {
    r.fromBlock <= b <= r.toBlock
  }

  /** A later range starts above every earlier one. */
  lemma {:induction false} TilesAscend(ranges: seq<Range>, start: int, last: int, batchSize: nat, i: nat, j: nat)
    requires Tiles(ranges, start, last, batchSize) && i < j < |ranges|
    ensures ranges[i].toBlock < ranges[j].fromBlock
  {
    assert ranges[j].fromBlock == ranges[j - 1].toBlock + 1;
    if i < j - 1 {
      TilesAscend(ranges, start, last, batchSize, i, j - 1);
    }
  }

  /** No block lies in two ranges. */
  lemma TilesDisjoint(ranges: seq<Range>, start: int, last: int, batchSize: nat, b: int, i: nat, j: nat)
    requires Tiles(ranges, start, last, batchSize)
    requires i < |ranges| && j < |ranges| && Covers(ranges[i], b) && Covers(ranges[j], b)
    ensures i == j
  {
    if i < j {
      TilesAscend(ranges, start, last, batchSize, i, j);
    } else if j < i {
      TilesAscend(ranges, start, last, batchSize, j, i);
    }
  }

  /** Exactly the blocks from `start` to `last` are covered. */
  lemma TilesCover(ranges: seq<Range>, start: int, last: int, batchSize: nat, b: int)
    requires Tiles(ranges, start, last, batchSize)
    ensures start <= b <= last <==> exists i :: 0 <= i < |ranges| && Covers(ranges[i], b)
  {
    if start <= b <= last {
      var i := CoveringRange(ranges, start, last, batchSize, b, |ranges|);
    } else if i :| 0 <= i < |ranges| && Covers(ranges[i], b) {
      if i > 0 {
        TilesAscend(ranges, start, last, batchSize, 0, i);
      }
      if i < |ranges| - 1 {
        TilesAscend(ranges, start, last, batchSize, i, |ranges| - 1);
      }
      assert false;
    }
  }

  lemma {:induction false} CoveringRange(ranges: seq<Range>, start: int, last: int, batchSize: nat, b: int, n: nat)
    returns (i: nat)
    requires Tiles(ranges, start, last, batchSize) && 0 < n <= |ranges|
    requires start <= b <= ranges[n - 1].toBlock
    ensures i < |ranges| && Covers(ranges[i], b)
  {
    if b >= ranges[n - 1].fromBlock {
      i := n - 1;
    } else {
      assert n > 1;
      assert ranges[n - 1].fromBlock == ranges[n - 2].toBlock + 1;
      i := CoveringRange(ranges, start, last, batchSize, b, n - 1);
    }
  }

  /** The loop variables of the generator after `n` rounds that found
      `fromBlock <= last`. */
  function Cursor(start: int, last: int, batchSize: nat, n: nat): (int, int) {
    if n == 0 then (start, start)
    else
      var toBlock := Min(Cursor(start, last, batchSize, n - 1).1 + batchSize, last);
      (toBlock + 1, toBlock)
  }

  /** The excluded case really is endless: every round asks again for the empty
      range after the first block. */
  lemma {:induction false} ZeroBatchNeverEnds(start: int, last: int, n: nat)
    requires start < last
    ensures Cursor(start, last, 0, n).0 <= last
    ensures n >= 1 ==> Cursor(start, last, 0, n) == (start + 1, start)
  {
    if n > 0 {
      ZeroBatchNeverEnds(start, last, n - 1);
    }
  }
}
