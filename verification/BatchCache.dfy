/** The cache that collects direct deposits into batches
    (`services/direct-deposit/BatchCache.ts`). */
module BatchCache {

  import opened Hex

  /** A cached deposit; the sorted set orders by nonce. */
  datatype Entry = Entry(nonce: nat, payload: HexString)

  predicate Sorted(es: seq<Entry>) {
    forall i, j | 0 <= i < j < |es| :: es[i].nonce <= es[j].nonce
  }

  /** `zadd`: a member that is present stays where it is. */
  function Insert(cache: seq<Entry>, e: Entry): seq<Entry> {
    if e in cache then cache else InsertSorted(cache, e)
  }

  function InsertSorted(cache: seq<Entry>, e: Entry): (r: seq<Entry>)
    ensures multiset(r) == multiset(cache) + multiset{e}
    ensures |r| == |cache| + 1
  {
    if |cache| == 0 || e.nonce < cache[0].nonce then
      assert multiset([e] + cache) == multiset{e} + multiset(cache);
      [e] + cache
    else
      assert cache == [cache[0]] + cache[1..];
      [cache[0]] + InsertSorted(cache[1..], e)
  }

  function InsertAll(cache: seq<Entry>, values: seq<Entry>): seq<Entry>
    decreases |values|
  {
    if |values| == 0 then cache else InsertAll(Insert(cache, values[0]), values[1..])
  }

  lemma {:induction false} InsertSortedSorts(cache: seq<Entry>, e: Entry)
    requires Sorted(cache)
    ensures Sorted(InsertSorted(cache, e))
  {
    if |cache| > 0 && cache[0].nonce <= e.nonce {
      var rest := InsertSorted(cache[1..], e);
      InsertSortedSorts(cache[1..], e);
      forall j | 0 <= j < |rest|
        ensures cache[0].nonce <= rest[j].nonce
      {
        assert rest[j] in multiset(rest);
        assert rest[j] in cache[1..] || rest[j] == e;
      }
    }
  }

  lemma {:induction false} InsertAllSorts(cache: seq<Entry>, values: seq<Entry>)
    requires Sorted(cache)
    ensures Sorted(InsertAll(cache, values))
    decreases |values|
  {
    if |values| > 0 {
      InsertSortedSorts(cache, values[0]);
      InsertAllSorts(Insert(cache, values[0]), values[1..]);
    }
  }

  /** Adding keeps every entry that was there, as often as it was, and adds each new one
      once. */
  lemma {:induction false} InsertAllHolds(cache: seq<Entry>, values: seq<Entry>, e: Entry)
    ensures multiset(InsertAll(cache, values))[e]
         == if e in cache then multiset(cache)[e] else if e in values then 1 else 0
    decreases |values|
  {
    if |values| > 0 {
      var next := Insert(cache, values[0]);
      assert values == [values[0]] + values[1..];
      assert multiset(next) == if values[0] in cache then multiset(cache) else multiset(cache) + multiset{values[0]};
      assert e in next <==> e in multiset(next);
      InsertAllHolds(next, values[1..], e);
    }
  }

  // ---------- The batch a cache should give ----------

  function Filter(es: seq<Entry>, valid: Entry -> bool): (r: seq<Entry>)
    ensures |r| <= |es|
  {
    if |es| == 0 then [] else (if valid(es[0]) then [es[0]] else []) + Filter(es[1..], valid)
  }

  /** Length of the shortest prefix with `n` valid entries, or of all entries. */
  function PrefixLength(es: seq<Entry>, valid: Entry -> bool, n: nat): (k: nat)
    ensures k <= |es|
  {
    if n == 0 || |es| == 0 then 0
    else 1 + PrefixLength(es[1..], valid, if valid(es[0]) then n - 1 else n)
  }

  lemma {:induction false} FilterConcat(a: seq<Entry>, b: seq<Entry>, valid: Entry -> bool)
    ensures Filter(a + b, valid) == Filter(a, valid) + Filter(b, valid)
  {
    if |a| == 0 {
      assert a + b == b;
    } else {
      assert (a + b)[1..] == a[1..] + b && (a + b)[0] == a[0];
      FilterConcat(a[1..], b, valid);
      var first := if valid(a[0]) then [a[0]] else [];
      assert Filter(a + b, valid) == first + Filter(a[1..] + b, valid);
      assert Filter(a, valid) == first + Filter(a[1..], valid);
      hide Filter;
      assert first + (Filter(a[1..], valid) + Filter(b, valid)) == first + Filter(a[1..], valid) + Filter(b, valid);
    }
  }

  /** `batch` holds the valid ones of `es`, each as often as it occurs, and no other; in
      the order of the nonces if `es` is. */
  predicate ValidPart(es: seq<Entry>, valid: Entry -> bool, batch: seq<Entry>) {
    && (forall e | e in es :: multiset(batch)[e] == if valid(e) then multiset(es)[e] else 0)
    && (forall e | e in batch :: e in es)
    && (Sorted(es) ==> Sorted(batch))
  }

  /** Filtering keeps each valid entry as often as it occurs and drops the others. */
  lemma {:induction false} FilterCounts(es: seq<Entry>, valid: Entry -> bool, e: Entry)
    ensures multiset(Filter(es, valid))[e] == if valid(e) then multiset(es)[e] else 0
  {
    if |es| > 0 {
      FilterCounts(es[1..], valid, e);
      assert es == [es[0]] + es[1..];
    }
  }

  /** The order by nonce is kept. */
  lemma {:induction false} FilterSorted(es: seq<Entry>, valid: Entry -> bool)
    requires Sorted(es)
    ensures Sorted(Filter(es, valid))
  {
    if |es| > 0 {
      var rest := Filter(es[1..], valid);
      FilterSorted(es[1..], valid);
      forall j | 0 <= j < |rest|
        ensures es[0].nonce <= rest[j].nonce
      {
        FilterCounts(es[1..], valid, rest[j]);
        assert rest[j] in multiset(rest);
        assert rest[j] in es[1..];
      }
    }
  }

  lemma FilterIs(es: seq<Entry>, valid: Entry -> bool)
    ensures ValidPart(es, valid, Filter(es, valid))
  {
    hide Sorted, Filter;
    var batch := Filter(es, valid);
    forall e
      ensures multiset(batch)[e] == if valid(e) then multiset(es)[e] else 0
    {
      FilterCounts(es, valid, e);
    }
    forall e | e in batch
      ensures e in es
    {
      assert e in multiset(batch);
    }
    if Sorted(es) {
      FilterSorted(es, valid);
    }
  }

  /** A valid entry stands behind exactly the valid ones before it. */
  lemma FilterAt(es: seq<Entry>, valid: Entry -> bool, i: nat)
    requires i < |es| && valid(es[i])
    ensures |Filter(es[..i], valid)| < |Filter(es, valid)| && Filter(es, valid)[|Filter(es[..i], valid)|] == es[i]
  {
    assert es == es[..i] + es[i..];
    FilterConcat(es[..i], es[i..], valid);
  }

  /** The prefix does hold `n` valid entries unless the cache ran out, and no
      shorter one does: this is what `PrefixLength` means. */
  lemma {:induction false} PrefixIsShortest(es: seq<Entry>, valid: Entry -> bool, n: nat)
    ensures var k := PrefixLength(es, valid, n);
            && |Filter(es[..k], valid)| <= n
            && (|Filter(es[..k], valid)| == n || k == |es|)
            && forall j | 0 <= j < k :: |Filter(es[..j], valid)| < n
  {
    if n > 0 && |es| > 0 {
      var m := if valid(es[0]) then n - 1 else n;
      PrefixIsShortest(es[1..], valid, m);
      var k := PrefixLength(es, valid, n);
      assert es[..k][1..] == es[1..][..k - 1];
      forall j | 0 <= j < k
        ensures |Filter(es[..j], valid)| < n
      {
        if j > 0 {
          assert es[..j][1..] == es[1..][..j - 1];
        }
      }
    }
  }

  /** A prefix with fewer than `n` valid entries can be extended by as many
      entries as are missing without going past the shortest prefix. */
  lemma NeverTooFar(es: seq<Entry>, valid: Entry -> bool, n: nat, j: nat, more: nat)
    requires j <= PrefixLength(es, valid, n) && j + more <= |es|
    requires more <= n - |Filter(es[..j], valid)|
    ensures j + more <= PrefixLength(es, valid, n)
  {
    PrefixIsShortest(es, valid, n);
    var k := PrefixLength(es, valid, n);
    if k < j + more {
      assert es[..k] == es[..j] + es[j..k];
      FilterConcat(es[..j], es[j..k], valid);
    }
  }

  /** A prefix with exactly `n` valid entries is no shorter than the shortest. */
  lemma EnoughMeansShortest(es: seq<Entry>, valid: Entry -> bool, n: nat, j: nat)
    requires j <= PrefixLength(es, valid, n)
    requires |Filter(es[..j], valid)| >= n || j == |es|
    ensures j == PrefixLength(es, valid, n)
  {
    PrefixIsShortest(es, valid, n);
  }

  /** The cache after some rounds of the loop of `processCache`. */
  function AfterRounds(cache: seq<Entry>, valid: Entry -> bool, batchSize: nat, rounds: nat): seq<Entry>
    decreases rounds
  {
    if rounds == 0 || |cache| < batchSize then cache
    else AfterRounds(cache[PrefixLength(cache, valid, batchSize)..], valid, batchSize, rounds - 1)
  }

  lemma {:induction false} RoundsShrink(cache: seq<Entry>, valid: Entry -> bool, batchSize: nat, rounds: nat)
    requires batchSize >= 1 && rounds >= |cache|
    ensures |AfterRounds(cache, valid, batchSize, rounds)| < batchSize
    decreases rounds
  {
    if |cache| >= batchSize {
      PrefixPositive(cache, valid, batchSize);
      RoundsShrink(cache[PrefixLength(cache, valid, batchSize)..], valid, batchSize, rounds - 1);
    }
  }

  lemma {:induction false} ZeroBatchTakesNothing(cache: seq<Entry>, valid: Entry -> bool, rounds: nat)
    ensures AfterRounds(cache, valid, 0, rounds) == cache
    decreases rounds
  {
    if rounds > 0 {
      assert cache[0..] == cache;
      ZeroBatchTakesNothing(cache, valid, rounds - 1);
    }
  }

  /** Some round leaves less than a batch, which ends the loop, if and only if the
      batch size is not zero; with zero no round takes anything. */
  lemma RoundsEnd(cache: seq<Entry>, valid: Entry -> bool, batchSize: nat)
    ensures (exists rounds: nat :: |AfterRounds(cache, valid, batchSize, rounds)| < batchSize) <==> batchSize >= 1
    ensures batchSize == 0 ==> forall rounds: nat :: AfterRounds(cache, valid, batchSize, rounds) == cache
  {
    if batchSize >= 1 {
      RoundsShrink(cache, valid, batchSize, |cache|);
    } else {
      forall rounds: nat
        ensures AfterRounds(cache, valid, batchSize, rounds) == cache
      {
        ZeroBatchTakesNothing(cache, valid, rounds);
      }
    }
  }

  function Flatten(batches: seq<seq<Entry>>): seq<Entry> {
    if |batches| == 0 then [] else Flatten(batches[..|batches| - 1]) + batches[|batches| - 1]
  }

  class BatchCache {
    const batchSize: nat
    /** The sorted set in Redis. */
    var cache: seq<Entry>
    /** Whether the timer is armed. */
    var timer: bool
    /** The batches handed to the callback, in order. */
    var emitted: seq<seq<Entry>>

    constructor (batchSize: nat)
      ensures this.batchSize == batchSize && cache == [] && !timer && emitted == []
    {
      this.batchSize, cache, timer, emitted := batchSize, [], false, [];
    }

    /** Between calls: less than a batch is cached, and exactly a non-empty cache
        has a timer running. */
    predicate Settled()
      reads this
    {
      Sorted(cache) && |cache| < batchSize && (timer <==> cache != [])
    }

    /** `zpopmin` */
    method Take(count: nat) returns (es: seq<Entry>)
      modifies this`cache
      ensures es + cache == old(cache)
      ensures |es| == if count < |old(cache)| then count else |old(cache)|
    {
      if count == 0 {
        return [];
      }
      var n := if count < |cache| then count else |cache|;
      es := cache[..n];
      cache := cache[n..];
    }

    /** Pops exactly the shortest prefix that fills a batch, in chunks, and hands
        over its valid entries in order. */
    method Execute(valid: Entry -> bool)
      modifies this
      ensures !timer
      ensures var k := PrefixLength(old(cache), valid, batchSize);
              var batch := Filter(old(cache)[..k], valid);
              && cache == old(cache)[k..] && |batch| <= batchSize
              && emitted == old(emitted) + (if batch == [] then [] else [batch])
              && ValidPart(old(cache)[..k], valid, batch)
    {
      hide Filter, PrefixLength, ValidPart;
      FilterNothing(valid);
      timer := false;
      var validatedEs: seq<Entry> := [];
      ghost var all, popped := cache, 0;
      ghost var k := PrefixLength(all, valid, batchSize);
      var more := true;
      assert all[..0] == [];
      while more
        invariant 0 <= popped <= k && cache == all[popped..]
        invariant validatedEs == Filter(all[..popped], valid) && |validatedEs| <= batchSize
        invariant more ==> |validatedEs| < batchSize || popped == 0
        invariant !more ==> |validatedEs| == batchSize || popped == |all|
        invariant !timer && emitted == old(emitted)
        decreases more, if |validatedEs| < batchSize then |cache| else 0
      {
        var count := batchSize - |validatedEs|;
        var es := Take(count);
        NeverTooFar(all, valid, batchSize, popped, |es|);
        assert all[..popped + |es|] == all[..popped] + es;
        FilterConcat(all[..popped], es, valid);
        var validatedResults := Validate(es, valid);
        validatedEs := validatedEs + validatedResults;
        popped := popped + |es|;
        more := |validatedEs| < batchSize && count == |es|;
      }
      EnoughMeansShortest(all, valid, batchSize, popped);
      FilterIs(all[..popped], valid);
      if |validatedEs| == 0 {
        return;
      }
      emitted := emitted + [validatedEs];
    }

    /** The fulfilled validations, in order. */
    method Validate(es: seq<Entry>, valid: Entry -> bool) returns (validated: seq<Entry>)
      ensures validated == Filter(es, valid)
    {
      validated := [];
      var i := 0;
      while i < |es|
        invariant 0 <= i <= |es| && validated == Filter(es[..i], valid)
      {
        assert es[..i + 1] == es[..i] + [es[i]];
        FilterConcat(es[..i], [es[i]], valid);
        assert Filter([es[i]], valid) == if valid(es[i]) then [es[i]] else [];
        if valid(es[i]) {
          validated := validated + [es[i]];
        }
        i := i + 1;
      }
      assert es[..|es|] == es;
    }

    /** Emits whole batches while there are enough entries, then arms the timer.
        A batch size of zero would never end. */
    method ProcessCache(valid: Entry -> bool)
      requires batchSize >= 1 && Sorted(cache) && (timer ==> cache != [])
      modifies this
      ensures Settled()
      ensures |cache| <= |old(cache)| && cache == old(cache)[|old(cache)| - |cache|..]
      ensures Flatten(emitted) == Flatten(old(emitted)) + Filter(old(cache)[..|old(cache)| - |cache|], valid)
      ensures Batches(old(emitted), emitted, batchSize)
    {
      hide Filter, Flatten, PrefixLength, Batches, Sorted;
      ghost var all, popped := cache, 0;
      NoBatches(emitted, batchSize);
      FilterNothing(valid);
      assert all[..0] == [] && all[0..] == all;
      var count := |cache|;
      while count >= batchSize
        invariant count == |cache| && 0 <= popped <= |all| && cache == all[popped..]
        invariant timer ==> cache != []
        invariant Flatten(emitted) == Flatten(old(emitted)) + Filter(all[..popped], valid)
        invariant Batches(old(emitted), emitted, batchSize)
      {
        popped := ExecuteFrom(valid, all, popped, old(emitted));
        count := |cache|;
      }
      SuffixSorted(all, popped);
      assert |all| - |cache| == popped;
      ArmTimer(count);
    }

    /** The end of `processCache`. */
    method ArmTimer(count: nat)
      requires count == |cache| < batchSize && (timer ==> cache != [])
      modifies this`timer
      ensures timer <==> cache != []
    {
      if count % batchSize != 0 && !timer {
        timer := true;
      }
    }

    /** One round of the loop, where `popped` entries of `all` are gone. */
    method ExecuteFrom(valid: Entry -> bool, ghost all: seq<Entry>, ghost popped: nat, ghost start: seq<seq<Entry>>)
      returns (ghost popped': nat)
      requires 1 <= batchSize <= |cache| && popped <= |all| && cache == all[popped..]
      requires Flatten(emitted) == Flatten(start) + Filter(all[..popped], valid)
      requires Batches(start, emitted, batchSize)
      modifies this
      ensures popped < popped' <= |all| && cache == all[popped'..] && !timer
      ensures Flatten(emitted) == Flatten(start) + Filter(all[..popped'], valid)
      ensures Batches(start, emitted, batchSize)
    {
      hide Filter, Flatten, PrefixLength, Batches;
      ghost var k := PrefixLength(cache, valid, batchSize);
      ghost var batch := Filter(cache[..k], valid);
      ghost var before := emitted;
      PrefixPositive(cache, valid, batchSize);
      popped' := popped + k;
      assert all[..popped'] == all[..popped] + cache[..k];
      FilterConcat(all[..popped], cache[..k], valid);
      Execute(valid);
      FlattenAppend(before, batch);
      BatchesAppend(start, before, batch, batchSize);
    }

    /** `add`, under its mutex. */
    method Add(values: seq<Entry>, valid: Entry -> bool)
      requires batchSize >= 1 && Settled()
      modifies this
      ensures Settled()
      ensures values == [] ==> cache == old(cache) && emitted == old(emitted)
      ensures values != [] ==>
                var all := InsertAll(old(cache), values);
                && |cache| <= |all| && cache == all[|all| - |cache|..]
                && Flatten(emitted) == Flatten(old(emitted)) + Filter(all[..|all| - |cache|], valid)
      ensures Batches(old(emitted), emitted, batchSize)
    {
      hide Filter, Flatten, Batches, InsertAll, Insert, InsertSorted, Sorted, PrefixLength;
      NoBatches(emitted, batchSize);
      if |values| == 0 {
        return;
      }
      InsertAllSorts(cache, values);
      InsertAllKeeps(cache, values);
      ghost var all := InsertAll(cache, values);
      cache := InsertAll(cache, values);
      ProcessCache(valid);
      assert cache == all[|all| - |cache|..];
    }

    /** The timer fires: what is left goes out as one batch. */
    method OnTimer(valid: Entry -> bool)
      requires batchSize >= 1 && Settled()
      modifies this
      ensures Settled() && cache == []
      ensures var batch := Filter(old(cache), valid);
              emitted == old(emitted) + if batch == [] then [] else [batch]
    {
      PrefixIsShortest(cache, valid, batchSize);
      assert cache[..|cache|] == cache;
      ghost var k := PrefixLength(cache, valid, batchSize);
      assert |Filter(cache[..k], valid)| < batchSize;
      Execute(valid);
    }
  }

  lemma {:induction false} InsertAllKeeps(cache: seq<Entry>, values: seq<Entry>)
    ensures |InsertAll(cache, values)| >= |cache|
    ensures |values| > 0 ==> InsertAll(cache, values) != []
    decreases |values|
  {
    if |values| > 0 {
      InsertAllKeeps(Insert(cache, values[0]), values[1..]);
    }
  }

  /** What was added to the emitted batches: non-empty ones of at most the batch size. */
  predicate Batches(before: seq<seq<Entry>>, after: seq<seq<Entry>>, batchSize: nat) {
    before <= after && forall i | |before| <= i < |after| :: 0 < |after[i]| <= batchSize
  }

  lemma SuffixSorted(es: seq<Entry>, i: nat)
    requires Sorted(es) && i <= |es|
    ensures Sorted(es[i..])
  {
  }

  lemma NoBatches(before: seq<seq<Entry>>, batchSize: nat)
    ensures Batches(before, before, batchSize)
  {
  }

  lemma BatchesAppend(before: seq<seq<Entry>>, after: seq<seq<Entry>>, batch: seq<Entry>, batchSize: nat)
    requires Batches(before, after, batchSize) && |batch| <= batchSize
    ensures Batches(before, after + if batch == [] then [] else [batch], batchSize)
  {
  }

  lemma FilterNothing(valid: Entry -> bool)
    ensures Filter([], valid) == []
  {
  }

  lemma PrefixPositive(es: seq<Entry>, valid: Entry -> bool, n: nat)
    requires n >= 1 && |es| >= 1
    ensures PrefixLength(es, valid, n) >= 1
  {
  }

  lemma FlattenAppend(batches: seq<seq<Entry>>, batch: seq<Entry>)
    ensures Flatten(batches + if batch == [] then [] else [batch]) == Flatten(batches) + batch
  {
    if batch == [] {
      assert batches + [] == batches;
    } else {
      assert (batches + [batch])[..|batches|] == batches;
    }
  }

  // ---------- Calls that run at the same time ----------

  /** One call of `execute` between its awaits. */
  datatype Executor =
    | Ready(validated: seq<Entry>)
    | Judging(validated: seq<Entry>, count: nat, taken: seq<Entry>)
    | Finishing(validated: seq<Entry>)
    | Ended

  /** One call of `processCache` between its awaits: before it counts the cache, with
      the number it got, or while it waits for its executor. */
  datatype Pass =
    | Counting
    | Counted(count: nat)
    | Waiting(id: nat)
    | Done

  datatype Shared = Shared(
    cache: seq<Entry>, timer: bool, passes: seq<Pass>, executors: seq<Executor>,
    emitted: seq<seq<Entry>>, rejected: seq<Entry>, added: set<Entry>)

  const EMPTY: Shared := Shared([], false, [], [], [], [], {})

  /** Any number of calls run side by side: `init` and the timer do not take the mutex
      of `add`. `verdicts` are the results of the validations, in order. */
  datatype Action =
    | AddNew(values: seq<Entry>)
    | Init
    | Count(pass: nat)
    | Decide(pass: nat)
    | Resume(pass: nat)
    | Fire
    | TakeChunk(id: nat)
    | Judge(id: nat, verdicts: seq<bool>)
    | Finish(id: nat)

  function Chosen(es: seq<Entry>, verdicts: seq<bool>, verdict: bool): seq<Entry>
    requires |es| == |verdicts|
  {
    if |es| == 0 then []
    else (if verdicts[0] == verdict then [es[0]] else []) + Chosen(es[1..], verdicts[1..], verdict)
  }

  /** Nonces are unique: what is added was never added before. */
  predicate Enabled(s: Shared, a: Action) {
    match a
    case AddNew(values) =>
      (forall e | e in values :: e !in s.added) && (forall i, j | 0 <= i < j < |values| :: values[i] != values[j])
    case Init => true
    case Count(p) => p < |s.passes| && s.passes[p].Counting?
    case Decide(p) => p < |s.passes| && s.passes[p].Counted?
    case Resume(p) =>
      && p < |s.passes| && s.passes[p].Waiting?
      && s.passes[p].id < |s.executors| && s.executors[s.passes[p].id].Ended?
    case Fire => s.timer
    case TakeChunk(id) => id < |s.executors| && s.executors[id].Ready?
    case Judge(id, verdicts) =>
      id < |s.executors| && s.executors[id].Judging? && |verdicts| == |s.executors[id].taken|
    case Finish(id) => id < |s.executors| && s.executors[id].Finishing?
  }

  /** An executor starts by clearing the timer. */
  function Begun(s: Shared): Shared {
    s.(timer := false, executors := s.executors + [Ready([])])
  }

  function Step(batchSize: nat, s: Shared, a: Action): Shared
    requires Enabled(s, a)
  {
    match a
    case AddNew(values) =>
      if values == [] then s
      else
        s.(cache := InsertAll(s.cache, values), passes := s.passes + [Counting],
           added := s.added + set e | e in values)
    case Init => s.(passes := s.passes + [Counting])
    case Count(p) => s.(passes := s.passes[p := Counted(|s.cache|)])
    case Decide(p) =>
      var count := s.passes[p].count;
      if count >= batchSize then Begun(s.(passes := s.passes[p := Waiting(|s.executors|)]))
      else s.(passes := s.passes[p := Done], timer := s.timer || count % batchSize != 0)
    case Resume(p) => s.(passes := s.passes[p := Counting])
    case Fire => Begun(s)
    case TakeChunk(id) =>
      var v := s.executors[id].validated;
      var count := if |v| < batchSize then batchSize - |v| else 0;
      var n := if count < |s.cache| then count else |s.cache|;
      s.(cache := s.cache[n..], executors := s.executors[id := Judging(v, count, s.cache[..n])])
    case Judge(id, verdicts) =>
      var x := s.executors[id];
      var v := x.validated + Chosen(x.taken, verdicts, true);
      var next := if |v| < batchSize && x.count == |x.taken| then Ready(v) else Finishing(v);
      s.(executors := s.executors[id := next], rejected := s.rejected + Chosen(x.taken, verdicts, false))
    case Finish(id) =>
      var v := s.executors[id].validated;
      s.(executors := s.executors[id := Ended], emitted := s.emitted + if v == [] then [] else [v])
  }

  function Hold(x: Executor): multiset<Entry> {
    match x
    case Ready(v) => multiset(v)
    case Judging(v, _, t) => multiset(v) + multiset(t)
    case Finishing(v) => multiset(v)
    case Ended => multiset{}
  }

  function Holdings(xs: seq<Executor>): multiset<Entry> {
    if |xs| == 0 then multiset{} else Holdings(xs[..|xs| - 1]) + Hold(xs[|xs| - 1])
  }

  function Everywhere(s: Shared): multiset<Entry> {
    multiset(s.cache) + Holdings(s.executors) + multiset(Flatten(s.emitted)) + multiset(s.rejected)
  }

  predicate Fits(batchSize: nat, x: Executor) {
    match x
    case Ready(v) => |v| <= batchSize
    case Judging(v, count, t) => |v| + count <= batchSize && |t| <= count
    case Finishing(v) => |v| <= batchSize
    case Ended => true
  }

  /** Everything ever added is accounted for, once, and no batch is too large. */
  ghost predicate Conserved(batchSize: nat, s: Shared) {
    && Everywhere(s) == multiset(s.added)
    && (forall i | 0 <= i < |s.executors| :: Fits(batchSize, s.executors[i]))
    && (forall i | 0 <= i < |s.emitted| :: 0 < |s.emitted[i]| <= batchSize)
  }

  lemma {:induction false} HoldingsUpdate(xs: seq<Executor>, i: nat, x: Executor)
    requires i < |xs|
    ensures Holdings(xs[i := x]) + Hold(xs[i]) == Holdings(xs) + Hold(x)
    decreases |xs|
  {
    hide Hold;
    var init, last := xs[..|xs| - 1], xs[|xs| - 1];
    if i == |xs| - 1 {
      assert xs[i := x][..|xs| - 1] == init;
      Shuffle(Holdings(init), Hold(x), Hold(last));
    } else {
      assert xs[i := x][..|xs| - 1] == init[i := x];
      HoldingsUpdate(init, i, x);
      Shuffle(Holdings(init[i := x]), Hold(last), Hold(xs[i]));
      Shuffle(Holdings(init), Hold(last), Hold(x));
    }
  }

  lemma Shuffle(a: multiset<Entry>, b: multiset<Entry>, c: multiset<Entry>)
    ensures a + b + c == a + c + b
  {
  }

  lemma {:induction false} ChosenCounts(es: seq<Entry>, verdicts: seq<bool>, e: Entry)
    requires |es| == |verdicts|
    ensures multiset(Chosen(es, verdicts, true))[e] + multiset(Chosen(es, verdicts, false))[e] == multiset(es)[e]
    ensures |Chosen(es, verdicts, true)| <= |es|
  {
    if |es| > 0 {
      ChosenCounts(es[1..], verdicts[1..], e);
      CountFirst(es, e);
      var kept := Chosen(es[1..], verdicts[1..], verdicts[0]);
      var other := Chosen(es[1..], verdicts[1..], !verdicts[0]);
      CountFirst([es[0]] + kept, e);
      assert ([es[0]] + kept)[1..] == kept && [] + other == other;
    }
  }

  lemma CountFirst(es: seq<Entry>, e: Entry)
    requires |es| > 0
    ensures multiset(es)[e] == multiset(es[1..])[e] + if es[0] == e then 1 else 0
  {
    assert es == [es[0]] + es[1..];
  }

  lemma ChosenSplit(es: seq<Entry>, verdicts: seq<bool>)
    requires |es| == |verdicts|
    ensures multiset(Chosen(es, verdicts, true)) + multiset(Chosen(es, verdicts, false)) == multiset(es)
    ensures |Chosen(es, verdicts, true)| <= |es|
  {
    hide Chosen;
    forall e
      ensures multiset(Chosen(es, verdicts, true))[e] + multiset(Chosen(es, verdicts, false))[e] == multiset(es)[e]
    {
      ChosenCounts(es, verdicts, e);
    }
    ChosenCounts(es, verdicts, Entry(0, []));
  }

  lemma {:induction false} InsertAllNew(cache: seq<Entry>, values: seq<Entry>)
    requires forall e | e in values :: e !in cache
    requires forall i, j | 0 <= i < j < |values| :: values[i] != values[j]
    ensures multiset(InsertAll(cache, values)) == multiset(cache) + multiset(values)
    decreases |values|
  {
    if |values| > 0 {
      var e, rest := values[0], values[1..];
      assert values == [e] + rest;
      assert e in values;
      var cache' := InsertSorted(cache, e);
      forall f | f in rest
        ensures f !in cache'
      {
        assert f in values && f != e;
        assert f !in multiset(cache) && f !in multiset(cache');
      }
      InsertAllNew(cache', rest);
    }
  }

  lemma DistinctMultiset(values: seq<Entry>)
    requires forall i, j | 0 <= i < j < |values| :: values[i] != values[j]
    ensures multiset(values) == multiset(set e | e in values)
  {
    forall e
      ensures multiset(values)[e] == if e in values then 1 else 0
    {
      CountDistinct(values, e);
    }
  }

  lemma {:induction false} CountDistinct(values: seq<Entry>, e: Entry)
    requires forall i, j | 0 <= i < j < |values| :: values[i] != values[j]
    ensures multiset(values)[e] == if e in values then 1 else 0
  {
    if |values| > 0 {
      assert values == [values[0]] + values[1..];
      CountDistinct(values[1..], e);
    }
  }

  /** What is new is nowhere yet. */
  lemma NewIsElsewhere(batchSize: nat, s: Shared, e: Entry)
    requires Conserved(batchSize, s) && e !in s.added
    ensures e !in s.cache
  {
    hide Holdings, Flatten, Fits;
    assert multiset(s.added)[e] == 0;
    assert Everywhere(s)[e] >= multiset(s.cache)[e];
  }

  lemma AddConserves(batchSize: nat, s: Shared, values: seq<Entry>)
    requires Conserved(batchSize, s) && Enabled(s, AddNew(values))
    ensures Conserved(batchSize, Step(batchSize, s, AddNew(values)))
  {
    hide Holdings, Flatten, Fits, InsertAll;
    if values != [] {
      forall e | e in values
        ensures e !in s.cache
      {
        NewIsElsewhere(batchSize, s, e);
      }
      var s' := Step(batchSize, s, AddNew(values));
      InsertAllNew(s.cache, values);
      DistinctMultiset(values);
      var newcomers := set e | e in values;
      assert multiset(s'.added) == multiset(s.added) + multiset(newcomers);
      Rebalance(multiset(s.cache), multiset(values), Holdings(s.executors), multiset(Flatten(s.emitted)),
        multiset(s.rejected));
      assert Everywhere(s') == Everywhere(s) + multiset(values);
    }
  }

  /** An executor's holdings change from `before` to `after` while `moved` comes
      in from, or goes out to, the rest. */
  lemma Transfer(h: multiset<Entry>, h': multiset<Entry>, before: multiset<Entry>, after: multiset<Entry>,
                 moved: multiset<Entry>)
    requires h' + before == h + after
    ensures after == before + moved ==> h' == h + moved
    ensures before == after + moved ==> h == h' + moved
  {
    forall e
      ensures after == before + moved ==> h'[e] == (h + moved)[e]
      ensures before == after + moved ==> h[e] == (h' + moved)[e]
    {
      assert (h' + before)[e] == (h + after)[e];
    }
  }

  /** Moving `t` between the parts of a sum. */
  lemma Rebalance(c: multiset<Entry>, t: multiset<Entry>, h: multiset<Entry>, e: multiset<Entry>, r: multiset<Entry>)
    ensures c + (h + t) + e + r == (t + c) + h + e + r
    ensures c + (h + t) + e + r == c + h + e + (r + t)
    ensures c + (h + t) + e + r == c + h + (e + t) + r
  {
  }

  lemma TakeHold(v: seq<Entry>, count: nat, taken: seq<Entry>)
    ensures Hold(Judging(v, count, taken)) == Hold(Ready(v)) + multiset(taken)
  {
  }

  lemma TakeConserves(batchSize: nat, s: Shared, id: nat)
    requires Conserved(batchSize, s) && Enabled(s, TakeChunk(id))
    ensures Conserved(batchSize, Step(batchSize, s, TakeChunk(id)))
  {
    hide Holdings, Flatten, Hold;
    var s' := Step(batchSize, s, TakeChunk(id));
    var x, x' := s.executors[id], s'.executors[id];
    assert Fits(batchSize, x) && Fits(batchSize, x');
    assert s.cache == x'.taken + s'.cache;
    TakeHold(x.validated, x'.count, x'.taken);
    HoldingsUpdate(s.executors, id, x');
    var out := multiset(x'.taken);
    Transfer(Holdings(s.executors), Holdings(s'.executors), Hold(x), Hold(x'), out);
    assert multiset(s.cache) == out + multiset(s'.cache);
    Rebalance(multiset(s'.cache), out, Holdings(s.executors), multiset(Flatten(s.emitted)), multiset(s.rejected));
  }

  lemma JudgeHold(x: Executor, x': Executor, verdicts: seq<bool>)
    requires x.Judging? && |verdicts| == |x.taken|
    requires var v := x.validated + Chosen(x.taken, verdicts, true);
             x' == Ready(v) || x' == Finishing(v)
    ensures Hold(x) == Hold(x') + multiset(Chosen(x.taken, verdicts, false))
  {
    hide Chosen;
    ChosenSplit(x.taken, verdicts);
  }

  lemma JudgeConserves(batchSize: nat, s: Shared, id: nat, verdicts: seq<bool>)
    requires Conserved(batchSize, s) && Enabled(s, Judge(id, verdicts))
    ensures Conserved(batchSize, Step(batchSize, s, Judge(id, verdicts)))
  {
    hide Holdings, Flatten, Chosen;
    var s' := Step(batchSize, s, Judge(id, verdicts));
    var x, x' := s.executors[id], s'.executors[id];
    ChosenSplit(x.taken, verdicts);
    JudgeHold(x, x', verdicts);
    assert Fits(batchSize, x) && Fits(batchSize, x');
    HoldingsUpdate(s.executors, id, x');
    var out := multiset(Chosen(x.taken, verdicts, false));
    hide Hold, Fits;
    Transfer(Holdings(s.executors), Holdings(s'.executors), Hold(x), Hold(x'), out);
    assert multiset(s'.rejected) == multiset(s.rejected) + out;
    Rebalance(multiset(s.cache), out, Holdings(s'.executors), multiset(Flatten(s.emitted)), multiset(s.rejected));
  }

  lemma FinishConserves(batchSize: nat, s: Shared, id: nat)
    requires Conserved(batchSize, s) && Enabled(s, Finish(id))
    ensures Conserved(batchSize, Step(batchSize, s, Finish(id)))
  {
    hide Holdings, Flatten;
    var s' := Step(batchSize, s, Finish(id));
    var x, x' := s.executors[id], s'.executors[id];
    assert Fits(batchSize, x) && Fits(batchSize, x');
    HoldingsUpdate(s.executors, id, x');
    FlattenAppend(s.emitted, x.validated);
    assert Hold(x) == Hold(x') + multiset(x.validated);
    var out := multiset(x.validated);
    Transfer(Holdings(s.executors), Holdings(s'.executors), Hold(x), Hold(x'), out);
    assert multiset(Flatten(s'.emitted)) == multiset(Flatten(s.emitted)) + out;
    hide Hold;
    Rebalance(multiset(s.cache), out, Holdings(s'.executors), multiset(Flatten(s.emitted)), multiset(s.rejected));
  }

  lemma OthersConserve(batchSize: nat, s: Shared, a: Action)
    requires Conserved(batchSize, s) && Enabled(s, a)
    requires a.Init? || a.Count? || a.Decide? || a.Resume? || a.Fire?
    ensures Conserved(batchSize, Step(batchSize, s, a))
  {
    hide Flatten, Holdings, Hold;
    BeginHolds(s.executors);
    assert Everywhere(Step(batchSize, s, a)) == Everywhere(s);
  }

  /** A new executor holds nothing. */
  lemma BeginHolds(xs: seq<Executor>)
    ensures Holdings(xs + [Ready([])]) == Holdings(xs)
  {
    assert (xs + [Ready([])])[..|xs|] == xs;
  }

  predicate IsRun(batchSize: nat, s: Shared, actions: seq<Action>)
    decreases |actions|
  {
    |actions| == 0 || (Enabled(s, actions[0]) && IsRun(batchSize, Step(batchSize, s, actions[0]), actions[1..]))
  }

  function Run(batchSize: nat, s: Shared, actions: seq<Action>): Shared
    requires IsRun(batchSize, s, actions)
    decreases |actions|
  {
    if |actions| == 0 then s else Run(batchSize, Step(batchSize, s, actions[0]), actions[1..])
  }

  /** Any number of additions, passes and executors, interleaved in any order:
      everything added is at all times in exactly one of the cache, an executor's hand,
      the emitted batches and the rejected entries. */
  lemma {:induction false} EveryRunConserves(batchSize: nat, s: Shared, actions: seq<Action>)
    requires Conserved(batchSize, s) && IsRun(batchSize, s, actions)
    ensures Conserved(batchSize, Run(batchSize, s, actions))
    decreases |actions|
  {
    hide Conserved, Step;
    if |actions| > 0 {
      var a := actions[0];
      match a {
        case AddNew(values) => AddConserves(batchSize, s, values);
        case TakeChunk(id) => TakeConserves(batchSize, s, id);
        case Judge(id, verdicts) => JudgeConserves(batchSize, s, id, verdicts);
        case Finish(id) => FinishConserves(batchSize, s, id);
        case _ => OthersConserve(batchSize, s, a);
      }
      EveryRunConserves(batchSize, Step(batchSize, s, a), actions[1..]);
    }
  }

  /** The same for one entry. */
  lemma InExactlyOnePlace(batchSize: nat, actions: seq<Action>, e: Entry)
    requires IsRun(batchSize, EMPTY, actions)
    ensures var s := Run(batchSize, EMPTY, actions);
            multiset(s.cache)[e] + Holdings(s.executors)[e] + multiset(Flatten(s.emitted))[e] + multiset(s.rejected)[e]
            == if e in s.added then 1 else 0
  {
    EveryRunConserves(batchSize, EMPTY, actions);
    var s := Run(batchSize, EMPTY, actions);
    assert Everywhere(s)[e] == multiset(s.added)[e];
  }

  // ---------- What is emitted is valid ----------

  /** A chunk is what has the lowest nonces, as much as the batch lacks. */
  lemma TakesFirst(batchSize: nat, s: Shared, id: nat)
    requires Enabled(s, TakeChunk(id)) && |s.executors[id].validated| <= batchSize
    ensures var s', lacks := Step(batchSize, s, TakeChunk(id)), batchSize - |s.executors[id].validated|;
            var x := s'.executors[id];
            && x.Judging? && x.taken + s'.cache == s.cache && x.validated == s.executors[id].validated
            && |x.taken| == if lacks < |s.cache| then lacks else |s.cache|
  {
  }

  /** After the verdicts on a chunk an executor takes another one if and only if its batch
      is not full and the chunk was not cut short; otherwise it hands over what it has. */
  lemma JudgeGoesOn(batchSize: nat, s: Shared, id: nat, verdicts: seq<bool>)
    requires Enabled(s, Judge(id, verdicts))
    ensures var x, x' := s.executors[id], Step(batchSize, s, Judge(id, verdicts)).executors[id];
            && !x'.Ended? && x.validated <= x'.validated
            && (x'.Ready? <==> |x'.validated| < batchSize && |x.taken| == x.count)
            && (!x'.Ready? ==> x'.Finishing?)
  {
    hide Chosen;
  }

  /** What an executor hands over is one batch, unless it is empty. */
  lemma FinishEmits(batchSize: nat, s: Shared, id: nat)
    requires Enabled(s, Finish(id))
    ensures var s', v := Step(batchSize, s, Finish(id)), s.executors[id].validated;
            && s'.executors[id] == Ended && s'.cache == s.cache && s'.timer == s.timer
            && (v == [] ==> s'.emitted == s.emitted) && (v != [] ==> s'.emitted == s.emitted + [v])
  {
  }

  /** An executor starts empty and with the timer off: when the timer fires, or when a
      pass found a whole batch. A pass that found less arms the timer if there was
      anything, and ends. */
  lemma StartsExecutor(batchSize: nat, s: Shared, a: Action)
    requires Enabled(s, a) && (a.Fire? || a.Decide?)
    ensures var s' := Step(batchSize, s, a);
            && (a.Fire? || s.passes[a.pass].count >= batchSize ==>
                  !s'.timer && s'.executors == s.executors + [Ready([])])
            && (a.Decide? && s.passes[a.pass].count < batchSize ==>
                  s'.executors == s.executors && s'.passes[a.pass] == Done
                  && (s'.timer <==> s.timer || s.passes[a.pass].count > 0))
  {
  }

  lemma {:induction false} ChosenAre(es: seq<Entry>, verdicts: seq<bool>, verdict: bool, valid: Entry -> bool)
    requires |es| == |verdicts| && forall i | 0 <= i < |es| :: verdicts[i] == valid(es[i])
    ensures Chosen(es, verdicts, verdict) == Filter(es, e => valid(e) == verdict)
    ensures forall e | e in Chosen(es, verdicts, verdict) :: valid(e) == verdict
  {
    if |es| > 0 {
      ChosenAre(es[1..], verdicts[1..], verdict, valid);
    }
  }

  /** The verdicts of a step are those of `valid`. */
  predicate Truthful(s: Shared, a: Action, valid: Entry -> bool)
    requires Enabled(s, a)
  {
    a.Judge? ==> forall i | 0 <= i < |a.verdicts| :: a.verdicts[i] == valid(s.executors[a.id].taken[i])
  }

  predicate TruthfulRun(batchSize: nat, s: Shared, actions: seq<Action>, valid: Entry -> bool)
    requires IsRun(batchSize, s, actions)
    decreases |actions|
  {
    |actions| == 0
    || (Truthful(s, actions[0], valid) && TruthfulRun(batchSize, Step(batchSize, s, actions[0]), actions[1..], valid))
  }

  /** Emitted entries and those in the hands of executors are valid, rejected ones not. */
  predicate Sound(s: Shared, valid: Entry -> bool) {
    && (forall i | 0 <= i < |s.emitted| :: forall e | e in s.emitted[i] :: valid(e))
    && (forall e | e in s.rejected :: !valid(e))
    && forall i | 0 <= i < |s.executors| && !s.executors[i].Ended? ::
         forall e | e in s.executors[i].validated :: valid(e)
  }

  lemma StepSound(batchSize: nat, s: Shared, a: Action, valid: Entry -> bool)
    requires Sound(s, valid) && Enabled(s, a) && Truthful(s, a, valid)
    ensures Sound(Step(batchSize, s, a), valid)
  {
    hide Chosen, InsertAll, Filter;
    if a.Judge? {
      ChosenAre(s.executors[a.id].taken, a.verdicts, true, valid);
      ChosenAre(s.executors[a.id].taken, a.verdicts, false, valid);
    }
  }

  lemma {:induction false} RunSound(batchSize: nat, s: Shared, actions: seq<Action>, valid: Entry -> bool)
    requires Sound(s, valid) && IsRun(batchSize, s, actions) && TruthfulRun(batchSize, s, actions, valid)
    ensures Sound(Run(batchSize, s, actions), valid)
    decreases |actions|
  {
    hide Sound, Step, Enabled, Truthful;
    if |actions| > 0 {
      StepSound(batchSize, s, actions[0], valid);
      RunSound(batchSize, Step(batchSize, s, actions[0]), actions[1..], valid);
    }
  }

  /** In every run of interleaved calls that judge by `valid`: an added entry that is no
      longer cached or with an executor has left in exactly one batch if it is valid, and
      in none if it is not. */
  lemma ValidOnesLeave(batchSize: nat, actions: seq<Action>, valid: Entry -> bool, e: Entry)
    requires IsRun(batchSize, EMPTY, actions) && TruthfulRun(batchSize, EMPTY, actions, valid)
    ensures var s := Run(batchSize, EMPTY, actions);
            && multiset(Flatten(s.emitted))[e] <= (if valid(e) then 1 else 0)
            && (e in s.added && e !in s.cache && e !in Holdings(s.executors) ==>
                  multiset(Flatten(s.emitted))[e] == if valid(e) then 1 else 0)
  {
    InExactlyOnePlace(batchSize, actions, e);
    RunSound(batchSize, EMPTY, actions, valid);
    var s := Run(batchSize, EMPTY, actions);
    FlattenSound(s.emitted, valid);
    assert e in Flatten(s.emitted) <==> multiset(Flatten(s.emitted))[e] > 0;
    assert e in s.rejected <==> multiset(s.rejected)[e] > 0;
  }

  lemma {:induction false} FlattenSound(batches: seq<seq<Entry>>, valid: Entry -> bool)
    requires forall i | 0 <= i < |batches| :: forall e | e in batches[i] :: valid(e)
    ensures forall e | e in Flatten(batches) :: valid(e)
  {
    if |batches| > 0 {
      FlattenSound(batches[..|batches| - 1], valid);
      assert forall e | e in batches[|batches| - 1] :: valid(e);
    }
  }

  // ---------- Nothing is forgotten ----------

  /** The pass looks at the cache again, or found at least `n` entries in it. */
  predicate Alert(p: Pass, n: nat) {
    p.Counting? || p.Waiting? || (p.Counted? && p.count >= n)
  }

  predicate SomeAlert(passes: seq<Pass>, n: nat) {
    exists p | 0 <= p < |passes| :: Alert(passes[p], n)
  }

  predicate SomeStarting(executors: seq<Executor>) {
    exists id | 0 <= id < |executors| :: executors[id] == Ready([])
  }

  /** Somebody takes care of a whole batch, and of anything in the cache. */
  predicate Attended(batchSize: nat, s: Shared) {
    && (|s.cache| >= batchSize ==> SomeAlert(s.passes, batchSize))
    && (s.cache != [] ==> s.timer || SomeAlert(s.passes, 1) || SomeStarting(s.executors))
  }

  lemma PassesStay(passes: seq<Pass>, p: nat, next: Pass, n: nat)
    requires p < |passes|
    ensures SomeAlert(passes, n) && !Alert(passes[p], n) ==> SomeAlert(passes[p := next], n)
    ensures Alert(next, n) ==> SomeAlert(passes[p := next], n)
  {
    if SomeAlert(passes, n) && !Alert(passes[p], n) {
      var i :| 0 <= i < |passes| && Alert(passes[i], n);
      assert passes[p := next][i] == passes[i];
    }
    assert passes[p := next][p] == next;
  }

  lemma PassesGrow(passes: seq<Pass>, n: nat)
    ensures SomeAlert(passes + [Counting], n)
  {
    assert (passes + [Counting])[|passes|] == Counting;
  }

  lemma ExecutorsStay(xs: seq<Executor>, id: nat, x: Executor)
    requires id < |xs| && SomeStarting(xs) && xs[id] != Ready([])
    ensures SomeStarting(xs[id := x])
  {
    var i :| 0 <= i < |xs| && xs[i] == Ready([]);
    assert xs[id := x][i] == xs[i];
  }

  lemma ExecutorsGrow(xs: seq<Executor>)
    ensures SomeStarting(xs + [Ready([])])
  {
    assert (xs + [Ready([])])[|xs|] == Ready([]);
  }

  lemma AlertForOne(passes: seq<Pass>, n: nat)
    requires n >= 1 && SomeAlert(passes, n)
    ensures SomeAlert(passes, 1)
  {
    var i :| 0 <= i < |passes| && Alert(passes[i], n);
    assert Alert(passes[i], 1);
  }

  /** The steps of passes. */
  lemma PassAttended(batchSize: nat, s: Shared, a: Action)
    requires batchSize >= 1 && Attended(batchSize, s) && Enabled(s, a) && (a.Count? || a.Decide? || a.Resume?)
    ensures Attended(batchSize, Step(batchSize, s, a))
  {
    hide SomeAlert, SomeStarting;
    var next := Step(batchSize, s, a).passes[a.pass];
    PassesStay(s.passes, a.pass, next, 1);
    PassesStay(s.passes, a.pass, next, batchSize);
  }

  /** The steps of executors. */
  lemma ExecutorAttended(batchSize: nat, s: Shared, a: Action)
    requires batchSize >= 1 && Attended(batchSize, s) && Enabled(s, a) && (a.TakeChunk? || a.Judge? || a.Finish?)
    ensures Attended(batchSize, Step(batchSize, s, a))
  {
    hide SomeAlert, SomeStarting, Chosen;
    if |s.cache| >= batchSize {
      AlertForOne(s.passes, batchSize);
    } else if SomeStarting(s.executors) && s.executors[a.id] != Ready([]) {
      ExecutorsStay(s.executors, a.id, Step(batchSize, s, a).executors[a.id]);
    }
  }

  lemma StepAttended(batchSize: nat, s: Shared, a: Action)
    requires batchSize >= 1 && Attended(batchSize, s) && Enabled(s, a)
    ensures Attended(batchSize, Step(batchSize, s, a))
  {
    hide SomeAlert, SomeStarting, InsertAll, Chosen;
    if a.TakeChunk? || a.Judge? || a.Finish? {
      ExecutorAttended(batchSize, s, a);
    } else if a.Count? || a.Decide? || a.Resume? {
      PassAttended(batchSize, s, a);
    } else {
      PassesGrow(s.passes, 1);
      PassesGrow(s.passes, batchSize);
      ExecutorsGrow(s.executors);
    }
  }

  lemma {:induction false} RunAttended(batchSize: nat, s: Shared, actions: seq<Action>)
    requires batchSize >= 1 && Attended(batchSize, s) && IsRun(batchSize, s, actions)
    ensures Attended(batchSize, Run(batchSize, s, actions))
    decreases |actions|
  {
    hide Attended, Step, Enabled;
    if |actions| > 0 {
      StepAttended(batchSize, s, actions[0]);
      RunAttended(batchSize, Step(batchSize, s, actions[0]), actions[1..]);
    }
  }

  /** In every run a non-empty cache has the timer armed, or a call under way that is
      yet to count it, to arm the timer or to start taking; and once every call has
      ended, less than a batch is left, with the timer armed if anything is. */
  lemma NothingForgotten(batchSize: nat, actions: seq<Action>)
    requires batchSize >= 1 && IsRun(batchSize, EMPTY, actions)
    ensures var s := Run(batchSize, EMPTY, actions);
            && (s.cache != [] ==> s.timer || SomeAlert(s.passes, 1) || SomeStarting(s.executors))
            && ((forall p | p in s.passes :: p == Done) && (forall x | x in s.executors :: x == Ended) ==>
                  |s.cache| < batchSize && (s.cache != [] ==> s.timer))
  {
    hide Step, Enabled;
    RunAttended(batchSize, EMPTY, actions);
    var s := Run(batchSize, EMPTY, actions);
    assert forall i | 0 <= i < |s.passes| :: s.passes[i] in s.passes;
    assert forall i | 0 <= i < |s.executors| :: s.executors[i] in s.executors;
  }
}
