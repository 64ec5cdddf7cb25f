/** The two-tier pool: an optimistic log of everything sent or announced, and a
    confirmed log that should be a prefix of it (`BasePool.ts`). */
module Pool {

  import opened Bounds
  import opened Hex
  import opened Outcome
  import opened Records
  import opened Calldata
  import opened State

  /** Which tiers `addTxToState` writes. `confirmed` and `all` behave alike. */
  datatype Target = Optimistic | All

  datatype Tiers = Tiers(confirmed: Tier, optimistic: Tier) {

    /** `addTxToState` after decoding; `false` when the native tree refuses the
        index that precedes the first commitment. */
    function Record(d: Decoded, txHash: HexString, newPoolIndex: nat, target: Target): (Tiers, bool) {
      var p := if target == All && d.nullifier.Some?
               then this.(confirmed := confirmed.(nullifiers := confirmed.nullifiers + {d.nullifier.value})) else this;
      if newPoolIndex < OUTPLUSONE then (p, false)
      else
        var i := (newPoolIndex - OUTPLUSONE) / OUTPLUSONE;
        var memo := PrefixedMemo(d.outCommit, txHash, d.memo);
        var optimistic' := p.optimistic.UpdateState(i, d.outCommit, memo);
        if target == All then (Tiers(p.confirmed.UpdateState(i, d.outCommit, memo), optimistic'), true)
        else (p.(optimistic := optimistic'), true)
    }

    function AddTxToState(txHash: HexString, input: HexString, newPoolIndex: nat, message: HexString,
                          target: Target): (Tiers, bool) {
      match Decode(input, message)
      case Err(_) => (this, false)
      case Ok(d) => Record(d, txHash, newPoolIndex, target)
    }

    /** The copying loop of `propagateOptimisticState`, from `i` up to `end`. */
    function CopyUp(i: nat, end: nat): (Tiers, bool)
      decreases end - i
    {
      if i >= end then (this, true)
      else if Key(i) !in optimistic.txs then (this, false)
      else
        var tx := optimistic.txs[Key(i)];
        this.(confirmed := confirmed.UpdateState(i, CommitmentOf(tx), tx)).CopyUp(i + 1, end)
    }

    function PropagateOptimisticState(index: nat): (Tiers, bool) {
      if index / OUTPLUSONE > |optimistic.leaves| then (this, false)
      else CopyUp(|confirmed.leaves|, index / OUTPLUSONE)
    }

    function ClearOptimisticState(): Tiers {
      this.(optimistic := optimistic.RollbackTo(|confirmed.leaves|).(nullifiers := {}))
    }
  }

  const EMPTY: Tiers := Tiers(EMPTY_TIER, EMPTY_TIER)

  /** The optimistic tier holds `log`, the confirmed one its first `c` entries. */
  ghost predicate Mirrors(p: Tiers, log: seq<HexString>, c: nat) {
    && c <= |log|
    && Holds(p.optimistic, log)
    && Holds(p.confirmed, log[..c])
  }

  /** `setLastConfirmedTxBlock` keeps the highest block it was told. Adding a
      transaction tells it when the confirmed tier takes a `transact` call. */
  function BlockAfterTx(saved: nat, input: HexString, message: HexString, target: Target, blockNumber: nat): nat {
    var decoded := Decode(input, message);
    if target == All && decoded.Ok? && decoded.value.nullifier.Some? then Max(saved, blockNumber) else saved
  }

  class BasePool {
    const state: PoolState
    const optimisticState: PoolState
    /** The block in Redis from which a sync goes on. */
    var lastConfirmedTxBlock: nat

    constructor (rootOf: seq<nat> -> nat)
      ensures Valid() && View() == EMPTY && lastConfirmedTxBlock == 0 && fresh(Footprint())
      ensures state.rootOf == optimisticState.rootOf == rootOf
    {
      state := new PoolState(rootOf);
      optimisticState := new PoolState(rootOf);
      lastConfirmedTxBlock := 0;
    }

    method SetLastConfirmedTxBlock(blockNumber: nat)
      modifies this
      ensures lastConfirmedTxBlock == Max(old(lastConfirmedTxBlock), blockNumber)
    {
      if blockNumber > lastConfirmedTxBlock {
        lastConfirmedTxBlock := blockNumber;
      }
    }

    ghost predicate Valid() {
      state != optimisticState && state.nullifiers != optimisticState.nullifiers
    }

    ghost function Footprint(): set<object> {
      {state, state.nullifiers, optimisticState, optimisticState.nullifiers}
    }

    ghost function View(): Tiers
      reads Footprint()
    {
      Tiers(state.View(), optimisticState.View())
    }

    method AddTxToState(txHash: HexString, input: HexString, newPoolIndex: nat, message: HexString, target: Target,
                        blockNumber: nat)
      returns (ok: bool)
      requires Valid()
      modifies this, Footprint()
      ensures (View(), ok) == old(View()).AddTxToState(txHash, input, newPoolIndex, message, target)
      ensures lastConfirmedTxBlock == BlockAfterTx(old(lastConfirmedTxBlock), input, message, target, blockNumber)
    {
      hide Decode;
      var decoded := Decode(input, message);
      if decoded.Err? {
        return false;
      }
      if target == All && decoded.value.nullifier.Some? {
        SetLastConfirmedTxBlock(blockNumber);
      }
      ok := Record(decoded.value, txHash, newPoolIndex, target);
    }

    method Record(d: Decoded, txHash: HexString, newPoolIndex: nat, target: Target) returns (ok: bool)
      requires Valid()
      modifies Footprint()
      ensures (View(), ok) == old(View()).Record(d, txHash, newPoolIndex, target)
    {
      if target == All && d.nullifier.Some? {
        state.nullifiers.Add([d.nullifier.value]);
        assert state.nullifiers.members == old(state.nullifiers.members) + {d.nullifier.value};
      }
      ghost var p := View();
      assert target != All || d.nullifier.None? ==> p == old(View());
      if newPoolIndex < OUTPLUSONE {
        return false;
      }
      var prevCommitIndex := (newPoolIndex - OUTPLUSONE) / OUTPLUSONE;
      var prefixedMemo := PrefixedMemo(d.outCommit, txHash, d.memo);
      if target == All {
        state.UpdateState(prevCommitIndex, d.outCommit, prefixedMemo);
      }
      assert optimisticState.View() == p.optimistic;
      optimisticState.UpdateState(prevCommitIndex, d.outCommit, prefixedMemo);
      return true;
    }

    method PropagateOptimisticState(index: nat, blockNumber: nat) returns (ok: bool)
      requires Valid()
      modifies this, state
      ensures (View(), ok) == old(View()).PropagateOptimisticState(index)
      ensures lastConfirmedTxBlock
           == if ok then Max(old(lastConfirmedTxBlock), blockNumber) else old(lastConfirmedTxBlock)
    {
      var end := index / OUTPLUSONE;
      var opIndex := optimisticState.GetNextIndex() / OUTPLUSONE;
      var i := state.GetNextIndex() / OUTPLUSONE;
      if end > opIndex {
        return false;
      }
      while i < end
        invariant optimisticState.View() == old(optimisticState.View())
        invariant lastConfirmedTxBlock == old(lastConfirmedTxBlock)
        invariant state.nullifiers.members == old(state.nullifiers.members)
        invariant View().CopyUp(i, end) == old(View()).PropagateOptimisticState(index)
      {
        if Key(i) !in optimisticState.txs {
          return false;
        }
        var tx := optimisticState.txs[Key(i)];
        state.UpdateState(i, CommitmentOf(tx), tx);
        i := i + 1;
      }
      SetLastConfirmedTxBlock(blockNumber);
      return true;
    }

    method ClearOptimisticState()
      requires Valid()
      modifies optimisticState, optimisticState.nullifiers
      ensures View() == old(View()).ClearOptimisticState()
    {
      optimisticState.RollbackTo(state);
      optimisticState.nullifiers.Clear();
    }

    /** `onFailed`: a reverted transaction discards the optimistic tier. */
    method OnFailed()
      requires Valid()
      modifies optimisticState, optimisticState.nullifiers
      ensures View() == old(View()).ClearOptimisticState()
    {
      ClearOptimisticState();
    }
  }

  // ---------- What the operations do to the logs ----------

  /** The record that ends up in storage for a decoded transaction. */
  function StoredRecord(d: Decoded, txHash: HexString): HexString {
    Buffered(PrefixedMemo(d.outCommit, txHash, d.memo))
  }

  lemma StoredRecordIsStored(d: Decoded, txHash: HexString)
    requires d.outCommit < Pow16(WORD) && |txHash| == HASH
    ensures IsStored(StoredRecord(d, txHash)) && CommitmentOf(StoredRecord(d, txHash)) == d.outCommit
    ensures Buffered(StoredRecord(d, txHash)) == StoredRecord(d, txHash)
  {
    hide NumToHex, Value, Pow16;
    PrefixedMemoParts(d.outCommit, txHash, d.memo);
    var r := PrefixedMemo(d.outCommit, txHash, d.memo);
    assert Buffered(r)[..WORD] == r[..WORD];
  }

  /** Storing the digits of a record is storing the record. */
  lemma UpdateStored(t: Tier, i: nat, d: Decoded, txHash: HexString)
    ensures t.UpdateState(i, d.outCommit, PrefixedMemo(d.outCommit, txHash, d.memo))
         == t.UpdateState(i, d.outCommit, StoredRecord(d, txHash))
  {
    hide PrefixedMemo;
    BufferedTwice(PrefixedMemo(d.outCommit, txHash, d.memo));
  }

  lemma BufferedTwice(h: HexString)
    ensures Buffered(Buffered(h)) == Buffered(h)
  {
  }

  /** A transaction announced at the next free position extends the optimistic
      log; the confirmed log stays. */
  lemma AnnounceAppends(p: Tiers, log: seq<HexString>, c: nat, d: Decoded, txHash: HexString, index: nat)
    requires Mirrors(p, log, c) && d.outCommit < Pow16(WORD) && |txHash| == HASH
    requires index == Key(|log| + 1)
    ensures p.Record(d, txHash, index, Optimistic).1
    ensures Mirrors(p.Record(d, txHash, index, Optimistic).0, log + [StoredRecord(d, txHash)], c)
    ensures p.Record(d, txHash, index, Optimistic).0.confirmed == p.confirmed
  {
    hide Holds, CommitmentOf, IsStored, PrefixedMemo, Pow16;
    StoredRecordIsStored(d, txHash);
    AppendHolds(p.optimistic, log, d.outCommit, StoredRecord(d, txHash));
    UpdateStored(p.optimistic, |log|, d, txHash);
    assert (log + [StoredRecord(d, txHash)])[..c] == log[..c];
  }

  /** A transaction announced again at the position it already has changes nothing. */
  lemma AnnounceAgain(p: Tiers, log: seq<HexString>, c: nat, d: Decoded, txHash: HexString, i: nat)
    requires Mirrors(p, log, c) && d.outCommit < Pow16(WORD) && |txHash| == HASH
    requires i < |log| && log[i] == StoredRecord(d, txHash)
    ensures p.Record(d, txHash, Key(i + 1), Optimistic) == (p, true)
  {
    hide CommitmentOf, IsStored, PrefixedMemo, Pow16;
    StoredRecordIsStored(d, txHash);
    UpdateStored(p.optimistic, i, d, txHash);
    RewriteHolds(p.optimistic, log, i);
  }

  /** A transaction written to both tiers while they are equal. */
  lemma AddToBoth(p: Tiers, log: seq<HexString>, d: Decoded, txHash: HexString)
    requires Mirrors(p, log, |log|) && d.outCommit < Pow16(WORD) && |txHash| == HASH
    ensures var (p', ok) := p.Record(d, txHash, Key(|log| + 1), All);
            ok && Mirrors(p', log + [StoredRecord(d, txHash)], |log| + 1)
            && (d.nullifier.Some? ==> d.nullifier.value in p'.confirmed.nullifiers)
  {
    hide Holds, CommitmentOf, IsStored, PrefixedMemo, Pow16;
    StoredRecordIsStored(d, txHash);
    UpdateStored(p.optimistic, |log|, d, txHash);
    assert log[..|log|] == log;
    AppendHolds(p.optimistic, log, d.outCommit, StoredRecord(d, txHash));
    var confirmed := if d.nullifier.Some?
      then p.confirmed.(nullifiers := p.confirmed.nullifiers + {d.nullifier.value}) else p.confirmed;
    NullifiersApart(p.confirmed, log, confirmed.nullifiers);
    UpdateStored(confirmed, |log|, d, txHash);
    AppendHolds(confirmed, log, d.outCommit, StoredRecord(d, txHash));
    var log' := log + [StoredRecord(d, txHash)];
    assert log'[..|log'|] == log';
  }

  /** Copying records up confirms a longer prefix of the same log. */
  lemma {:induction false} CopyUpMirrors(p: Tiers, log: seq<HexString>, c: nat, end: nat)
    requires Mirrors(p, log, c) && c <= end <= |log|
    ensures p.CopyUp(c, end).1 && Mirrors(p.CopyUp(c, end).0, log, end)
    ensures p.CopyUp(c, end).0.optimistic == p.optimistic
    decreases end - c
  {
    hide Holds, CommitmentOf, IsStored;
    if c < end {
      RecordAt(p.optimistic, log, c);
      AppendHolds(p.confirmed, log[..c], CommitmentOf(log[c]), log[c]);
      assert log[..c] + [log[c]] == log[..c + 1];
      CopyUpMirrors(p.(confirmed := p.confirmed.UpdateState(c, CommitmentOf(log[c]), log[c])), log, c + 1, end);
    }
  }

  /** `propagateOptimisticState(k)` makes the confirmed log equal to the
      optimistic one up to `max(old length, k)`, or refuses without a change
      when `k` lies past the optimistic log. */
  lemma PropagateMirrors(p: Tiers, log: seq<HexString>, c: nat, index: nat)
    requires Mirrors(p, log, c)
    ensures var (p', ok) := p.PropagateOptimisticState(index);
            var k := index / OUTPLUSONE;
            && (ok <==> k <= |log|)
            && (ok ==> Mirrors(p', log, if c < k then k else c) && p'.optimistic == p.optimistic)
            && (k <= c || !ok ==> p' == p)
  {
    var k := index / OUTPLUSONE;
    if c <= k <= |log| {
      CopyUpMirrors(p, log, c, k);
    }
  }

  /** A rollback makes the two logs, and so the two roots and next indices,
      equal, keeps every confirmed record and forgets every other one. */
  lemma ClearRestores(p: Tiers, log: seq<HexString>, c: nat)
    requires Mirrors(p, log, c)
    ensures var p' := p.ClearOptimisticState();
            && Mirrors(p', log[..c], c)
            && p'.confirmed == p.confirmed
            && p'.optimistic == p.confirmed.(nullifiers := {})
  {
    RollbackHolds(p.optimistic, log, c);
    var p' := p.ClearOptimisticState();
    assert Holds(p'.optimistic, log[..c]);
    assert log[..c][..c] == log[..c];
    HoldsUnique(p'.optimistic, p.confirmed.(nullifiers := {}), log[..c]);
  }

  /** Equal logs have equal roots, whatever the hash: the assertion that
      `clearOptimisticState` logs holds. */
  lemma ClearedRootsAgree(p: Tiers, log: seq<HexString>, c: nat, rootOf: seq<nat> -> nat)
    requires Mirrors(p, log, c)
    ensures var p' := p.ClearOptimisticState();
            && rootOf(p'.confirmed.leaves) == rootOf(p'.optimistic.leaves)
            && p'.confirmed.NextIndex() == p'.optimistic.NextIndex()
  {
    ClearRestores(p, log, c);
  }

  // ---------- What one operation stores ----------

  /** Commitment and record stand at position `i`, everything else is as it was. */
  predicate Writes(t: Tier, t': Tier, i: nat, outCommit: nat, txHash: HexString, memo: HexString) {
    && |t'.leaves| == Max(|t.leaves|, i + 1) && t'.leaves[i] == outCommit
    && (forall j | 0 <= j < |t.leaves| && j != i :: t'.leaves[j] == t.leaves[j])
    && 128 * i in t'.txs && Carries(t'.txs[128 * i], outCommit, txHash, memo)
    && t'.txs - {128 * i} == t.txs - {128 * i}
  }

  lemma UpdateWrites(t: Tier, i: nat, outCommit: nat, txHash: HexString, memo: HexString)
    requires outCommit < Pow16(WORD) && |txHash| == HASH
    ensures Writes(t, t.UpdateState(i, outCommit, PrefixedMemo(outCommit, txHash, memo)), i, outCommit, txHash, memo)
  {
    hide PrefixedMemo, Carries, Pow16, Buffered, Put;
    StoredCarries(outCommit, txHash, memo);
    PutIs(t.leaves, i, outCommit);
    var t' := t.UpdateState(i, outCommit, PrefixedMemo(outCommit, txHash, memo));
    assert t'.txs - {128 * i} == t.txs - {128 * i};
  }

  lemma WritesApart(t: Tier, u: Tier, t': Tier, i: nat, outCommit: nat, txHash: HexString, memo: HexString)
    requires Writes(u, t', i, outCommit, txHash, memo) && u.leaves == t.leaves && u.txs == t.txs
    ensures Writes(t, t', i, outCommit, txHash, memo)
  {
  }

  /** A decoded transaction, whatever the tiers hold: an index of at least 128 puts it
      one position lower, into both tiers unless it is only announced; a smaller index
      is refused without a write. A mined one is remembered by its nullifier first. */
  lemma RecordStores(p: Tiers, d: Decoded, txHash: HexString, index: nat, target: Target)
    requires d.outCommit < Pow16(WORD) && |txHash| == HASH
    ensures var (p', ok) := p.Record(d, txHash, index, target);
            && (ok <==> index >= 128)
            && (ok ==> Writes(p.optimistic, p'.optimistic, index / 128 - 1, d.outCommit, txHash, d.memo))
            && (ok && target == All ==>
                  Writes(p.confirmed, p'.confirmed, index / 128 - 1, d.outCommit, txHash, d.memo))
            && (!ok ==> p'.optimistic == p.optimistic)
            && (!ok || target == Optimistic ==>
                  p'.confirmed.leaves == p.confirmed.leaves && p'.confirmed.txs == p.confirmed.txs)
            && p'.optimistic.nullifiers == p.optimistic.nullifiers
            && p'.confirmed.nullifiers
               == p.confirmed.nullifiers + if target == All && d.nullifier.Some? then {d.nullifier.value} else {}
  {
    hide Writes, PrefixedMemo, Pow16, Put, Buffered;
    if index >= 128 {
      assert (index - 128) / 128 == index / 128 - 1;
      UpdateWrites(p.optimistic, index / 128 - 1, d.outCommit, txHash, d.memo);
      var confirmed := if d.nullifier.Some?
        then p.confirmed.(nullifiers := p.confirmed.nullifiers + {d.nullifier.value}) else p.confirmed;
      UpdateWrites(confirmed, index / 128 - 1, d.outCommit, txHash, d.memo);
      WritesApart(p.confirmed, confirmed, confirmed.UpdateState(index / 128 - 1, d.outCommit,
        PrefixedMemo(d.outCommit, txHash, d.memo)), index / 128 - 1, d.outCommit, txHash, d.memo);
    }
  }

  /** A direct deposit is logged with its own commitment and the memo of its event. */
  lemma DepositIsStored(p: Tiers, txHash: HexString, w0: HexString, w1: HexString, w2: HexString, rest: HexString,
                        index: nat, message: HexString, target: Target)
    requires |w0| == |w1| == |w2| == 64 && |txHash| == HASH && index >= 128
    ensures var (p', ok) := p.AddTxToState(txHash, [14, 6, 11, 1, 4, 2, 7, 2] + w0 + w1 + rest, index, message, target);
            ok && Writes(p.optimistic, p'.optimistic, index / 128 - 1, Value(w1), txHash, message)
    ensures var (p', ok) := p.AddTxToState(txHash, [1, 13, 12, 4, 12, 11, 3, 3] + w0 + w1 + w2 + rest, index, message,
                                           target);
            ok && Writes(p.optimistic, p'.optimistic, index / 128 - 1, Value(w2), txHash, message)
  {
    DepositCommitment(w0, w1, w2, rest, message);
    hide Decode, Value, Pow16, Tiers.Record, Writes;
    RecordStores(p, Decoded(Value(w1), message, None), txHash, index, target);
    RecordStores(p, Decoded(Value(w2), message, None), txHash, index, target);
  }

  /** Calldata that cannot be decoded leaves the tiers as they are. */
  lemma UndecodedIsRefused(p: Tiers, txHash: HexString, input: HexString, index: nat, message: HexString,
                           target: Target)
    requires Decode(input, message).Err?
    ensures p.AddTxToState(txHash, input, index, message, target) == (p, false)
  {
  }

  /** The block that is remembered: a mined `transact` call moves it up to its own
      block, never down; a deposit or an announcement does not move it. */
  lemma BlockMoves(saved: nat, tx: UserTx, rootAfter: nat, treeProof: seq<nat>, message: HexString, block: nat)
    requires InRange(tx) && rootAfter < Pow16(WORD) && IsProof(treeProof)
    ensures BlockAfterTx(saved, BuildV1(tx, rootAfter, treeProof), message, All, block)
         == BlockAfterTx(saved, BuildV2(tx), message, All, block) == if block > saved then block else saved
  {
    hide Decode, InRange, IsProof, BuildV1, BuildV2, TruncateMemo, Pow16;
    DecodeBuildV1(tx, rootAfter, treeProof, message);
    DecodeBuildV2(tx, message);
  }

  lemma BlockStays(saved: nat, w0: HexString, w1: HexString, w2: HexString, rest: HexString, input: HexString,
                   message: HexString, target: Target, block: nat)
    requires |w0| == |w1| == |w2| == 64
    ensures BlockAfterTx(saved, [14, 6, 11, 1, 4, 2, 7, 2] + w0 + w1 + rest, message, target, block) == saved
    ensures BlockAfterTx(saved, [1, 13, 12, 4, 12, 11, 3, 3] + w0 + w1 + w2 + rest, message, target, block) == saved
    ensures BlockAfterTx(saved, input, message, Optimistic, block) == saved
  {
    DepositCommitment(w0, w1, w2, rest, message);
  }

  /** Copying stops at the first record that is missing; the ones before it stay. */
  lemma {:induction false} CopyUpStops(p: Tiers, i: nat, end: nat) returns (k: nat)
    requires i <= end
    ensures i <= k <= end && (forall j | i <= j < k :: 128 * j in p.optimistic.txs)
    ensures k < end ==> 128 * k !in p.optimistic.txs
    ensures p.CopyUp(i, k).1 && p.CopyUp(i, end) == (p.CopyUp(i, k).0, k == end)
    decreases end - i
  {
    k := i;
    if i < end && 128 * i in p.optimistic.txs {
      var tx := p.optimistic.txs[128 * i];
      k := CopyUpStops(p.(confirmed := p.confirmed.UpdateState(i, CommitmentOf(tx), tx)), i + 1, end);
    }
  }
}
