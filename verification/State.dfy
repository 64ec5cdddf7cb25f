/** One tier of the pool: the tree of commitments, the stored records and the
    nullifiers (`PoolState.ts`, `nullifierSet.ts`). */
module State {

  import opened Hex
  import opened Records

  /** Leaves below one commitment. */
  const OUTPLUSONE: nat := 128

  const EMPTY_LEAF: nat := 0

  function Key(i: nat): nat {
    i * OUTPLUSONE
  }

  /** Writing past the end leaves empty leaves behind, as the sparse tree does. */
  function Put(leaves: seq<nat>, i: nat, commit: nat): seq<nat> {
    if i < |leaves| then leaves[i := commit]
    else leaves + seq(i - |leaves|, j => EMPTY_LEAF) + [commit]
  }

  /** Keys of the records of the positions from `from` up to `to`. */
  predicate KeyFrom(k: nat, from: nat, to: nat) {
    Key(from) <= k < Key(to) && k % OUTPLUSONE == 0
  }

  /** The Merkle root is taken to be collision-free where equal roots must mean
      equal logs. */
  ghost predicate Injective(rootOf: seq<nat> -> nat) {
    forall a, b :: rootOf(a) == rootOf(b) ==> a == b
  }

  datatype Page = Page(txs: seq<HexString>, nextOffset: nat)

  /** Consecutive records from `offset` on, at most `limit`. */
  function RecordsFrom(txs: map<nat, HexString>, limit: nat, offset: nat): (rs: seq<HexString>)
    ensures |rs| <= limit
  {
    if limit == 0 || offset !in txs then [] else [txs[offset]] + RecordsFrom(txs, limit - 1, offset + OUTPLUSONE)
  }

  /** The value of a tier and what the operations make of it. */
  datatype Tier = Tier(leaves: seq<nat>, txs: map<nat, HexString>, nullifiers: set<nat>) {

    function NextIndex(): nat {
      Key(|leaves|)
    }

    function UpdateState(i: nat, outCommit: nat, txData: HexString): Tier {
      this.(leaves := Put(leaves, i, outCommit), txs := txs[Key(i) := Buffered(txData)])
    }

    function RollbackTo(length: nat): Tier {
      if length < |leaves| then
        this.(leaves := leaves[..length], txs := map k | k in txs && !KeyFrom(k, length, |leaves|) :: txs[k])
      else this
    }

    function Wiped(): Tier {
      Tier([], map k | k in txs && !KeyFrom(k, 0, |leaves|) :: txs[k], {})
    }

    /** The returned offset is the last one that was tried. */
    function GetTransactions(limit: nat, offset: nat): Page {
      var start := offset / OUTPLUSONE * OUTPLUSONE;
      var found := RecordsFrom(txs, limit, start);
      Page(found, start + Key(if |found| < limit || limit == 0 then |found| else limit - 1))
    }
  }

  const EMPTY_TIER: Tier := Tier([], map[], {})

  /** The tier stores exactly the log `log` of records: one commitment and one
      record for every entry, and no other key. */
  ghost predicate Holds(t: Tier, log: seq<HexString>) {
    && |t.leaves| == |log|
    && (forall k :: k in t.txs <==> KeyFrom(k, 0, |log|))
    && (forall i | 0 <= i < |log| :: IsStored(log[i]) && t.leaves[i] == CommitmentOf(log[i]) && t.txs[Key(i)] == log[i])
  }

  /** The commitments that a log's records start with. */
  function Commitments(log: seq<HexString>): (cs: seq<nat>)
    ensures |cs| == |log|
  {
    seq(|log|, i requires 0 <= i < |log| => CommitmentOf(log[i]))
  }

  /** A record as it comes back from the byte storage. */
  predicate IsStored(record: HexString) {
    IsRecord(record) && |record| % 2 == 0
  }

  class NullifierSet {
    var members: set<nat>

    constructor ()
      ensures members == {}
    {
      members := {};
    }

    method Add(nullifiers: seq<nat>)
      modifies this
      ensures members == old(members) + set n | n in nullifiers
    {
      if |nullifiers| == 0 { return; }
      members := members + set n | n in nullifiers;
    }

    method Remove(nullifiers: seq<nat>)
      modifies this
      ensures members == old(members) - set n | n in nullifiers
    {
      if |nullifiers| == 0 { return; }
      members := members - set n | n in nullifiers;
    }

    method IsInSet(nullifier: nat) returns (found: bool)
      ensures found <==> nullifier in members
    {
      found := nullifier in members;
    }

    method Clear()
      modifies this
      ensures members == {}
    {
      members := {};
    }
  }

  class PoolState {
    /** The Merkle root of a log of commitments; nothing is known about it. */
    const rootOf: seq<nat> -> nat
    const nullifiers: NullifierSet
    var leaves: seq<nat>
    var txs: map<nat, HexString>

    constructor (rootOf: seq<nat> -> nat)
      ensures View() == EMPTY_TIER && this.rootOf == rootOf && fresh(nullifiers)
    {
      this.rootOf := rootOf;
      nullifiers := new NullifierSet();
      leaves, txs := [], map[];
    }

    ghost function View(): Tier
      reads this, nullifiers
    {
      Tier(leaves, txs, nullifiers.members)
    }

    function GetNextIndex(): nat
      reads this
    {
      Key(|leaves|)
    }

    function GetMerkleRoot(): nat
      reads this
    {
      rootOf(leaves)
    }

    function GetCommitment(i: nat): nat
      reads this
    {
      if i < |leaves| then leaves[i] else EMPTY_LEAF
    }

    /** The public inputs of the tree proof for the next free position. */
    method GetVirtualTreeProofInputs(outCommit: nat) returns (rootBefore: nat, rootAfter: nat, commitIndex: nat)
      ensures rootBefore == rootOf(leaves) && rootAfter == rootOf(leaves + [outCommit]) && commitIndex == |leaves|
    {
      var transferNum := GetNextIndex();
      commitIndex := transferNum / OUTPLUSONE;
      rootBefore := rootOf(leaves);
      rootAfter := rootOf(leaves[..commitIndex] + [outCommit]);
      assert leaves[..commitIndex] == leaves;
    }

    method AddCommitment(i: nat, commit: nat)
      modifies this`leaves
      ensures leaves == Put(old(leaves), i, commit)
    {
      leaves := Put(leaves, i, commit);
    }

    method AddTx(key: nat, tx: HexString)
      modifies this`txs
      ensures txs == old(txs)[key := tx]
    {
      txs := txs[key := tx];
    }

    method UpdateState(commitIndex: nat, outCommit: nat, txData: HexString)
      modifies this
      ensures View() == old(View()).UpdateState(commitIndex, outCommit, txData)
    {
      AddCommitment(commitIndex, outCommit);
      AddTx(Key(commitIndex), Buffered(txData));
    }

    /** Deletes the records at the keys `from`, `from + OUTPLUSONE`, ... below `to`. */
    method DeleteRecords(from: nat, to: nat)
      modifies this`txs
      ensures txs == map k | k in old(txs) && !KeyFrom(k, from, to) :: old(txs)[k]
    {
      var i, end := Key(from), Key(to);
      while i < end
        invariant Key(from) <= i && i % OUTPLUSONE == 0
        invariant txs == map k | k in old(txs) && !(Key(from) <= k < i && k < end && k % OUTPLUSONE == 0) :: old(txs)[k]
      {
        txs := txs - {i};
        i := i + OUTPLUSONE;
      }
    }

    method RollbackTo(other: PoolState)
      modifies this
      ensures View() == old(View()).RollbackTo(|old(other.leaves)|)
    {
      var stateNextIndex, otherStateNextIndex := GetNextIndex(), other.GetNextIndex();
      if !(otherStateNextIndex < stateNextIndex) {
        return;
      }
      var from, to := |other.leaves|, |leaves|;
      leaves := leaves[..otherStateNextIndex / OUTPLUSONE];
      DeleteRecords(from, to);
    }

    method Wipe()
      modifies this, nullifiers
      ensures View() == old(View()).Wiped()
    {
      var stateNextIndex := |leaves|;
      leaves := [];
      DeleteRecords(0, stateNextIndex);
      nullifiers.Clear();
    }

    method GetTransactions(limit: nat, offset: nat) returns (page: Page)
      ensures page == View().GetTransactions(limit, offset)
    {
      var start := offset / OUTPLUSONE * OUTPLUSONE;
      var found: seq<HexString>, nextOffset := [], start;
      var i := 0;
      while i < limit
        invariant 0 <= i <= limit && |found| == i
        invariant nextOffset == start + Key(if i == 0 then 0 else i - 1)
        invariant RecordsFrom(txs, limit, start) == found + RecordsFrom(txs, limit - i, start + i * OUTPLUSONE)
      {
        nextOffset := start + i * OUTPLUSONE;
        if nextOffset in txs {
          found := found + [txs[nextOffset]];
        } else {
          break;
        }
        i := i + 1;
      }
      page := Page(found, nextOffset);
    }
  }

  // ---------- A tier as a log ----------

  /** A tier is determined by its log and its nullifiers. */
  lemma HoldsUnique(a: Tier, b: Tier, log: seq<HexString>)
    requires Holds(a, log) && Holds(b, log) && a.nullifiers == b.nullifiers
    ensures a == b
  {
    assert a.leaves == b.leaves;
    forall k | k in a.txs
      ensures a.txs[k] == b.txs[k]
    {
      assert Key(k / OUTPLUSONE) == k;
      assert a.txs[Key(k / OUTPLUSONE)] == log[k / OUTPLUSONE];
    }
    assert a.txs == b.txs;
  }

  /** Appending a record at the next free position. */
  lemma AppendHolds(t: Tier, log: seq<HexString>, outCommit: nat, record: HexString)
    requires Holds(t, log) && IsStored(record) && CommitmentOf(record) == outCommit
    ensures Holds(t.UpdateState(|log|, outCommit, record), log + [record])
  {
    hide CommitmentOf, IsStored, Buffered;
    var t' := t.UpdateState(|log|, outCommit, record);
    var log' := log + [record];
    AppendParts(t, |log|, outCommit, record);
    forall k
      ensures k in t'.txs <==> KeyFrom(k, 0, |log'|)
    {
      assert k in t.txs <==> KeyFrom(k, 0, |log|);
    }
    forall i | 0 <= i < |log'|
      ensures IsStored(log'[i]) && t'.leaves[i] == CommitmentOf(log'[i]) && t'.txs[Key(i)] == log'[i]
    {
      if i < |log| {
        RecordAt(t, log, i);
      }
    }
  }

  /** The leaves and the records that `updateState` adds at the end. */
  lemma AppendParts(t: Tier, n: nat, outCommit: nat, record: HexString)
    requires |t.leaves| == n && IsStored(record)
    ensures t.UpdateState(n, outCommit, record).leaves == t.leaves + [outCommit]
    ensures t.UpdateState(n, outCommit, record).txs == t.txs[Key(n) := record]
  {
    hide CommitmentOf;
    assert Buffered(record) == record;
  }

  lemma NullifiersApart(t: Tier, log: seq<HexString>, ns: set<nat>)
    requires Holds(t, log)
    ensures Holds(t.(nullifiers := ns), log)
  {
  }

  /** Writing again what a position already holds changes nothing. */
  lemma RewriteHolds(t: Tier, log: seq<HexString>, i: nat)
    requires Holds(t, log) && i < |log|
    ensures t.UpdateState(i, CommitmentOf(log[i]), log[i]) == t
  {
    hide Holds, CommitmentOf;
    RecordAt(t, log, i);
    assert Buffered(log[i]) == log[i];
    assert t.txs[Key(i) := log[i]] == t.txs;
    assert t.leaves[i := t.leaves[i]] == t.leaves;
  }

  /** Replacing a record by another one of the same commitment. */
  lemma ReplaceHolds(t: Tier, log: seq<HexString>, i: nat, record: HexString)
    requires Holds(t, log) && i < |log| && IsStored(record) && CommitmentOf(record) == t.leaves[i]
    ensures Holds(t.(txs := t.txs[Key(i) := record]), log[i := record])
  {
    hide CommitmentOf, IsStored;
    var t', log' := t.(txs := t.txs[Key(i) := record]), log[i := record];
    RecordAt(t, log, i);
    forall k
      ensures k in t'.txs <==> KeyFrom(k, 0, |log'|)
    {
      assert k in t.txs <==> KeyFrom(k, 0, |log|);
    }
    forall j | 0 <= j < |log'|
      ensures IsStored(log'[j]) && t'.leaves[j] == CommitmentOf(log'[j]) && t'.txs[Key(j)] == log'[j]
    {
      RecordAt(t, log, j);
    }
  }

  /** Rolling back keeps the records below the cut and drops the others. */
  lemma RollbackHolds(t: Tier, log: seq<HexString>, length: nat)
    requires Holds(t, log) && length <= |log|
    ensures Holds(t.RollbackTo(length), log[..length])
  {
  }

  lemma RecordAt(t: Tier, log: seq<HexString>, i: nat)
    requires Holds(t, log)
    ensures |t.leaves| == |log|
    ensures Key(i) in t.txs <==> i < |log|
    ensures i < |log| ==> t.txs[Key(i)] == log[i] && t.leaves[i] == CommitmentOf(log[i]) && IsStored(log[i])
  {
    hide CommitmentOf, IsStored;
    assert KeyFrom(Key(i), 0, |log|) <==> i < |log|;
  }

  /** Reading records is slicing the log. */
  lemma {:induction false} RecordsAreSlice(t: Tier, log: seq<HexString>, limit: nat, i: nat)
    requires Holds(t, log) && i <= |log|
    ensures RecordsFrom(t.txs, limit, Key(i)) == log[i..if limit <= |log| - i then i + limit else |log|]
    decreases limit
  {
    hide Holds;
    RecordAt(t, log, i);
    if limit > 0 && i < |log| {
      RecordsAreSlice(t, log, limit - 1, i + 1);
      assert Key(i) + OUTPLUSONE == Key(i + 1);
    }
  }

  // ---------- One operation on any tier ----------

  /** Writing one leaf: the others stay, and a gap is filled with zeros. */
  lemma PutIs(leaves: seq<nat>, i: nat, commit: nat)
    ensures var r := Put(leaves, i, commit);
            && |r| == (if i < |leaves| then |leaves| else i + 1) && r[i] == commit
            && (forall j | 0 <= j < |leaves| && j != i :: r[j] == leaves[j])
            && forall j | |leaves| <= j < i :: r[j] == 0
  {
  }

  /** A rollback to a longer tier does nothing; any other one cuts the leaves and
      forgets exactly the records of the positions it cuts. */
  lemma RollbackForgets(t: Tier, length: nat)
    ensures length >= |t.leaves| ==> t.RollbackTo(length) == t
    ensures var t' := t.RollbackTo(length);
            length < |t.leaves| ==>
              && t'.leaves == t.leaves[..length] && t'.nullifiers == t.nullifiers
              && (forall k | k in t'.txs :: k in t.txs && t'.txs[k] == t.txs[k])
              && forall k | k in t.txs ::
                   k in t'.txs <==> forall j | length <= j < |t.leaves| :: k != 128 * j
  {
    forall k | k in t.txs
      ensures KeyFrom(k, length, |t.leaves|) <==> exists j | length <= j < |t.leaves| :: k == 128 * j
    {
      if KeyFrom(k, length, |t.leaves|) {
        assert k == 128 * (k / 128) && length <= k / 128 < |t.leaves|;
      }
    }
  }

  lemma {:induction false} RecordsUpToMissing(txs: map<nat, HexString>, limit: nat, offset: nat)
    ensures var rs := RecordsFrom(txs, limit, offset);
            && (forall i | 0 <= i < |rs| :: offset + 128 * i in txs && rs[i] == txs[offset + 128 * i])
            && (|rs| < limit ==> offset + 128 * |rs| !in txs)
    decreases limit
  {
    if limit > 0 && offset in txs {
      RecordsUpToMissing(txs, limit - 1, offset + 128);
      var rest := RecordsFrom(txs, limit - 1, offset + 128);
      forall i | 0 <= i < |rest| + 1
        ensures offset + 128 * i in txs && ([txs[offset]] + rest)[i] == txs[offset + 128 * i]
      {
        assert i > 0 ==> offset + 128 + 128 * (i - 1) in txs && rest[i - 1] == txs[offset + 128 + 128 * (i - 1)];
      }
    }
  }

  /** Reading takes the records from the rounded offset up to the first one that is
      missing, or up to the limit, and returns the offset it tried last. */
  lemma ReadsUpToMissing(t: Tier, limit: nat, offset: nat)
    ensures var page, start := t.GetTransactions(limit, offset), offset - offset % 128;
            && |page.txs| <= limit
            && (forall i | 0 <= i < |page.txs| ::
                  start + 128 * i in t.txs && page.txs[i] == t.txs[start + 128 * i])
            && (|page.txs| < limit ==> page.nextOffset == start + 128 * |page.txs| && page.nextOffset !in t.txs)
            && (|page.txs| == limit > 0 ==> page.nextOffset == start + 128 * (limit - 1))
  {
    assert offset / OUTPLUSONE * OUTPLUSONE == offset - offset % 128;
    RecordsUpToMissing(t.txs, limit, offset - offset % 128);
    hide RecordsFrom;
  }
}
