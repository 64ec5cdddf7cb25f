/** The pool that proves its own tree updates: every transaction is built on the
    optimistic log, and its proof is only good for that log (`DefaultPool.ts`). */
module DefaultPool {

  import opened Hex
  import opened Outcome
  import opened Records
  import opened Calldata
  import opened State
  import opened Pool

  /** A validated user transaction: commitment, nullifier (none for direct
      deposits) and the memo without its prefix. */
  datatype NewTx = NewTx(outCommit: nat, nullifier: Option<nat>, memo: HexString)

  /** What `buildNormalTx` hands to the workers. */
  datatype ProcessResult = ProcessResult(tx: NewTx, commitIndex: nat, root: nat)

  predicate IsHash(h: HexString) {
    |h| == HASH
  }

  function NullifierSetOf(tx: NewTx): set<nat> {
    if tx.nullifier.Some? then {tx.nullifier.value} else {}
  }

  function RecordOf(tx: NewTx, txHash: HexString): HexString {
    PrefixedMemo(tx.outCommit, txHash, tx.memo)
  }

  function AfterSend(p: Tiers, r: ProcessResult, txHash: HexString): Tiers {
    var optimistic := p.optimistic.UpdateState(r.commitIndex, r.tx.outCommit, RecordOf(r.tx, txHash));
    p.(optimistic := optimistic.(nullifiers := optimistic.nullifiers + NullifierSetOf(r.tx)))
  }

  function AfterConfirm(p: Tiers, r: ProcessResult, txHash: HexString): Tiers {
    var confirmed := p.confirmed.UpdateState(r.commitIndex, r.tx.outCommit, RecordOf(r.tx, txHash));
    Tiers(
      confirmed.(nullifiers := confirmed.nullifiers + NullifierSetOf(r.tx)),
      p.optimistic.(
        txs := p.optimistic.txs[Key(r.commitIndex) := Buffered(RecordOf(r.tx, txHash))],
        nullifiers := p.optimistic.nullifiers - NullifierSetOf(r.tx)))
  }

  /** A send writes one position of the optimistic tier and nothing else. */
  lemma SendWrites(p: Tiers, r: ProcessResult, txHash: HexString)
    requires r.tx.outCommit < Pow16(WORD) && IsHash(txHash)
    ensures var p' := AfterSend(p, r, txHash);
            && Writes(p.optimistic, p'.optimistic, r.commitIndex, r.tx.outCommit, txHash, r.tx.memo)
            && p'.optimistic.nullifiers == p.optimistic.nullifiers + NullifierSetOf(r.tx)
            && p'.confirmed == p.confirmed
  {
    hide Pow16, PrefixedMemo, Carries, Put, Buffered;
    UpdateWrites(p.optimistic, r.commitIndex, r.tx.outCommit, txHash, r.tx.memo);
  }

  /** A confirmation writes the same position of the confirmed tier, with the hash that
      was mined, and puts that record into the optimistic tier too; the nullifier moves. */
  lemma ConfirmWrites(p: Tiers, r: ProcessResult, txHash: HexString)
    requires r.tx.outCommit < Pow16(WORD) && IsHash(txHash)
    ensures var p', k := AfterConfirm(p, r, txHash), 128 * r.commitIndex;
            && Writes(p.confirmed, p'.confirmed, r.commitIndex, r.tx.outCommit, txHash, r.tx.memo)
            && p'.confirmed.nullifiers == p.confirmed.nullifiers + NullifierSetOf(r.tx)
            && p'.optimistic.leaves == p.optimistic.leaves
            && k in p'.optimistic.txs && Carries(p'.optimistic.txs[k], r.tx.outCommit, txHash, r.tx.memo)
            && p'.optimistic.txs - {k} == p.optimistic.txs - {k}
            && p'.optimistic.nullifiers == p.optimistic.nullifiers - NullifierSetOf(r.tx)
  {
    hide Pow16, PrefixedMemo, Carries, Put, Buffered;
    UpdateWrites(p.confirmed, r.commitIndex, r.tx.outCommit, txHash, r.tx.memo);
    StoredCarries(r.tx.outCommit, txHash, r.tx.memo);
  }

  function LeafAt(leaves: seq<nat>, i: nat): nat {
    if i < |leaves| then leaves[i] else EMPTY_LEAF
  }

  /** The nullifier checks of `validateNormalTx`. */
  predicate NullifierIsFree(p: Tiers, tx: NewTx) {
    NullifierSetOf(tx) !! p.confirmed.nullifiers && NullifierSetOf(tx) !! p.optimistic.nullifiers
  }

  class DefaultPool {
    const base: BasePool

    constructor (base: BasePool)
      ensures this.base == base
    {
      this.base := base;
    }

    method CheckNullifier(tx: NewTx) returns (ok: bool)
      ensures ok <==> NullifierIsFree(base.View(), tx)
    {
      ok := true;
      if tx.nullifier.Some? {
        var spent := base.state.nullifiers.IsInSet(tx.nullifier.value);
        var pending := base.optimisticState.nullifiers.IsInSet(tx.nullifier.value);
        ok := !spent && !pending;
      }
    }

    /** Built on the optimistic log, with the root that log would get. */
    method BuildNormalTx(tx: NewTx) returns (r: ProcessResult)
      ensures var leaves := base.optimisticState.leaves;
              r == ProcessResult(tx, |leaves|, base.optimisticState.rootOf(leaves + [tx.outCommit]))
    {
      var _, rootAfter, commitIndex := base.optimisticState.GetVirtualTreeProofInputs(tx.outCommit);
      r := ProcessResult(tx, commitIndex, rootAfter);
    }

    method OnSend(r: ProcessResult, txHash: HexString)
      requires base.Valid()
      modifies base.optimisticState, base.optimisticState.nullifiers
      ensures base.View() == AfterSend(old(base.View()), r, txHash)
    {
      var prefixedMemo := PrefixedMemo(r.tx.outCommit, txHash, r.tx.memo);
      base.optimisticState.UpdateState(r.commitIndex, r.tx.outCommit, prefixedMemo);
      if r.tx.nullifier.Some? {
        base.optimisticState.nullifiers.Add([r.tx.nullifier.value]);
      }
      assert base.optimisticState.nullifiers.members
             == old(base.optimisticState.nullifiers.members) + NullifierSetOf(r.tx);
    }

    /** Returns the two comparisons whose failure the source logs as corruption. */
    method OnConfirmed(r: ProcessResult, txHash: HexString) returns (commitmentsEqual: bool, rootsEqual: bool)
      requires base.Valid()
      modifies base.Footprint()
      ensures base.View() == AfterConfirm(old(base.View()), r, txHash)
      ensures commitmentsEqual
              == (LeafAt(base.state.leaves, r.commitIndex) == LeafAt(base.optimisticState.leaves, r.commitIndex))
      ensures rootsEqual == (base.state.rootOf(base.state.leaves) == r.root)
    {
      var prefixedMemo := PrefixedMemo(r.tx.outCommit, txHash, r.tx.memo);
      base.state.UpdateState(r.commitIndex, r.tx.outCommit, prefixedMemo);
      base.optimisticState.AddTx(Key(r.commitIndex), Buffered(prefixedMemo));
      if r.tx.nullifier.Some? {
        base.state.nullifiers.Add([r.tx.nullifier.value]);
        base.optimisticState.nullifiers.Remove([r.tx.nullifier.value]);
      }
      assert base.state.nullifiers.members == old(base.state.nullifiers.members) + NullifierSetOf(r.tx);
      assert base.optimisticState.nullifiers.members
             == old(base.optimisticState.nullifiers.members) - NullifierSetOf(r.tx);
      var node1 := base.state.GetCommitment(r.commitIndex);
      var node2 := base.optimisticState.GetCommitment(r.commitIndex);
      commitmentsEqual := node1 == node2;
      rootsEqual := base.state.GetMerkleRoot() == r.root;
    }
  }

  // ---------- Runs: any number of jobs in flight ----------

  /** A sent job, with the log it was built on and the hash it was sent as. */
  datatype Flight = Flight(result: ProcessResult, builtOn: seq<nat>, txHash: HexString)

  /** `reverting` says that some job reverted and others sent before are still in
      flight. `settled` are the confirmed jobs, oldest first, `hashes` what they were
      mined as. */
  datatype Pipeline = Pipeline(
    pool: Tiers, queue: seq<Flight>, settled: seq<NewTx>, hashes: seq<HexString>, reverting: bool)

  datatype Action =
    | Accept(tx: NewTx, txHash: HexString)
    | Confirm(minedHash: HexString)
    | Revert

  /** The contract takes a tree update only for the log it holds. */
  predicate ContractAccepts(rootOf: seq<nat> -> nat, leaves: seq<nat>, r: ProcessResult) {
    r.root == rootOf(leaves + [r.tx.outCommit])
  }

  /** New jobs are held back while a revert drains; a job sent before the revert
      is mined as successful only if the contract takes it. */
  predicate Enabled(rootOf: seq<nat> -> nat, s: Pipeline, a: Action): (enabled: bool)
    ensures enabled ==> a.Accept? || |s.queue| > 0
  {
    match a
    case Accept(tx, txHash) =>
      !s.reverting && NullifierIsFree(s.pool, tx) && tx.outCommit < Pow16(WORD) && IsHash(txHash)
    case Confirm(minedHash) =>
      |s.queue| > 0 && IsHash(minedHash)
      && (s.reverting ==> ContractAccepts(rootOf, s.pool.confirmed.leaves, s.queue[0].result))
    case Revert => |s.queue| > 0
  }

  function Build(rootOf: seq<nat> -> nat, p: Tiers, tx: NewTx): ProcessResult {
    ProcessResult(tx, |p.optimistic.leaves|, rootOf(p.optimistic.leaves + [tx.outCommit]))
  }

  function Step(rootOf: seq<nat> -> nat, s: Pipeline, a: Action): Pipeline
    requires a.Accept? || |s.queue| > 0
  {
    match a
    case Accept(tx, txHash) =>
      var r := Build(rootOf, s.pool, tx);
      s.(pool := AfterSend(s.pool, r, txHash), queue := s.queue + [Flight(r, s.pool.optimistic.leaves, txHash)])
    case Confirm(minedHash) =>
      var r := s.queue[0].result;
      s.(pool := AfterConfirm(s.pool, r, minedHash), queue := s.queue[1..], settled := s.settled + [r.tx],
         hashes := s.hashes + [minedHash])
    case Revert =>
      s.(pool := s.pool.ClearOptimisticState(), queue := s.queue[1..], reverting := |s.queue| > 1)
  }

  function Commits(queue: seq<Flight>): (cs: seq<nat>)
    ensures |cs| == |queue|
    ensures forall i | 0 <= i < |queue| :: cs[i] == queue[i].result.tx.outCommit
  {
    seq(|queue|, i requires 0 <= i < |queue| => queue[i].result.tx.outCommit)
  }

  function TxsOf(queue: seq<Flight>): (txs: seq<NewTx>)
    ensures |txs| == |queue|
    ensures forall i | 0 <= i < |queue| :: txs[i] == queue[i].result.tx
  {
    seq(|queue|, i requires 0 <= i < |queue| => queue[i].result.tx)
  }

  /** The jobs in flight that can still succeed. */
  function InFlight(s: Pipeline): seq<Flight> {
    if s.reverting then [] else s.queue
  }

  /** The transactions that did not revert, oldest first. */
  function Live(s: Pipeline): seq<NewTx> {
    s.settled + TxsOf(InFlight(s))
  }

  /** No nullifier is held by two transactions. */
  predicate Distinct(txs: seq<NewTx>) {
    forall i, j | 0 <= i < j < |txs| :: txs[i].nullifier.Some? ==> txs[i].nullifier != txs[j].nullifier
  }

  function Nullifiers(txs: seq<NewTx>): set<nat> {
    set tx | tx in txs && tx.nullifier.Some? :: tx.nullifier.value
  }

  /** A service that has synced and sent nothing yet. */
  ghost predicate Quiet(s: Pipeline, log: seq<HexString>) {
    && Mirrors(s.pool, log, |log|) && s.pool.optimistic.nullifiers == {}
    && s.queue == [] && s.settled == [] && s.hashes == [] && !s.reverting
  }

  predicate IsRun(rootOf: seq<nat> -> nat, s: Pipeline, actions: seq<Action>)
    decreases |actions|
  {
    |actions| == 0 || (Enabled(rootOf, s, actions[0]) && IsRun(rootOf, Step(rootOf, s, actions[0]), actions[1..]))
  }

  function Run(rootOf: seq<nat> -> nat, s: Pipeline, actions: seq<Action>): Pipeline
    requires IsRun(rootOf, s, actions)
    decreases |actions|
  {
    if |actions| == 0 then s else Run(rootOf, Step(rootOf, s, actions[0]), actions[1..])
  }

  // ---------- The records ----------

  /** After what was there at the start, the log has one record for every settled
      transaction, with its commitment, the hash it was mined as and its memo, and then
      one for every transaction in flight, with the hash it was sent as. */
  predicate Recorded(s: Pipeline, start: seq<HexString>, log: seq<HexString>) {
    && |s.hashes| == |s.settled| && |log| == |start| + |Live(s)| && start <= log
    && (forall j | 0 <= j < |s.settled| ::
          Carries(log[|start| + j], s.settled[j].outCommit, s.hashes[j], s.settled[j].memo))
    && forall j | 0 <= j < |InFlight(s)| ::
         var tx := s.queue[j].result.tx;
         Carries(log[|start| + |s.settled| + j], tx.outCommit, s.queue[j].txHash, tx.memo)
  }

  // ---------- The invariant ----------

  /** The optimistic log is the confirmed log followed by the jobs in flight. */
  predicate Pipelined(s: Pipeline) {
    s.pool.optimistic.leaves == s.pool.confirmed.leaves + Commits(InFlight(s))
  }

  /** Records and commitments of both tiers. */
  ghost predicate Logged(s: Pipeline, log: seq<HexString>) {
    |InFlight(s)| <= |log| && Mirrors(s.pool, log, |log| - |InFlight(s)|)
  }

  /** Every proof in flight was made for the log it will meet, unless a job
      before it reverted: then for a longer one. */
  predicate Proven(rootOf: seq<nat> -> nat, s: Pipeline) {
    forall i | 0 <= i < |s.queue| :: ProvenAt(rootOf, s, i)
  }

  predicate ProvenAt(rootOf: seq<nat> -> nat, s: Pipeline, i: nat)
    requires i < |s.queue|
  {
    var f, leaves := s.queue[i], s.pool.confirmed.leaves;
    && f.result.root == rootOf(f.builtOn + [f.result.tx.outCommit])
    && f.result.tx.outCommit < Pow16(WORD)
    && if s.reverting then |f.builtOn| > |leaves|
       else f.result.commitIndex == |leaves| + i && f.builtOn == leaves + Commits(s.queue)[..i]
  }

  /** The nullifier sets hold what was spent before (`n0`), by the settled
      transactions and by those in flight. */
  predicate Spent(n0: set<nat>, s: Pipeline) {
    && s.pool.confirmed.nullifiers == n0 + Nullifiers(s.settled)
    && s.pool.optimistic.nullifiers == Nullifiers(TxsOf(InFlight(s)))
    && Distinct(Live(s)) && Nullifiers(Live(s)) !! n0
  }

  ghost predicate Inv(rootOf: seq<nat> -> nat, n0: set<nat>, s: Pipeline, log: seq<HexString>) {
    Pipelined(s) && Logged(s, log) && Proven(rootOf, s) && Spent(n0, s) && (s.reverting ==> |s.queue| > 0)
  }

  lemma QuietHolds(rootOf: seq<nat> -> nat, s: Pipeline, log: seq<HexString>)
    requires Quiet(s, log)
    ensures Inv(rootOf, s.pool.confirmed.nullifiers, s, log)
  {
  }

  /** While a revert drains, the contract takes no proof that is in flight. */
  lemma StaleProofsAreRejected(rootOf: seq<nat> -> nat, n0: set<nat>, s: Pipeline, log: seq<HexString>, i: nat)
    requires Inv(rootOf, n0, s, log) && s.reverting && i < |s.queue| && Injective(rootOf)
    ensures !ContractAccepts(rootOf, s.pool.confirmed.leaves, s.queue[i].result)
  {
    hide Logged, Spent;
    assert ProvenAt(rootOf, s, i);
    var f, leaves := s.queue[i], s.pool.confirmed.leaves;
    var c := f.result.tx.outCommit;
    assert |f.builtOn + [c]| > |leaves + [c]|;
  }

  // ---------- Accepting a job ----------

  lemma AcceptSpent(rootOf: seq<nat> -> nat, n0: set<nat>, s: Pipeline, tx: NewTx, txHash: HexString)
    requires Spent(n0, s) && !s.reverting && NullifierIsFree(s.pool, tx)
    ensures Spent(n0, Step(rootOf, s, Accept(tx, txHash)))
  {
    var s' := Step(rootOf, s, Accept(tx, txHash));
    NullifiersAppend(TxsOf(s.queue), tx);
    assert TxsOf(s'.queue) == TxsOf(s.queue) + [tx];
    assert Live(s') == Live(s) + [tx];
    NullifiersAppend(Live(s), tx);
    NullifiersConcat(s.settled, TxsOf(s.queue));
    DistinctAppend(Live(s), tx);
  }

  lemma NullifiersConcat(a: seq<NewTx>, b: seq<NewTx>)
    ensures Nullifiers(a + b) == Nullifiers(a) + Nullifiers(b)
  {
  }

  lemma NullifiersAppend(a: seq<NewTx>, tx: NewTx)
    ensures Nullifiers(a + [tx]) == Nullifiers(a) + NullifierSetOf(tx)
  {
  }

  lemma DistinctAppend(a: seq<NewTx>, tx: NewTx)
    requires Distinct(a) && NullifierSetOf(tx) !! Nullifiers(a)
    ensures Distinct(a + [tx])
  {
  }

  lemma AcceptLogged(rootOf: seq<nat> -> nat, s: Pipeline, log: seq<HexString>, tx: NewTx, txHash: HexString)
    requires Logged(s, log) && !s.reverting && tx.outCommit < Pow16(WORD) && IsHash(txHash)
    ensures Logged(Step(rootOf, s, Accept(tx, txHash)), log + [Buffered(RecordOf(tx, txHash))])
    ensures Step(rootOf, s, Accept(tx, txHash)).pool.optimistic.leaves == s.pool.optimistic.leaves + [tx.outCommit]
  {
    hide Holds, CommitmentOf, IsStored, PrefixedMemo, Pow16;
    var d := Decoded(tx.outCommit, tx.memo, tx.nullifier);
    var record := StoredRecord(d, txHash);
    StoredRecordIsStored(d, txHash);
    LeafCount(s.pool.optimistic, log);
    UpdateStored(s.pool.optimistic, |log|, d, txHash);
    AppendHolds(s.pool.optimistic, log, tx.outCommit, record);
    AppendParts(s.pool.optimistic, |log|, tx.outCommit, record);
    var r := Build(rootOf, s.pool, tx);
    var t := s.pool.optimistic.UpdateState(|log|, tx.outCommit, record);
    NullifiersApart(t, log + [record], t.nullifiers + NullifierSetOf(tx));
    var c := |log| - |s.queue|;
    assert (log + [record])[..c] == log[..c];
  }

  lemma LeafCount(t: Tier, log: seq<HexString>)
    requires Holds(t, log)
    ensures |t.leaves| == |log|
  {
  }

  /** With the gate on, a new job keeps every part of the invariant. */
  lemma AcceptKeeps(rootOf: seq<nat> -> nat, n0: set<nat>, s: Pipeline, log: seq<HexString>, tx: NewTx,
                    txHash: HexString)
    requires Inv(rootOf, n0, s, log) && Enabled(rootOf, s, Accept(tx, txHash))
    ensures Inv(rootOf, n0, Step(rootOf, s, Accept(tx, txHash)), log + [Buffered(RecordOf(tx, txHash))])
  {
    hide Nullifiers, Mirrors, RecordOf, Spent, Logged, Pow16, AfterSend, Proven;
    AcceptSpent(rootOf, n0, s, tx, txHash);
    AcceptLogged(rootOf, s, log, tx, txHash);
    var s' := Step(rootOf, s, Accept(tx, txHash));
    SendKeepsConfirmed(s.pool, Build(rootOf, s.pool, tx), txHash);
    AcceptProven(rootOf, s, s', tx, txHash);
  }

  lemma SendKeepsConfirmed(p: Tiers, r: ProcessResult, txHash: HexString)
    ensures AfterSend(p, r, txHash).confirmed == p.confirmed
  {
  }

  /** The new job's proof is for everything that is on its way. */
  lemma AcceptProven(rootOf: seq<nat> -> nat, s: Pipeline, s': Pipeline, tx: NewTx, txHash: HexString)
    requires Proven(rootOf, s) && Pipelined(s) && !s.reverting && tx.outCommit < Pow16(WORD)
    requires s'.queue == s.queue + [Flight(Build(rootOf, s.pool, tx), s.pool.optimistic.leaves, txHash)]
    requires !s'.reverting
    requires s'.pool.confirmed == s.pool.confirmed
    requires s'.pool.optimistic.leaves == s.pool.optimistic.leaves + [tx.outCommit]
    ensures Proven(rootOf, s') && Pipelined(s')
  {
    hide Pow16;
    assert Commits(s'.queue) == Commits(s.queue) + [tx.outCommit];
    hide Commits;
    forall i | 0 <= i < |s'.queue|
      ensures ProvenAt(rootOf, s', i)
    {
      assert Commits(s'.queue)[..i] == Commits(s.queue)[..i];
      if i < |s.queue| {
        assert ProvenAt(rootOf, s, i);
      } else {
        assert Commits(s.queue)[..i] == Commits(s.queue);
      }
    }
  }

  // ---------- Confirming the head ----------

  lemma ConfirmLogged(s: Pipeline, log: seq<HexString>, minedHash: HexString)
    requires Logged(s, log) && Pipelined(s) && !s.reverting && |s.queue| > 0 && IsHash(minedHash)
    requires var r := s.queue[0].result; r.commitIndex == |s.pool.confirmed.leaves| && r.tx.outCommit < Pow16(WORD)
    ensures var r := s.queue[0].result;
            var c := |log| - |s.queue|;
            var p' := AfterConfirm(s.pool, r, minedHash);
            && Mirrors(p', log[c := Buffered(RecordOf(r.tx, minedHash))], c + 1)
            && p'.confirmed.leaves == s.pool.confirmed.leaves + [r.tx.outCommit]
            && p'.optimistic.leaves == s.pool.optimistic.leaves
  {
    hide Holds, CommitmentOf, IsStored, PrefixedMemo, Pow16;
    var r := s.queue[0].result;
    var d := Decoded(r.tx.outCommit, r.tx.memo, r.tx.nullifier);
    var record := StoredRecord(d, minedHash);
    var c := |log| - |s.queue|;
    StoredRecordIsStored(d, minedHash);
    LeafCount(s.pool.confirmed, log[..c]);
    LeafCount(s.pool.optimistic, log);
    assert s.pool.optimistic.leaves[c] == Commits(s.queue)[0];
    UpdateStored(s.pool.confirmed, c, d, minedHash);
    AppendHolds(s.pool.confirmed, log[..c], r.tx.outCommit, record);
    AppendParts(s.pool.confirmed, c, r.tx.outCommit, record);
    ReplaceHolds(s.pool.optimistic, log, c, record);
    var p' := AfterConfirm(s.pool, r, minedHash);
    var log' := log[c := record];
    assert log[..c] + [record] == log'[..c + 1];
    NullifiersApart(s.pool.confirmed.UpdateState(c, r.tx.outCommit, record), log'[..c + 1], p'.confirmed.nullifiers);
    NullifiersApart(s.pool.optimistic.(txs := s.pool.optimistic.txs[Key(c) := record]), log', p'.optimistic.nullifiers);
  }

  /** Settling the first of the transactions in flight moves its nullifier. */
  lemma SettleFirst(settled: seq<NewTx>, tx: NewTx, rest: seq<NewTx>)
    requires Distinct(settled + ([tx] + rest))
    ensures (settled + [tx]) + rest == settled + ([tx] + rest)
    ensures Nullifiers(settled + [tx]) == Nullifiers(settled) + NullifierSetOf(tx)
    ensures Nullifiers(rest) == Nullifiers([tx] + rest) - NullifierSetOf(tx)
  {
    var txs := settled + ([tx] + rest);
    assert txs[|settled|] == tx && txs[|settled| + 1..] == rest;
    DistinctTail(txs, |settled|);
    hide Nullifiers, Distinct, NullifierSetOf;
    NullifiersAppend(settled, tx);
    NullifiersConcat([tx], rest);
    NullifiersAppend([], tx);
    NoNullifiers();
    assert [] + [tx] == [tx];
  }

  lemma NoNullifiers()
    ensures Nullifiers([]) == {}
  {
  }

  lemma TxsOfHead(queue: seq<Flight>)
    requires |queue| > 0
    ensures TxsOf(queue) == [queue[0].result.tx] + TxsOf(queue[1..])
  {
  }

  lemma ConfirmSpent(n0: set<nat>, s: Pipeline, minedHash: HexString, rootOf: seq<nat> -> nat)
    requires Spent(n0, s) && !s.reverting && |s.queue| > 0
    ensures Spent(n0, Step(rootOf, s, Confirm(minedHash)))
  {
    hide Nullifiers, Distinct, TxsOf, NullifierSetOf, RecordOf, Put, Buffered;
    var s' := Step(rootOf, s, Confirm(minedHash));
    var tx := s.queue[0].result.tx;
    TxsOfHead(s.queue);
    SettleFirst(s.settled, tx, TxsOf(s'.queue));
    assert s'.pool.confirmed.nullifiers == s.pool.confirmed.nullifiers + NullifierSetOf(tx);
    assert s'.pool.optimistic.nullifiers == s.pool.optimistic.nullifiers - NullifierSetOf(tx);
  }

  lemma DistinctTail(txs: seq<NewTx>, i: nat)
    requires Distinct(txs) && i < |txs|
    ensures NullifierSetOf(txs[i]) !! Nullifiers(txs[i + 1..])
  {
  }

  lemma ConfirmKeeps(rootOf: seq<nat> -> nat, n0: set<nat>, s: Pipeline, log: seq<HexString>, minedHash: HexString)
    returns (log': seq<HexString>)
    requires Inv(rootOf, n0, s, log) && Enabled(rootOf, s, Confirm(minedHash)) && !s.reverting
    ensures Inv(rootOf, n0, Step(rootOf, s, Confirm(minedHash)), log')
    ensures log' == log[|log| - |s.queue| := Buffered(RecordOf(s.queue[0].result.tx, minedHash))]
  {
    hide Nullifiers, Mirrors, RecordOf;
    assert ProvenAt(rootOf, s, 0);
    ConfirmSpent(n0, s, minedHash, rootOf);
    ConfirmLogged(s, log, minedHash);
    hide Spent;
    var s' := Step(rootOf, s, Confirm(minedHash));
    log' := log[|log| - |s.queue| := Buffered(RecordOf(s.queue[0].result.tx, minedHash))];
    hide AfterConfirm;
    ConfirmProven(rootOf, s, s');
  }

  /** The other proofs fit the log that grew by the head's commitment. */
  lemma ConfirmProven(rootOf: seq<nat> -> nat, s: Pipeline, s': Pipeline)
    requires Proven(rootOf, s) && Pipelined(s) && !s.reverting && |s.queue| > 0
    requires s'.queue == s.queue[1..] && !s'.reverting
    requires s'.pool.confirmed.leaves == s.pool.confirmed.leaves + [s.queue[0].result.tx.outCommit]
    requires s'.pool.optimistic.leaves == s.pool.optimistic.leaves
    ensures Proven(rootOf, s') && Pipelined(s')
  {
    var c, rest := s.queue[0].result.tx.outCommit, Commits(s'.queue);
    assert Commits(s.queue) == [c] + rest;
    hide Commits;
    forall i | 0 <= i < |s'.queue|
      ensures ProvenAt(rootOf, s', i)
    {
      assert ProvenAt(rootOf, s, i + 1);
      assert s'.queue[i] == s.queue[i + 1];
      ShiftLog(s.pool.confirmed.leaves, c, rest, i);
    }
    ShiftLog(s.pool.confirmed.leaves, c, rest, |rest|);
    assert rest[..|rest|] == rest;
  }

  lemma ShiftLog(leaves: seq<nat>, c: nat, rest: seq<nat>, i: nat)
    requires i <= |rest|
    ensures leaves + ([c] + rest)[..i + 1] == (leaves + [c]) + rest[..i]
  {
  }

  /** At every confirmation the two comparisons that the source logs succeed: the
      tiers hold one commitment at the index, and the confirmed root is the root
      that was computed when the transaction was built. */
  lemma AssertionsHold(rootOf: seq<nat> -> nat, n0: set<nat>, s: Pipeline, log: seq<HexString>, minedHash: HexString)
    requires Inv(rootOf, n0, s, log) && Enabled(rootOf, s, Confirm(minedHash)) && Injective(rootOf)
    ensures var r := s.queue[0].result;
            var p' := AfterConfirm(s.pool, r, minedHash);
            && !s.reverting
            && LeafAt(p'.confirmed.leaves, r.commitIndex) == LeafAt(p'.optimistic.leaves, r.commitIndex)
            && rootOf(p'.confirmed.leaves) == r.root
  {
    hide Nullifiers, Mirrors, RecordOf, Spent, Distinct, Pow16, Injective;
    if s.reverting {
      StaleProofsAreRejected(rootOf, n0, s, log, 0);
    }
    assert ProvenAt(rootOf, s, 0);
    ConfirmLogged(s, log, minedHash);
    var f := s.queue[0];
    assert f.builtOn == s.pool.confirmed.leaves + Commits(s.queue)[..0];
    assert f.builtOn == s.pool.confirmed.leaves;
    assert s.pool.optimistic.leaves[f.result.commitIndex] == Commits(s.queue)[0];
  }

  // ---------- A revert ----------

  lemma RevertKeeps(rootOf: seq<nat> -> nat, n0: set<nat>, s: Pipeline, log: seq<HexString>)
    returns (log': seq<HexString>)
    requires Inv(rootOf, n0, s, log) && |s.queue| > 0
    ensures Inv(rootOf, n0, Step(rootOf, s, Revert), log') && log' == log[..|log| - |InFlight(s)|]
  {
    hide Holds, RecordOf;
    var c := |log| - |InFlight(s)|;
    ClearRestores(s.pool, log, c);
    log' := log[..c];
    var s' := Step(rootOf, s, Revert);
    assert InFlight(s') == [];
    assert TxsOf([]) == [] && Nullifiers([]) == {};
    assert Commits([]) == [];
    assert Live(s') == s.settled;
    NullifiersConcat(s.settled, TxsOf(InFlight(s)));
    assert Distinct(s.settled) by {
      assert Live(s)[..|s.settled|] == s.settled;
    }
    hide Mirrors, Spent, Nullifiers, Distinct;
    forall i | 0 <= i < |s'.queue|
      ensures ProvenAt(rootOf, s', i)
    {
      assert ProvenAt(rootOf, s, i + 1) && s'.queue[i] == s.queue[i + 1];
    }
  }

  lemma AcceptRecorded(rootOf: seq<nat> -> nat, s: Pipeline, start: seq<HexString>, log: seq<HexString>, tx: NewTx,
                       txHash: HexString)
    requires Recorded(s, start, log) && Enabled(rootOf, s, Accept(tx, txHash))
    ensures Recorded(Step(rootOf, s, Accept(tx, txHash)), start, log + [Buffered(RecordOf(tx, txHash))])
  {
    hide Carries, PrefixedMemo, Pow16, Buffered, AfterSend, NullifierIsFree;
    StoredCarries(tx.outCommit, txHash, tx.memo);
  }

  lemma ConfirmRecorded(rootOf: seq<nat> -> nat, s: Pipeline, start: seq<HexString>, log: seq<HexString>,
                        minedHash: HexString)
    requires Recorded(s, start, log) && |s.queue| > 0 && !s.reverting && IsHash(minedHash)
    requires s.queue[0].result.tx.outCommit < Pow16(WORD)
    ensures Recorded(Step(rootOf, s, Confirm(minedHash)), start,
                     log[|log| - |s.queue| := Buffered(RecordOf(s.queue[0].result.tx, minedHash))])
  {
    hide Carries, PrefixedMemo, Pow16, Buffered, AfterConfirm;
    var tx := s.queue[0].result.tx;
    StoredCarries(tx.outCommit, minedHash, tx.memo);
    var s' := Step(rootOf, s, Confirm(minedHash));
    assert forall j | 0 <= j < |s'.queue| :: s'.queue[j] == s.queue[j + 1];
  }

  lemma RevertRecorded(rootOf: seq<nat> -> nat, s: Pipeline, start: seq<HexString>, log: seq<HexString>)
    requires Recorded(s, start, log) && |s.queue| > 0
    ensures Recorded(Step(rootOf, s, Revert), start, log[..|log| - |InFlight(s)|])
  {
    hide Carries;
    var s' := Step(rootOf, s, Revert);
    assert InFlight(s') == [] && |Live(s)| == |s.settled| + |InFlight(s)| && |Live(s')| == |s.settled|;
  }

  lemma StepKeeps(rootOf: seq<nat> -> nat, n0: set<nat>, s: Pipeline, start: seq<HexString>, log: seq<HexString>,
                  a: Action)
    returns (log': seq<HexString>)
    requires Inv(rootOf, n0, s, log) && Recorded(s, start, log) && Enabled(rootOf, s, a) && Injective(rootOf)
    ensures Inv(rootOf, n0, Step(rootOf, s, a), log') && Recorded(Step(rootOf, s, a), start, log')
  {
    hide Inv, Step, Pow16, Recorded;
    match a
    case Accept(tx, txHash) =>
      AcceptKeeps(rootOf, n0, s, log, tx, txHash);
      AcceptRecorded(rootOf, s, start, log, tx, txHash);
      log' := log + [Buffered(RecordOf(tx, txHash))];
    case Confirm(minedHash) =>
      AssertionsHold(rootOf, n0, s, log, minedHash);
      HeadFits(rootOf, n0, s, log);
      ConfirmRecorded(rootOf, s, start, log, minedHash);
      log' := ConfirmKeeps(rootOf, n0, s, log, minedHash);
    case Revert =>
      RevertRecorded(rootOf, s, start, log);
      log' := RevertKeeps(rootOf, n0, s, log);
  }

  lemma HeadFits(rootOf: seq<nat> -> nat, n0: set<nat>, s: Pipeline, log: seq<HexString>)
    requires Inv(rootOf, n0, s, log) && |s.queue| > 0
    ensures s.queue[0].result.tx.outCommit < Pow16(WORD)
  {
    hide Pipelined, Logged, Spent, Pow16;
    assert ProvenAt(rootOf, s, 0);
  }

  // ---------- Main results, for every run ----------

  /** In every run, with any number of jobs in flight: the optimistic log is the
      confirmed log followed by the jobs in flight; its records are those from the
      start and then one for each settled transaction and each one in flight, with
      its commitment, hash and memo; every proof in flight fits the log it will meet;
      no nullifier is held by two transactions that did not revert. */
  lemma {:induction false} EveryRunKeeps(rootOf: seq<nat> -> nat, n0: set<nat>, s: Pipeline, start: seq<HexString>,
                                         log: seq<HexString>, actions: seq<Action>)
    returns (log': seq<HexString>)
    requires Inv(rootOf, n0, s, log) && Recorded(s, start, log) && IsRun(rootOf, s, actions) && Injective(rootOf)
    ensures Inv(rootOf, n0, Run(rootOf, s, actions), log') && Recorded(Run(rootOf, s, actions), start, log')
    decreases |actions|
  {
    hide Inv, Step, Enabled, Recorded;
    if |actions| == 0 {
      log' := log;
    } else {
      var next := StepKeeps(rootOf, n0, s, start, log, actions[0]);
      log' := EveryRunKeeps(rootOf, n0, Step(rootOf, s, actions[0]), start, next, actions[1..]);
    }
  }

  /** The run-level statement from a synced start. */
  lemma PipelineTheorem(rootOf: seq<nat> -> nat, s: Pipeline, log: seq<HexString>, actions: seq<Action>,
                        minedHash: HexString)
    returns (log': seq<HexString>)
    requires Quiet(s, log) && IsRun(rootOf, s, actions) && Injective(rootOf)
    ensures var s' := Run(rootOf, s, actions);
            && Pipelined(s') && Distinct(Live(s'))
            && Logged(s', log') && Recorded(s', log, log')
            && (Enabled(rootOf, s', Confirm(minedHash)) ==>
                  var r := s'.queue[0].result;
                  var p' := AfterConfirm(s'.pool, r, minedHash);
                  LeafAt(p'.confirmed.leaves, r.commitIndex) == LeafAt(p'.optimistic.leaves, r.commitIndex)
                  && rootOf(p'.confirmed.leaves) == r.root)
  {
    QuietHolds(rootOf, s, log);
    var n0 := s.pool.confirmed.nullifiers;
    log' := EveryRunKeeps(rootOf, n0, s, log, log, actions);
    var s' := Run(rootOf, s, actions);
    hide Run, IsRun, Logged, Proven, Recorded;
    if Enabled(rootOf, s', Confirm(minedHash)) {
      AssertionsHold(rootOf, n0, s', log', minedHash);
    }
  }

  // ---------- Why new jobs must wait for a revert to drain ----------

  /** Without the gate, a new job keeps the pipeline equation exactly when no
      revert is draining. */
  lemma AcceptNeedsTheGate(rootOf: seq<nat> -> nat, n0: set<nat>, s: Pipeline, log: seq<HexString>, tx: NewTx,
                           txHash: HexString)
    requires Inv(rootOf, n0, s, log)
    ensures var s' := Step(rootOf, s, Accept(tx, txHash)).(reverting := false);
            Pipelined(s') <==> !s.reverting
  {
  }

  /** The next `k` jobs revert. */
  function Reverts(rootOf: seq<nat> -> nat, s: Pipeline, k: nat): Pipeline
    requires k <= |s.queue|
    decreases k
  {
    if k == 0 then s else Reverts(rootOf, Step(rootOf, s, Revert), k - 1)
  }

  /** The optimistic log is at most one entry ahead. */
  predicate AtMostAhead(p: Tiers, commit: nat) {
    p.optimistic.leaves == p.confirmed.leaves || p.optimistic.leaves == p.confirmed.leaves + [commit]
  }

  lemma {:induction false} RevertsDrain(rootOf: seq<nat> -> nat, s: Pipeline, k: nat, commit: nat)
    requires 1 <= k <= |s.queue| && AtMostAhead(s.pool, commit)
    ensures var s' := Reverts(rootOf, s, k);
            s'.queue == s.queue[k..] && s'.pool.confirmed == s.pool.confirmed
            && s'.pool.optimistic.leaves == s.pool.confirmed.leaves
    decreases k
  {
    var s1 := Step(rootOf, s, Revert);
    assert s1.pool.optimistic.leaves == s.pool.confirmed.leaves;
    if k > 1 {
      RevertsDrain(rootOf, s1, k - 1, commit);
    } else {
      assert Reverts(rootOf, s1, 0) == s1;
    }
  }

  /** The corruption the gate prevents: a job accepted while a revert drains, whose
      predecessors then revert and roll it back, is taken by the contract all the
      same; the compared commitments agree only if it commits to an empty leaf. */
  lemma UngatedAcceptCorrupts(rootOf: seq<nat> -> nat, n0: set<nat>, s: Pipeline, log: seq<HexString>,
                              tx: NewTx, txHash: HexString, minedHash: HexString)
    requires Inv(rootOf, n0, s, log) && s.reverting
    ensures var s1 := Step(rootOf, s, Accept(tx, txHash));
            var s2 := Reverts(rootOf, s1, |s.queue|);
            && |s2.queue| == 1 && s2.queue[0].result.tx == tx
            && var r := s2.queue[0].result;
               var p' := AfterConfirm(s2.pool, r, minedHash);
               && ContractAccepts(rootOf, s2.pool.confirmed.leaves, r)
               && (LeafAt(p'.confirmed.leaves, r.commitIndex) == LeafAt(p'.optimistic.leaves, r.commitIndex)
                   <==> tx.outCommit == EMPTY_LEAF)
  {
    hide Logged, Proven, Spent, RecordOf, Buffered;
    var s1 := Step(rootOf, s, Accept(tx, txHash));
    assert s.pool.optimistic.leaves == s.pool.confirmed.leaves;
    assert s1.pool.optimistic.leaves == s.pool.confirmed.leaves + [tx.outCommit];
    RevertsDrain(rootOf, s1, |s.queue|, tx.outCommit);
    assert s1.queue[|s.queue|..] == [s1.queue[|s.queue|]];
    hide Reverts;
    var leaves := s.pool.confirmed.leaves;
    assert Put(leaves, |leaves|, tx.outCommit) == leaves + [tx.outCommit];
  }

  /** An instance: two jobs in flight, the first reverts, a new job
      is accepted, the second reverts and rolls the new one back; when the new job
      confirms, the tiers disagree at its index. */
  lemma UngatedRunCorrupts(rootOf: seq<nat> -> nat, txHash: HexString)
    requires IsHash(txHash)
    ensures var job := c => NewTx(c, None, []);
            var s0 := Pipeline(EMPTY, [], [], [], false);
            var s2 := Step(rootOf, Step(rootOf, s0, Accept(job(1), txHash)), Accept(job(2), txHash));
            var s4 := Step(rootOf, Step(rootOf, s2, Revert), Accept(job(3), txHash));
            var s5 := Step(rootOf, s4, Revert);
            && |s5.queue| == 1
            && var r := s5.queue[0].result;
               var p' := AfterConfirm(s5.pool, r, txHash);
               ContractAccepts(rootOf, s5.pool.confirmed.leaves, r)
               && LeafAt(p'.confirmed.leaves, r.commitIndex) != LeafAt(p'.optimistic.leaves, r.commitIndex)
  {
  }
}
