/** Sending, confirming and resending transactions: the pool worker and the sent
    worker share one mutex, so every call of a processor is one step, and the
    chain moves between the steps (`poolTxWorker.ts`, `sentTxWorker.ts`,
    `EvmTxManager.ts`, the job states of `RelayPool.ts`). */
module SendProtocol {

  import opened Hex
  import opened Outcome
  import opened GasPrice

  /** A signed transaction. Signing is taken to be collision-free, so a signed
      transaction also stands for its hash. */
  datatype Tx = Tx(nonce: nat, to: nat, value: nat, data: HexString, gas: nat, price: Price)

  datatype TxManagerConfig = TxManagerConfig(bumpFactor: real, surplus: real, maxFeeLimit: Option<int>, legacy: bool)

  /** How the node answers `sendSignedTransaction`. */
  datatype Reply = Accepted | AlreadyKnown | Underpriced | InsufficientFunds | NonceTooLow | OtherError

  datatype SendError = InsufficientBalance | NonceError | GasPriceError

  datatype Receipt = Receipt(tx: Tx, success: bool)

  datatype JobState = Waiting | Sent | Completed | Reverted | Failed

  datatype PoolJob = PoolJob(state: JobState, txHash: Option<Tx>)

  datatype SentJob = SentJob(poolJobId: nat, attempts: seq<Tx>)

  /** Only a transaction the account could not pay for is certainly not known to
      the network. */
  predicate MayBeMined(reply: Reply) {
    reply != InsufficientFunds
  }

  function ErrorOf(reply: Reply): Option<SendError> {
    match reply
    case Accepted => None
    case AlreadyKnown => None
    case Underpriced => Some(GasPriceError)
    case InsufficientFunds => Some(InsufficientBalance)
    case NonceTooLow => Some(NonceError)
    case OtherError => Some(GasPriceError)
  }

  function FreshPrice(cfg: TxManagerConfig, price: Price): Price {
    AddExtraGasPrice(price, cfg.surplus, cfg.maxFeeLimit)
  }

  function BumpedPrice(cfg: TxManagerConfig, previous: Price, price: Price): Price {
    ChooseGasPriceOptions(AddExtraGasPrice(previous, cfg.bumpFactor, None), FreshPrice(cfg, price))
  }

  function ReceiptOf(mined: map<nat, Receipt>, txHash: Tx): Option<Receipt> {
    if txHash.nonce in mined && mined[txHash.nonce].tx == txHash then Some(mined[txHash.nonce]) else None
  }

  // ---------- The services ----------

  /** The node and the chain behind it. */
  class Node {
    var broadcast: set<Tx>
    var mined: map<nat, Receipt>

    constructor ()
      ensures broadcast == {} && mined == map[]
    {
      broadcast, mined := {}, map[];
    }

    method SendSignedTransaction(tx: Tx, reply: Reply)
      modifies this`broadcast
      ensures broadcast == if MayBeMined(reply) then old(broadcast) + {tx} else old(broadcast)
    {
      if MayBeMined(reply) {
        broadcast := broadcast + {tx};
      }
    }
  }

  class EvmTxManager {
    const node: Node
    const config: TxManagerConfig
    var nonce: nat

    constructor (node: Node, config: TxManagerConfig, nonce: nat)
      ensures this.node == node && this.config == config && this.nonce == nonce
    {
      this.node, this.config, this.nonce := node, config, nonce;
    }

    /** A first send takes the next nonce; a resend keeps everything but the price. */
    method PrepareTx(txConfig: Tx, isResend: bool, gasPriceValue: Price) returns (prepared: Tx)
      modifies this`nonce
      ensures nonce == old(nonce) + if isResend then 0 else 1
      ensures var quoted := AddExtraGasPrice(gasPriceValue, config.surplus, config.maxFeeLimit);
              prepared == if isResend
                          then txConfig.(price := ChooseGasPriceOptions(
                            AddExtraGasPrice(txConfig.price, config.bumpFactor, None), quoted))
                          else txConfig.(nonce := old(nonce), price := quoted)
    {
      var newGasPriceWithExtra := AddExtraGasPrice(gasPriceValue, config.surplus, config.maxFeeLimit);
      if isResend {
        var oldGasPriceWithExtra := AddExtraGasPrice(txConfig.price, config.bumpFactor, None);
        prepared := txConfig.(price := ChooseGasPriceOptions(oldGasPriceWithExtra, newGasPriceWithExtra));
      } else {
        prepared := txConfig.(nonce := nonce, price := newGasPriceWithExtra);
        nonce := nonce + 1;
      }
    }

    method ResendTx(prevAttempts: seq<Tx>, gasPriceValue: Price, reply: Reply)
      returns (attempt: Tx, error: Option<SendError>)
      requires |prevAttempts| > 0
      modifies this`nonce, node`broadcast
      ensures nonce == old(nonce)
      ensures var last := prevAttempts[|prevAttempts| - 1];
              attempt == last.(price := BumpedPrice(config, last.price, gasPriceValue))
      ensures error == ErrorOf(reply)
      ensures error.None? <==> reply == Accepted || reply == AlreadyKnown
      ensures error == Some(InsufficientBalance) <==> reply == InsufficientFunds
      ensures error == Some(NonceError) <==> reply == NonceTooLow
      ensures node.broadcast == if MayBeMined(reply) then old(node.broadcast) + {attempt} else old(node.broadcast)
    {
      attempt := PrepareTx(prevAttempts[|prevAttempts| - 1], true, gasPriceValue);
      node.SendSignedTransaction(attempt, reply);
      error := ErrorOf(reply);
    }

    /** The scan runs from the latest hash to the first one and stops at a receipt. */
    method ConfirmTx(txHashes: seq<Tx>) returns (receipt: Option<Receipt>)
      ensures receipt.None? ==> forall h | h in txHashes :: ReceiptOf(node.mined, h) == None
      ensures receipt.Some? ==> exists i | 0 <= i < |txHashes| ::
                receipt == ReceiptOf(node.mined, txHashes[i])
                && forall j | i < j < |txHashes| :: ReceiptOf(node.mined, txHashes[j]) == None
    {
      var i := |txHashes| - 1;
      while i >= 0
        invariant -1 <= i < |txHashes|
        invariant forall j | i < j < |txHashes| :: ReceiptOf(node.mined, txHashes[j]) == None
      {
        receipt := ReceiptOf(node.mined, txHashes[i]);
        if receipt.Some? {
          return;
        }
        i := i - 1;
      }
      return None;
    }
  }

  /** The two workers over one transaction manager. */
  class Workers {
    const txManager: EvmTxManager
    var jobs: map<nat, PoolJob>
    var sentQueue: seq<SentJob>
    /** The jobs that left the queue, in order. */
    ghost var history: seq<SentJob>

    constructor (txManager: EvmTxManager)
      ensures this.txManager == txManager
      ensures jobs == map[] && sentQueue == [] && history == []
    {
      this.txManager := txManager;
      jobs, sentQueue, history := map[], [], [];
    }

    ghost function View(): Relay
      reads this, txManager, txManager.node
    {
      Relay(txManager.nonce, jobs, history + sentQueue, |history|, txManager.node.broadcast, txManager.node.mined)
    }

    /** `poolTxWorkerProcessor` for a waiting job: validation decides, then the
        transaction is prepared, sent and queued, whatever the node answered. */
    method PoolTxWorkerProcessor(id: nat, valid: bool, tx: Tx, gasPriceValue: Price, reply: Reply)
      requires id in jobs && jobs[id].state == Waiting
      modifies this`jobs, this`sentQueue, txManager`nonce, txManager.node`broadcast
      ensures View() == Step(txManager.config, old(View()),
                if valid then Send(id, tx, gasPriceValue, reply) else Reject(id))
    {
      if !valid {
        jobs := jobs[id := jobs[id].(state := Failed)];
        return;
      }
      var sendAttempt := txManager.PrepareTx(tx, false, gasPriceValue);
      txManager.node.SendSignedTransaction(sendAttempt, reply);
      jobs := jobs[id := PoolJob(Sent, Some(sendAttempt))];
      sentQueue := sentQueue + [SentJob(id, [sendAttempt])];
      assert history + sentQueue == old(history + sentQueue) + [SentJob(id, [sendAttempt])];
    }

    /** One try of `sentTxWorkerProcessor` on the head of the queue. It answers
        whether the job is done; otherwise the loop tries again later. */
    method SentTxWorkerProcessor(gasPriceValue: Price, reply: Reply) returns (done: bool)
      requires sentQueue != [] && |sentQueue[0].attempts| > 0 && sentQueue[0].poolJobId in jobs
      requires forall a, b | a in sentQueue[0].attempts && b in sentQueue[0].attempts :: a.nonce == b.nonce
      modifies this, txManager`nonce, txManager.node`broadcast
      ensures done <==> FoundReceipt(old(View())).Some?
      ensures View() == Step(txManager.config, old(View()), if done then Resolve else Resend(gasPriceValue, reply))
    {
      hide BumpedPrice, FoundReceipt, ReceiptOf, ErrorOf;
      var job := sentQueue[0];
      assert View().sent[|history|] == job;
      var tx := txManager.ConfirmTx(job.attempts);
      FoundReceiptIs(View(), tx);
      if tx.None? {
        var attempt, error := txManager.ResendTx(job.attempts, gasPriceValue, reply);
        var attempts := job.attempts + [attempt];
        if error == Some(InsufficientBalance) {
          attempts := attempts[..|attempts| - 1];
        }
        sentQueue := sentQueue[0 := job.(attempts := attempts)];
        assert history + sentQueue == old(View()).sent[|history| := job.(attempts := attempts)];
        return false;
      }
      var state := if tx.value.success then Completed else Reverted;
      jobs := jobs[job.poolJobId := PoolJob(state, Some(tx.value.tx))];
      history := history + [job];
      sentQueue := sentQueue[1..];
      assert history + sentQueue == old(View()).sent;
      return true;
    }
  }

  // ---------- The protocol as steps on values ----------

  /** `sent` are all jobs ever queued, in order; the first `done` are resolved. */
  datatype Relay = Relay(
    nonce: nat, jobs: map<nat, PoolJob>, sent: seq<SentJob>, done: nat,
    broadcast: set<Tx>, mined: map<nat, Receipt>)

  datatype Action =
    | Submit(id: nat)
    | Reject(id: nat)
    | Send(id: nat, tx: Tx, price: Price, reply: Reply)
    | Resend(price: Price, reply: Reply)
    | Resolve
    | Mine(minedTx: Tx, success: bool)

  /** The receipt of some attempt of the head job. */
  function FoundReceipt(s: Relay): Option<Receipt> {
    if s.done < |s.sent| && |s.sent[s.done].attempts| > 0 then
      var n := s.sent[s.done].attempts[0].nonce;
      if n in s.mined && s.mined[n].tx in s.sent[s.done].attempts then Some(s.mined[n]) else None
    else None
  }

  lemma FoundReceiptIs(s: Relay, r: Option<Receipt>)
    requires s.done < |s.sent| && |s.sent[s.done].attempts| > 0
    requires forall a, b | a in s.sent[s.done].attempts && b in s.sent[s.done].attempts :: a.nonce == b.nonce
    requires r.None? ==> forall h | h in s.sent[s.done].attempts :: ReceiptOf(s.mined, h) == None
    requires r.Some? ==> exists h | h in s.sent[s.done].attempts :: r == ReceiptOf(s.mined, h)
    ensures r == FoundReceipt(s)
  {
  }

  predicate SoundPrice(cfg: TxManagerConfig, price: Price) {
    match price
    case Legacy(p) => cfg.legacy && p >= 0
    case Eip1559(m, q) => !cfg.legacy && m >= 0 && q >= 0
  }

  /** What a step needs to be defined at all. */
  predicate Applicable(s: Relay, a: Action) {
    match a
    case Reject(id) => id in s.jobs
    case Resend(_, _) => s.done < |s.sent| && |s.sent[s.done].attempts| > 0
    case Resolve => FoundReceipt(s).Some?
    case _ => true
  }

  /** When a step can happen. The chain mines any transaction the network may
      know, once per nonce; a resend may also follow a scan that just missed. */
  predicate Enabled(cfg: TxManagerConfig, s: Relay, a: Action): (enabled: bool)
    ensures enabled ==> Applicable(s, a)
  {
    match a
    case Submit(id) => id !in s.jobs
    case Reject(id) => id in s.jobs && s.jobs[id].state == Waiting
    case Send(id, tx, price, reply) => id in s.jobs && s.jobs[id].state == Waiting && SoundPrice(cfg, price)
    case Resend(price, reply) =>
      s.done < |s.sent| && |s.sent[s.done].attempts| > 0 && SoundPrice(cfg, price)
    case Resolve => FoundReceipt(s).Some? && s.sent[s.done].poolJobId in s.jobs
    case Mine(tx, success) => tx in s.broadcast && tx.nonce !in s.mined
  }

  function ResendAttempts(cfg: TxManagerConfig, attempts: seq<Tx>, price: Price, reply: Reply): seq<Tx>
    requires |attempts| > 0
  {
    var last := attempts[|attempts| - 1];
    if ErrorOf(reply) == Some(InsufficientBalance) then attempts
    else attempts + [last.(price := BumpedPrice(cfg, last.price, price))]
  }

  function Step(cfg: TxManagerConfig, s: Relay, a: Action): Relay
    requires Applicable(s, a)
  {
    match a
    case Submit(id) => s.(jobs := s.jobs[id := PoolJob(Waiting, None)])
    case Reject(id) => s.(jobs := s.jobs[id := s.jobs[id].(state := Failed)])
    case Send(id, tx, price, reply) =>
      var attempt := tx.(nonce := s.nonce, price := FreshPrice(cfg, price));
      s.(nonce := s.nonce + 1,
         jobs := s.jobs[id := PoolJob(Sent, Some(attempt))],
         sent := s.sent + [SentJob(id, [attempt])],
         broadcast := if MayBeMined(reply) then s.broadcast + {attempt} else s.broadcast)
    case Resend(price, reply) =>
      var job := s.sent[s.done];
      var attempts := ResendAttempts(cfg, job.attempts, price, reply);
      s.(sent := s.sent[s.done := job.(attempts := attempts)],
         broadcast := if MayBeMined(reply) then s.broadcast + {attempts[|attempts| - 1]} else s.broadcast)
    case Resolve =>
      var r := FoundReceipt(s).value;
      s.(jobs := s.jobs[s.sent[s.done].poolJobId := PoolJob(if r.success then Completed else Reverted, Some(r.tx))],
         done := s.done + 1)
    case Mine(tx, success) => s.(mined := s.mined[tx.nonce := Receipt(tx, success)])
  }

  function Start(nonce: nat): Relay {
    Relay(nonce, map[], [], 0, {}, map[])
  }

  /** A run: every action enabled where it happens. */
  predicate IsRun(cfg: TxManagerConfig, s: Relay, actions: seq<Action>)
    decreases |actions|
  {
    |actions| == 0 || (Enabled(cfg, s, actions[0]) && IsRun(cfg, Step(cfg, s, actions[0]), actions[1..]))
  }

  function Run(cfg: TxManagerConfig, s: Relay, actions: seq<Action>): Relay
    requires IsRun(cfg, s, actions)
    decreases |actions|
  {
    if |actions| == 0 then s else Run(cfg, Step(cfg, s, actions[0]), actions[1..])
  }

  // ---------- The invariant ----------

  /** Everything but the price is the same. */
  predicate SameContent(a: Tx, b: Tx) {
    a == b.(price := a.price)
  }

  /** `b` is at least the bump of `a`, component by component. */
  predicate AtLeastBumped(f: real, a: Price, b: Price) {
    match (a, b)
    case (Legacy(p), Legacy(q)) => q >= AddExtraGas(p, f, None)
    case (Eip1559(m, p), Eip1559(n, q)) => n >= AddExtraGas(m, f, None) && q >= AddExtraGas(p, f, None)
    case _ => false
  }

  /** Attempts of one job: never empty, one nonce, one content, and every price
      at least the bump of the one before. */
  predicate AttemptsOk(cfg: TxManagerConfig, attempts: seq<Tx>, nonce: nat) {
    && |attempts| >= 1
    && (forall a | a in attempts :: a.nonce == nonce && SameContent(a, attempts[0]) && a.price.Legacy? == cfg.legacy)
    && (forall i | 1 <= i < |attempts| :: AtLeastBumped(cfg.bumpFactor, attempts[i - 1].price, attempts[i].price))
  }

  /** The recorded state of the `i`-th job agrees with the receipt of its nonce. */
  predicate JobAgrees(s: Relay, n0: nat, i: nat)
    requires i < |s.sent|
  {
    var id, n := s.sent[i].poolJobId, n0 + i;
    && id in s.jobs
    && if i < s.done then
         n in s.mined && s.jobs[id] == PoolJob(if s.mined[n].success then Completed else Reverted, Some(s.mined[n].tx))
       else s.jobs[id].state == Sent
  }

  predicate NoncesInOrder(cfg: TxManagerConfig, n0: nat, s: Relay) {
    && s.done <= |s.sent| && s.nonce == n0 + |s.sent|
    && forall i | 0 <= i < |s.sent| :: AttemptsOk(cfg, s.sent[i].attempts, n0 + i)
  }

  ghost predicate ChainIsOurs(n0: nat, s: Relay) {
    && (forall tx | tx in s.broadcast :: n0 <= tx.nonce < n0 + |s.sent| && tx in s.sent[tx.nonce - n0].attempts)
    && (forall n | n in s.mined :: s.mined[n].tx in s.broadcast && s.mined[n].tx.nonce == n)
  }

  predicate SentOnce(s: Relay) {
    forall i, j | 0 <= i < j < |s.sent| :: s.sent[i].poolJobId != s.sent[j].poolJobId
  }

  ghost predicate JobsAgree(n0: nat, s: Relay) {
    && (forall i | 0 <= i < |s.sent| :: JobAgrees(s, n0, i))
    && (forall id | id in s.jobs && s.jobs[id].state !in {Waiting, Failed} ::
          exists i | 0 <= i < |s.sent| :: s.sent[i].poolJobId == id)
  }

  ghost predicate Inv(cfg: TxManagerConfig, n0: nat, s: Relay) {
    NoncesInOrder(cfg, n0, s) && ChainIsOurs(n0, s) && SentOnce(s) && JobsAgree(n0, s)
  }

  lemma BumpedIsAtLeast(cfg: TxManagerConfig, previous: Price, price: Price)
    requires SameKind(previous, price)
    ensures AtLeastBumped(cfg.bumpFactor, previous, BumpedPrice(cfg, previous, price))
  {
  }

  lemma ResendKeepsAttempts(cfg: TxManagerConfig, attempts: seq<Tx>, nonce: nat, price: Price, reply: Reply)
    requires AttemptsOk(cfg, attempts, nonce) && price.Legacy? == cfg.legacy
    ensures AttemptsOk(cfg, ResendAttempts(cfg, attempts, price, reply), nonce)
    ensures attempts <= ResendAttempts(cfg, attempts, price, reply)
  {
    var last := attempts[|attempts| - 1];
    assert last in attempts;
    BumpedIsAtLeast(cfg, last.price, price);
    hide BumpedPrice, AtLeastBumped;
    SameKindBumped(cfg, last.price, price);
  }

  lemma SameKindBumped(cfg: TxManagerConfig, previous: Price, price: Price)
    requires SameKind(previous, price)
    ensures SameKind(BumpedPrice(cfg, previous, price), price) && SameKind(FreshPrice(cfg, price), price)
  {
  }

  lemma AttemptsAt(cfg: TxManagerConfig, n0: nat, s: Relay, i: nat)
    requires NoncesInOrder(cfg, n0, s) && i < |s.sent|
    ensures |s.sent[i].attempts| > 0 && AttemptsOk(cfg, s.sent[i].attempts, n0 + i)
    ensures forall a | a in s.sent[i].attempts :: a.nonce == n0 + i
    ensures s.sent[i].attempts[0] in s.sent[i].attempts && s.sent[i].attempts[0].nonce == n0 + i
  {
  }

  lemma StartHolds(cfg: TxManagerConfig, n0: nat)
    ensures Inv(cfg, n0, Start(n0))
  {
  }

  lemma SubmitKeeps(cfg: TxManagerConfig, n0: nat, s: Relay, id: nat)
    requires Inv(cfg, n0, s) && Enabled(cfg, s, Submit(id))
    ensures Inv(cfg, n0, Step(cfg, s, Submit(id)))
  {
    hide AttemptsOk;
    var s' := Step(cfg, s, Submit(id));
    forall i | 0 <= i < |s.sent|
      ensures JobAgrees(s', n0, i)
    {
      assert JobAgrees(s, n0, i);
    }
  }

  /** A waiting job was never sent. */
  lemma WaitingIsUnsent(cfg: TxManagerConfig, n0: nat, s: Relay, id: nat)
    requires Inv(cfg, n0, s) && id in s.jobs && s.jobs[id].state == Waiting
    ensures forall i | 0 <= i < |s.sent| :: s.sent[i].poolJobId != id
  {
    hide AttemptsOk;
    forall i | 0 <= i < |s.sent|
      ensures s.sent[i].poolJobId != id
    {
      assert JobAgrees(s, n0, i);
    }
  }

  lemma RejectKeeps(cfg: TxManagerConfig, n0: nat, s: Relay, id: nat)
    requires Inv(cfg, n0, s) && Enabled(cfg, s, Reject(id))
    ensures Inv(cfg, n0, Step(cfg, s, Reject(id)))
  {
    WaitingIsUnsent(cfg, n0, s, id);
    hide AttemptsOk;
    var s' := Step(cfg, s, Reject(id));
    forall i | 0 <= i < |s.sent|
      ensures JobAgrees(s', n0, i)
    {
      assert JobAgrees(s, n0, i);
    }
  }

  lemma FirstAttemptOk(cfg: TxManagerConfig, tx: Tx, nonce: nat, price: Price)
    requires price.Legacy? == cfg.legacy
    ensures AttemptsOk(cfg, [tx.(nonce := nonce, price := FreshPrice(cfg, price))], nonce)
  {
  }

  /** A job that was waiting until now is sent last. */
  lemma SendJobs(n0: nat, s: Relay, s': Relay, id: nat, job: SentJob)
    requires JobsAgree(n0, s) && SentOnce(s) && s.done <= |s.sent|
    requires forall i | 0 <= i < |s.sent| :: s.sent[i].poolJobId != id
    requires s'.sent == s.sent + [job] && job.poolJobId == id && s'.done == s.done && s'.mined == s.mined
    requires id in s'.jobs && s'.jobs[id].state == Sent && s'.jobs == s.jobs[id := s'.jobs[id]]
    ensures JobsAgree(n0, s') && SentOnce(s')
  {
    assert s'.sent[|s.sent|] == job;
    forall i | 0 <= i < |s'.sent|
      ensures JobAgrees(s', n0, i)
    {
      assert i < |s.sent| ==> s'.sent[i] == s.sent[i] && JobAgrees(s, n0, i);
    }
    forall k | k in s'.jobs && s'.jobs[k].state !in {Waiting, Failed}
      ensures exists i | 0 <= i < |s'.sent| :: s'.sent[i].poolJobId == k
    {
      if k != id {
        var i :| 0 <= i < |s.sent| && s.sent[i].poolJobId == k;
        assert s'.sent[i].poolJobId == k;
      }
    }
  }

  lemma SendKeeps(cfg: TxManagerConfig, n0: nat, s: Relay, id: nat, tx: Tx, price: Price, reply: Reply)
    requires Inv(cfg, n0, s) && Enabled(cfg, s, Send(id, tx, price, reply))
    ensures Inv(cfg, n0, Step(cfg, s, Send(id, tx, price, reply)))
  {
    hide FreshPrice, AttemptsOk, JobsAgree, SentOnce;
    WaitingIsUnsent(cfg, n0, s, id);
    var s' := Step(cfg, s, Send(id, tx, price, reply));
    var attempt := tx.(nonce := s.nonce, price := FreshPrice(cfg, price));
    FirstAttemptOk(cfg, tx, s.nonce, price);
    assert s'.sent[|s.sent|] == SentJob(id, [attempt]);
    SendJobs(n0, s, s', id, SentJob(id, [attempt]));
    forall t | t in s'.broadcast
      ensures n0 <= t.nonce < n0 + |s'.sent| && t in s'.sent[t.nonce - n0].attempts
    {
      if t in s.broadcast {
        assert s'.sent[t.nonce - n0] == s.sent[t.nonce - n0];
      }
    }
  }

  lemma ResendKeeps(cfg: TxManagerConfig, n0: nat, s: Relay, price: Price, reply: Reply)
    requires Inv(cfg, n0, s) && Enabled(cfg, s, Resend(price, reply))
    ensures Inv(cfg, n0, Step(cfg, s, Resend(price, reply)))
  {
    hide AttemptsOk, ResendAttempts, JobsAgree, SentOnce;
    var s' := Step(cfg, s, Resend(price, reply));
    var job := s.sent[s.done];
    var attempts := ResendAttempts(cfg, job.attempts, price, reply);
    AttemptsAt(cfg, n0, s, s.done);
    ResendKeepsAttempts(cfg, job.attempts, n0 + s.done, price, reply);
    assert s'.sent[s.done].attempts == attempts;
    AttemptsAt(cfg, n0, s', s.done);
    assert attempts[|attempts| - 1] in attempts;
    ResendJobs(cfg, n0, s, s');
    forall t | t in s'.broadcast
      ensures n0 <= t.nonce < n0 + |s'.sent| && t in s'.sent[t.nonce - n0].attempts
    {
      if t in s.broadcast {
        assert t in s.sent[t.nonce - n0].attempts;
      }
    }
  }

  /** Job states do not depend on attempts. */
  lemma ResendJobs(cfg: TxManagerConfig, n0: nat, s: Relay, s': Relay)
    requires JobsAgree(n0, s) && SentOnce(s) && |s'.sent| == |s.sent|
    requires s'.jobs == s.jobs && s'.done == s.done && s'.mined == s.mined
    requires forall i | 0 <= i < |s.sent| :: s'.sent[i].poolJobId == s.sent[i].poolJobId
    ensures JobsAgree(n0, s') && SentOnce(s')
  {
    forall i | 0 <= i < |s'.sent|
      ensures JobAgrees(s', n0, i)
    {
      assert JobAgrees(s, n0, i);
    }
    forall k | k in s'.jobs && s'.jobs[k].state !in {Waiting, Failed}
      ensures exists i | 0 <= i < |s'.sent| :: s'.sent[i].poolJobId == k
    {
      var i :| 0 <= i < |s.sent| && s.sent[i].poolJobId == k;
      assert s'.sent[i].poolJobId == k;
    }
  }

  lemma ResolveJobs(n0: nat, s: Relay, s': Relay, r: Receipt)
    requires JobsAgree(n0, s) && SentOnce(s) && s.done < |s.sent|
    requires n0 + s.done in s.mined && s.mined[n0 + s.done] == r
    requires s'.sent == s.sent && s'.done == s.done + 1 && s'.mined == s.mined
    requires var state := if r.success then Completed else Reverted;
             s'.jobs == s.jobs[s.sent[s.done].poolJobId := PoolJob(state, Some(r.tx))]
    ensures JobsAgree(n0, s') && SentOnce(s')
  {
    var id := s.sent[s.done].poolJobId;
    forall i | 0 <= i < |s'.sent|
      ensures JobAgrees(s', n0, i)
    {
      assert JobAgrees(s, n0, i);
      assert i < s.done ==> s.sent[i].poolJobId != id;
      assert i > s.done ==> s.sent[i].poolJobId != id;
    }
    assert s'.sent[s.done].poolJobId == id;
  }

  lemma ResolveKeeps(cfg: TxManagerConfig, n0: nat, s: Relay)
    requires Inv(cfg, n0, s) && Enabled(cfg, s, Resolve)
    ensures Inv(cfg, n0, Step(cfg, s, Resolve))
  {
    hide AttemptsOk, JobsAgree, SentOnce;
    AttemptsAt(cfg, n0, s, s.done);
    ResolveJobs(n0, s, Step(cfg, s, Resolve), FoundReceipt(s).value);
  }

  lemma MineKeeps(cfg: TxManagerConfig, n0: nat, s: Relay, tx: Tx, success: bool)
    requires Inv(cfg, n0, s) && Enabled(cfg, s, Mine(tx, success))
    ensures Inv(cfg, n0, Step(cfg, s, Mine(tx, success)))
  {
    hide AttemptsOk;
    var s' := Step(cfg, s, Mine(tx, success));
    forall i | 0 <= i < |s'.sent|
      ensures JobAgrees(s', n0, i)
    {
      assert JobAgrees(s, n0, i);
    }
  }

  lemma StepKeeps(cfg: TxManagerConfig, n0: nat, s: Relay, a: Action)
    requires Inv(cfg, n0, s) && Enabled(cfg, s, a)
    ensures Inv(cfg, n0, Step(cfg, s, a))
  {
    match a
    case Submit(id) => SubmitKeeps(cfg, n0, s, id);
    case Reject(id) => RejectKeeps(cfg, n0, s, id);
    case Send(id, tx, price, reply) => SendKeeps(cfg, n0, s, id, tx, price, reply);
    case Resend(price, reply) => ResendKeeps(cfg, n0, s, price, reply);
    case Resolve => ResolveKeeps(cfg, n0, s);
    case Mine(tx, success) => MineKeeps(cfg, n0, s, tx, success);
  }

  // ---------- What one step does ----------

  /** A rejected job is failed; nothing else changes. */
  lemma RejectFails(cfg: TxManagerConfig, s: Relay, id: nat)
    requires Enabled(cfg, s, Reject(id))
    ensures var s' := Step(cfg, s, Reject(id));
            && s'.jobs == s.jobs[id := PoolJob(Failed, s.jobs[id].txHash)] && s' == s.(jobs := s'.jobs)
  {
  }

  /** A first send keeps the recipient, the value, the calldata and the gas, takes the
      next nonce and the quoted price with its surplus; the job waits for its receipt
      at the end of the queue, whatever the node answers. */
  lemma SendQueues(cfg: TxManagerConfig, s: Relay, id: nat, tx: Tx, price: Price, reply: Reply)
    requires Enabled(cfg, s, Send(id, tx, price, reply))
    ensures var s' := Step(cfg, s, Send(id, tx, price, reply));
            var first := Tx(s.nonce, tx.to, tx.value, tx.data, tx.gas,
                            AddExtraGasPrice(price, cfg.surplus, cfg.maxFeeLimit));
            && s'.sent == s.sent + [SentJob(id, [first])] && s'.jobs == s.jobs[id := PoolJob(Sent, Some(first))]
            && s'.nonce == s.nonce + 1 && s'.done == s.done && s'.mined == s.mined
            && s'.broadcast == if reply == InsufficientFunds then s.broadcast else s.broadcast + {first}
  {
  }

  /** A resend that the account cannot pay for leaves no trace: the raised price is not
      kept. */
  lemma ResendRefused(cfg: TxManagerConfig, s: Relay, price: Price)
    requires Enabled(cfg, s, Resend(price, InsufficientFunds))
    ensures Step(cfg, s, Resend(price, InsufficientFunds)) == s
  {
    var job := s.sent[s.done];
    assert s.sent[s.done := job.(attempts := job.attempts)] == s.sent;
  }

  /** After any other answer the head job has exactly one attempt more: the last one at
      the higher of its bumped price and the quoted price with its surplus. */
  lemma ResendAdds(cfg: TxManagerConfig, s: Relay, price: Price, reply: Reply)
    requires Enabled(cfg, s, Resend(price, reply)) && reply != InsufficientFunds
    ensures var s', job := Step(cfg, s, Resend(price, reply)), s.sent[s.done];
            var last := job.attempts[|job.attempts| - 1];
            var next := last.(price := ChooseGasPriceOptions(AddExtraGasPrice(last.price, cfg.bumpFactor, None),
                                         AddExtraGasPrice(price, cfg.surplus, cfg.maxFeeLimit)));
            && s'.sent == s.sent[s.done := SentJob(job.poolJobId, job.attempts + [next])]
            && s' == s.(sent := s'.sent, broadcast := s.broadcast + {next})
  {
  }

  // ---------- Main results, for every run ----------

  ghost predicate Reachable(cfg: TxManagerConfig, n0: nat, s: Relay) {
    exists actions :: IsRun(cfg, Start(n0), actions) && s == Run(cfg, Start(n0), actions)
  }

  lemma {:induction false} RunKeeps(cfg: TxManagerConfig, n0: nat, s: Relay, actions: seq<Action>)
    requires Inv(cfg, n0, s) && IsRun(cfg, s, actions)
    ensures Inv(cfg, n0, Run(cfg, s, actions))
    decreases |actions|
  {
    hide Inv, Step, Enabled;
    if |actions| > 0 {
      StepKeeps(cfg, n0, s, actions[0]);
      RunKeeps(cfg, n0, Step(cfg, s, actions[0]), actions[1..]);
    }
  }

  /** In every reachable state: the `i`-th sent job holds nonce `n0 + i`, its
      attempts are never empty and differ in the price only, whatever the network
      may know is an attempt of the job with that nonce, and the recorded states
      agree with the receipts. */
  lemma ReachableHolds(cfg: TxManagerConfig, n0: nat, s: Relay)
    requires Reachable(cfg, n0, s)
    ensures Inv(cfg, n0, s)
  {
    StartHolds(cfg, n0);
    hide Inv, Start;
    var actions :| IsRun(cfg, Start(n0), actions) && s == Run(cfg, Start(n0), actions);
    RunKeeps(cfg, n0, Start(n0), actions);
  }

  /** At most one hash of a job is ever mined; some hash has a receipt exactly
      when the job's nonce is mined, and any hash that has one has that one: the
      order in which `confirmTx` scans does not matter. */
  lemma OneReceiptPerJob(cfg: TxManagerConfig, n0: nat, s: Relay, i: nat)
    requires Reachable(cfg, n0, s) && i < |s.sent|
    ensures var attempts := s.sent[i].attempts;
            && |attempts| > 0
            && (n0 + i in s.mined ==> s.mined[n0 + i].tx in attempts)
            && (forall a | a in attempts :: a.nonce == n0 + i)
            && (forall a | a in attempts ::
                  ReceiptOf(s.mined, a).Some? <==> n0 + i in s.mined && a == s.mined[n0 + i].tx)
  {
    hide Reachable, AttemptsOk, JobsAgree, SentOnce;
    ReachableHolds(cfg, n0, s);
    AttemptsAt(cfg, n0, s, i);
  }

  /** The head job resolves exactly when its nonce is mined, with that receipt:
      no job waits for a receipt that none of its hashes has. */
  lemma HeadResolvesWhenMined(cfg: TxManagerConfig, n0: nat, s: Relay)
    requires Reachable(cfg, n0, s) && s.done < |s.sent|
    ensures FoundReceipt(s) == if n0 + s.done in s.mined then Some(s.mined[n0 + s.done]) else None
    ensures Enabled(cfg, s, Resolve) <==> n0 + s.done in s.mined
  {
    hide Reachable, ChainIsOurs, SentOnce, AttemptsOk;
    ReachableHolds(cfg, n0, s);
    OneReceiptPerJob(cfg, n0, s, s.done);
    AttemptsAt(cfg, n0, s, s.done);
    assert JobAgrees(s, n0, s.done);
  }

  /** The allowed moves of a job state. */
  predicate Moves(a: JobState, b: JobState) {
    a == b || (a == Waiting && b in {Sent, Failed}) || (a == Sent && b in {Completed, Reverted})
  }

  /** No step overwrites a final state, and the others move forward only. */
  lemma StatesMoveForward(cfg: TxManagerConfig, n0: nat, s: Relay, a: Action, id: nat)
    requires Inv(cfg, n0, s) && Enabled(cfg, s, a) && id in s.jobs
    ensures var s' := Step(cfg, s, a);
            && id in s'.jobs && Moves(s.jobs[id].state, s'.jobs[id].state)
            && (s.jobs[id].state in {Completed, Reverted, Failed} ==> s'.jobs[id] == s.jobs[id])
  {
    hide AttemptsOk, ResendAttempts, FreshPrice;
    if a == Resolve {
      assert JobAgrees(s, n0, s.done);
    }
  }

  lemma {:induction false} FinalStatesStay(cfg: TxManagerConfig, n0: nat, s: Relay, actions: seq<Action>, id: nat)
    requires Inv(cfg, n0, s) && IsRun(cfg, s, actions)
    requires id in s.jobs && s.jobs[id].state in {Completed, Reverted, Failed}
    ensures var s' := Run(cfg, s, actions); id in s'.jobs && s'.jobs[id] == s.jobs[id]
    decreases |actions|
  {
    hide Inv, Step, Enabled;
    if |actions| > 0 {
      StatesMoveForward(cfg, n0, s, actions[0], id);
      StepKeeps(cfg, n0, s, actions[0]);
      FinalStatesStay(cfg, n0, Step(cfg, s, actions[0]), actions[1..], id);
    }
  }

  /** In every run, a job ends as the one receipt of its nonce says. */
  lemma JobsEndAsMined(cfg: TxManagerConfig, n0: nat, s: Relay, id: nat)
    requires Reachable(cfg, n0, s) && id in s.jobs && s.jobs[id].state in {Completed, Reverted}
    ensures exists i | 0 <= i < |s.sent| ::
              && s.sent[i].poolJobId == id && n0 + i in s.mined && s.mined[n0 + i].tx in s.sent[i].attempts
              && s.jobs[id].txHash == Some(s.mined[n0 + i].tx)
              && (s.jobs[id].state == Completed <==> s.mined[n0 + i].success)
  {
    hide Reachable, ChainIsOurs, SentOnce, AttemptsOk;
    ReachableHolds(cfg, n0, s);
    var i :| 0 <= i < |s.sent| && s.sent[i].poolJobId == id;
    assert JobAgrees(s, n0, i);
    OneReceiptPerJob(cfg, n0, s, i);
  }

  function Cap(attempts: seq<Tx>): (prices: seq<int>)
    ensures |prices| == |attempts|
  {
    seq(|attempts|, i requires 0 <= i < |attempts| => MaxRequired(attempts[i].price))
  }

  /** The prices of a job's attempts grow at least geometrically up to rounding:
      the bound of `GasPrice.BumpHistory` holds over the whole resend history. */
  lemma ResendHistoryGrows(cfg: TxManagerConfig, attempts: seq<Tx>, nonce: nat, n: nat)
    requires AttemptsOk(cfg, attempts, nonce) && n < |attempts|
    requires cfg.bumpFactor > 0.0 && MaxRequired(attempts[0].price) >= 0
    ensures MaxRequired(attempts[n].price) as real >= Growth(MaxRequired(attempts[0].price), cfg.bumpFactor, n)
  {
    hide Growth;
    forall i | 0 <= i < |attempts|
      ensures Cap(attempts)[i] >= 0
    {
      CapNonNegative(cfg, attempts, nonce, i);
    }
    forall i | 0 <= i && i + 1 < |attempts|
      ensures Cap(attempts)[i + 1] >= AddExtraGas(Cap(attempts)[i], cfg.bumpFactor, None)
    {
      assert AtLeastBumped(cfg.bumpFactor, attempts[i + 1 - 1].price, attempts[i + 1].price);
    }
    BumpHistory(Cap(attempts), cfg.bumpFactor, n);
  }

  lemma {:induction false} CapNonNegative(cfg: TxManagerConfig, attempts: seq<Tx>, nonce: nat, i: nat)
    requires AttemptsOk(cfg, attempts, nonce) && i < |attempts|
    requires cfg.bumpFactor > 0.0 && MaxRequired(attempts[0].price) >= 0
    ensures MaxRequired(attempts[i].price) >= 0
  {
    if i > 0 {
      CapNonNegative(cfg, attempts, nonce, i - 1);
      assert AtLeastBumped(cfg.bumpFactor, attempts[i - 1].price, attempts[i].price);
      BumpLowerBound(MaxRequired(attempts[i - 1].price), cfg.bumpFactor);
    }
  }
}
