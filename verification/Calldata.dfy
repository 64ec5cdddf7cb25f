/** Calldata of `transact()` and `transactV2()`: what the relayers build and
    what the indexer reads back. */
module Calldata {

  import opened Bounds
  import opened Hex
  import opened Outcome
  import opened Records

  const TRANSFER_INDEX_SIZE: nat := 12
  const ENERGY_SIZE: nat := 28
  const TOKEN_SIZE: nat := 16
  const VERSION: nat := 2

  const TRANSACT_SELECTOR: HexString := [10, 15, 9, 8, 9, 0, 8, 3]
  const TRANSACT_V2_SELECTOR: HexString := [5, 15, 13, 2, 8, 15, 8, 12]
  const DIRECT_DEPOSIT_OLD_SELECTOR: HexString := [1, 13, 12, 4, 12, 11, 3, 3]
  const DIRECT_DEPOSIT_SELECTOR: HexString := [14, 6, 11, 1, 4, 2, 7, 2]

  /** A user's transaction: the proof fields the builders read, the eight words
      of the transfer proof, and the memo. */
  datatype UserTx = UserTx(
    nullifier: nat, outCommit: nat,
    transferIndex: int, energyAmount: int, tokenAmount: int,
    proof: seq<nat>, txType: TxType, memo: HexString, depositSignature: Option<HexString>)

  /** The two generations of calldata differ in their offset tables. */
  datatype Layout = V1 | V2

  datatype Field = Nullifier | OutCommit | TypeField | MemoSize | Memo

  /** Byte offset and size, as in the parsers' offset tables. */
  function Span(layout: Layout, f: Field): (nat, nat) {
    match (layout, f)
    case (V1, Nullifier) => (4, 32)
    case (V1, OutCommit) => (36, 32)
    case (V1, TypeField) => (640, 2)
    case (V1, MemoSize) => (642, 2)
    case (V1, Memo) => (644, 0)
    case (V2, Nullifier) => (5, 32)
    case (V2, OutCommit) => (37, 32)
    case (V2, TypeField) => (353, 2)
    case (V2, MemoSize) => (355, 2)
    case (V2, Memo) => (357, 0)
  }

  function MemoVersionOf(layout: Layout): MemoVersion {
    if layout == V1 then MemoV1 else MemoV2
  }

  function GetField(layout: Layout, calldata: HexString, f: Field, defaultSize: nat): HexString {
    var (start, size) := Span(layout, f);
    var n := if defaultSize != 0 then defaultSize else size;
    Slice(calldata, 2 * start, 2 * (start + n))
  }

  function TypeDigits(t: TxType): HexString {
    match t
    case Deposit => [0, 0, 0, 0]
    case Transfer => [0, 0, 0, 1]
    case Withdrawal => [0, 0, 0, 2]
    case PermittableDeposit => [0, 0, 0, 3]
  }

  /** `toTxType`, which throws on anything but the four codes. */
  function ToTxType(h: HexString): Result<TxType> {
    if h == TypeDigits(Deposit) then Ok(Deposit)
    else if h == TypeDigits(Transfer) then Ok(Transfer)
    else if h == TypeDigits(Withdrawal) then Ok(Withdrawal)
    else if h == TypeDigits(PermittableDeposit) then Ok(PermittableDeposit)
    else Err("incorrect tx type")
  }

  function EncodeProof(words: seq<nat>): HexString {
    if |words| == 0 then [] else NumToHex(words[0], WORD) + EncodeProof(words[1..])
  }

  predicate Fits(num: int, digits: nat) {
    0 <= num + Pow16(digits) && num < Pow16(digits)
  }

  /** Every field fits the digits the calldata gives it. */
  predicate InRange(tx: UserTx) {
    && tx.nullifier < Pow16(WORD) && tx.outCommit < Pow16(WORD)
    && Fits(tx.transferIndex, TRANSFER_INDEX_SIZE)
    && Fits(tx.energyAmount, ENERGY_SIZE)
    && Fits(tx.tokenAmount, TOKEN_SIZE)
    && IsProof(tx.proof)
    && |tx.memo| % 2 == 0 && |tx.memo| / 2 < Pow16(4)
  }

  predicate IsProof(words: seq<nat>) {
    |words| == 8 && forall w | w in words :: w < Pow16(WORD)
  }

  function Signature(tx: UserTx): HexString {
    match tx.depositSignature
    case None => []
    case Some(s) => s
  }

  /** Index and amounts, shared by both layouts. */
  function Delta(tx: UserTx): HexString
    requires InRange(tx)
  {
    NumToHex(tx.transferIndex, TRANSFER_INDEX_SIZE)
    + NumToHex(tx.energyAmount, ENERGY_SIZE)
    + NumToHex(tx.tokenAmount, TOKEN_SIZE)
  }

  function Tail(tx: UserTx): HexString {
    TypeDigits(tx.txType) + NumToHex(|tx.memo| / 2, 4) + tx.memo + Signature(tx)
  }

  /** `DefaultPool.buildNormalTx`. */
  function BuildV1(tx: UserTx, rootAfter: nat, treeProof: seq<nat>): HexString
    requires InRange(tx)
  {
    TRANSACT_SELECTOR
    + NumToHex(tx.nullifier, WORD) + NumToHex(tx.outCommit, WORD)
    + Delta(tx)
    + EncodeProof(tx.proof) + NumToHex(rootAfter, WORD) + EncodeProof(treeProof)
    + Tail(tx)
  }

  /** `RelayPool.buildNormalTx`. */
  function BuildV2(tx: UserTx): HexString
    requires InRange(tx)
  {
    TRANSACT_V2_SELECTOR + NumToHex(VERSION, 2)
    + NumToHex(tx.nullifier, WORD) + NumToHex(tx.outCommit, WORD)
    + Delta(tx)
    + EncodeProof(tx.proof)
    + Tail(tx)
  }

  /** What `addTxToState` takes from calldata. */
  datatype Decoded = Decoded(outCommit: nat, memo: HexString, nullifier: Option<nat>)

  function DecodeTransact(layout: Layout, input: HexString): Result<Decoded> {
    var calldata := Buffered(input);
    match ToTxType(GetField(layout, calldata, TypeField, 0))
    case Err(e) => Err(e)
    case Ok(txType) =>
      var memoSize := Value(GetField(layout, calldata, MemoSize, 0));
      var memo := GetField(layout, calldata, Memo, memoSize);
      Ok(Decoded(
        Value(GetField(layout, calldata, OutCommit, 0)),
        TruncateMemo(MemoVersionOf(layout), memo, txType),
        Some(Value(GetField(layout, calldata, Nullifier, 0)))))
  }

  /** The static head word of ABI-encoded parameters. */
  function AbiWord(input: HexString, k: nat): Result<nat> {
    if |input| < 8 + WORD * (k + 1) then Err("invalid parameters")
    else Ok(Value(input[8 + WORD * k..8 + WORD * (k + 1)]))
  }

  function StartsWith(input: HexString, prefix: HexString): bool {
    prefix <= input
  }

  /** The dispatch of `addTxToState` on the selector. */
  function Decode(input: HexString, message: HexString): Result<Decoded> {
    if StartsWith(input, DIRECT_DEPOSIT_SELECTOR) then DecodeDeposit(AbiWord(input, 1), message)
    else if StartsWith(input, DIRECT_DEPOSIT_OLD_SELECTOR) then DecodeDeposit(AbiWord(input, 2), message)
    else if StartsWith(input, TRANSACT_SELECTOR) then DecodeTransact(V1, input)
    else if StartsWith(input, TRANSACT_V2_SELECTOR) then DecodeTransact(V2, input)
    else Err("Unknown transaction type")
  }

  function DecodeDeposit(word: Result<nat>, message: HexString): Result<Decoded> {
    match word
    case Err(e) => Err(e)
    case Ok(outCommit) => Ok(Decoded(outCommit, message, None))
  }

  lemma {:induction false} EncodeProofLength(words: seq<nat>)
    requires forall w | w in words :: w < Pow16(WORD)
    ensures |EncodeProof(words)| == WORD * |words|
  {
    if |words| > 0 {
      assert words[0] in words;
      NumToHexFits(words[0], WORD);
      assert forall w | w in words[1..] :: w in words;
      EncodeProofLength(words[1..]);
    }
  }

  /** A field that stands at its offset, with its size, is what the parser reads. */
  lemma FieldAt(layout: Layout, f: Field, d: nat, pre: HexString, part: HexString, post: HexString)
    requires |pre| == 2 * Span(layout, f).0
    requires |part| == 2 * if d != 0 then d else Span(layout, f).1
    ensures GetField(layout, pre + part + post, f, d) == part
  {
  }

  lemma TypeRoundTrip(t: TxType)
    ensures |TypeDigits(t)| == 4 && ToTxType(TypeDigits(t)) == Ok(t)
  {
  }

  lemma HeadFields(layout: Layout, header: HexString, n: HexString, c: HexString, rest: HexString)
    requires |header| == 2 * Span(layout, Nullifier).0 && |n| == |c| == WORD
    ensures GetField(layout, header + n + c + rest, Nullifier, 0) == n
    ensures GetField(layout, header + n + c + rest, OutCommit, 0) == c
  {
  }

  lemma TailFields(layout: Layout, front: HexString, t: HexString, s: HexString, memo: HexString, rest: HexString)
    requires |front| == 2 * Span(layout, TypeField).0
    requires |t| == |s| == 4 && |memo| == 2 * Value(s)
    ensures var cd := front + (t + s + memo + rest);
            && GetField(layout, cd, TypeField, 0) == t && GetField(layout, cd, MemoSize, 0) == s
            && GetField(layout, cd, Memo, Value(s)) == memo
  {
    hide Value, GetField;
    var cd := front + (t + s + memo + rest);
    FieldAt(layout, TypeField, 0, front, t, s + memo + rest);
    assert front + t + (s + memo + rest) == cd;
    FieldAt(layout, MemoSize, 0, front + t, s, memo + rest);
    assert front + t + s + (memo + rest) == cd;
    FieldAt(layout, Memo, Value(s), front + t + s, memo, rest);
    assert front + t + s + memo + rest == cd;
  }

  lemma BufferedTail(front: HexString, back: HexString, signature: HexString)
    requires |front| % 2 == 0 && |back| % 2 == 0
    ensures Buffered(front + (back + signature)) == front + (back + Buffered(signature))
  {
  }

  /** The parser's view of calldata laid out as the offset table says. Only the
      last digit of the signature can be dropped by the byte buffer. */
  lemma FieldsOf(layout: Layout, header: HexString, n: HexString, c: HexString, middle: HexString,
                 t: HexString, s: HexString, memo: HexString, signature: HexString)
    requires |header| == 2 * Span(layout, Nullifier).0 && |n| == |c| == WORD
    requires |header| + 2 * WORD + |middle| == 2 * Span(layout, TypeField).0
    requires |t| == |s| == 4 && |memo| == 2 * Value(s)
    ensures var cd := Buffered(header + n + c + middle + (t + s + memo + signature));
            && GetField(layout, cd, Nullifier, 0) == n && GetField(layout, cd, OutCommit, 0) == c
            && GetField(layout, cd, TypeField, 0) == t && GetField(layout, cd, MemoSize, 0) == s
            && GetField(layout, cd, Memo, Value(s)) == memo
  {
    var back, rest := t + s + memo, Buffered(signature);
    BufferedTail(header + n + c + middle, back, signature);
    TailFields(layout, header + n + c + middle, t, s, memo, rest);
    Assoc(header + n + c, middle, back + rest);
    HeadFields(layout, header, n, c, middle + (back + rest));
  }

  lemma Assoc(a: HexString, b: HexString, c: HexString)
    ensures a + b + c == a + (b + c)
  {
  }

  /** The words and the memo size, printed in their widths, read back. */
  lemma PartsOf(tx: UserTx)
    requires InRange(tx)
    ensures |NumToHex(tx.nullifier, WORD)| == WORD && Value(NumToHex(tx.nullifier, WORD)) == tx.nullifier
    ensures |NumToHex(tx.outCommit, WORD)| == WORD && Value(NumToHex(tx.outCommit, WORD)) == tx.outCommit
    ensures |NumToHex(|tx.memo| / 2, 4)| == 4 && Value(NumToHex(|tx.memo| / 2, 4)) == |tx.memo| / 2
    ensures |Delta(tx)| == TRANSFER_INDEX_SIZE + ENERGY_SIZE + TOKEN_SIZE
    ensures |EncodeProof(tx.proof)| == 8 * WORD
  {
    NumToHexFits(tx.nullifier, WORD);
    NumToHexFits(tx.outCommit, WORD);
    NumToHexFits(|tx.memo| / 2, 4);
    NumToHexFits(tx.transferIndex, TRANSFER_INDEX_SIZE);
    NumToHexFits(tx.energyAmount, ENERGY_SIZE);
    NumToHexFits(tx.tokenAmount, TOKEN_SIZE);
    EncodeProofLength(tx.proof);
  }

  lemma DecodeFramed(layout: Layout, tx: UserTx, header: HexString, middle: HexString)
    requires InRange(tx)
    requires |header| == 2 * Span(layout, Nullifier).0
    requires |header| + 2 * WORD + |middle| == 2 * Span(layout, TypeField).0
    ensures DecodeTransact(layout,
              header + NumToHex(tx.nullifier, WORD) + NumToHex(tx.outCommit, WORD) + middle + Tail(tx))
         == Ok(Decoded(tx.outCommit, TruncateMemo(MemoVersionOf(layout), tx.memo, tx.txType), Some(tx.nullifier)))
  {
    PartsOf(tx);
    TypeRoundTrip(tx.txType);
    FieldsOf(layout, header, NumToHex(tx.nullifier, WORD), NumToHex(tx.outCommit, WORD), middle,
      TypeDigits(tx.txType), NumToHex(|tx.memo| / 2, 4), tx.memo, Signature(tx));
  }

  /** V1: the indexer reads back the transaction the relayer sent, whatever the
      root and the tree proof. */
  lemma DecodeBuildV1(tx: UserTx, rootAfter: nat, treeProof: seq<nat>, message: HexString)
    requires InRange(tx) && rootAfter < Pow16(WORD) && IsProof(treeProof)
    ensures Decode(BuildV1(tx, rootAfter, treeProof), message)
         == Ok(Decoded(tx.outCommit, TruncateMemo(MemoV1, tx.memo, tx.txType), Some(tx.nullifier)))
  {
    hide DecodeTransact, NumToHex, Value, Pow16, EncodeProof, Delta, Tail;
    PartsOf(tx);
    EncodeProofLength(treeProof);
    NumToHexFits(rootAfter, WORD);
    var middle := Delta(tx) + EncodeProof(tx.proof) + NumToHex(rootAfter, WORD) + EncodeProof(treeProof);
    DecodeFramed(V1, tx, TRANSACT_SELECTOR, middle);
    Regroup(TRANSACT_SELECTOR + NumToHex(tx.nullifier, WORD) + NumToHex(tx.outCommit, WORD),
      Delta(tx), EncodeProof(tx.proof), NumToHex(rootAfter, WORD), EncodeProof(treeProof), Tail(tx));
    FirstSelector(BuildV1(tx, rootAfter, treeProof), TRANSACT_SELECTOR);
  }

  lemma Regroup(a: HexString, b: HexString, c: HexString, d: HexString, e: HexString, f: HexString)
    ensures a + b + c + d + e + f == a + (b + c + d + e) + f
  {
  }

  /** V2: the same through the `transactV2()` layout. */
  lemma DecodeBuildV2(tx: UserTx, message: HexString)
    requires InRange(tx)
    ensures Decode(BuildV2(tx), message)
         == Ok(Decoded(tx.outCommit, TruncateMemo(MemoV2, tx.memo, tx.txType), Some(tx.nullifier)))
  {
    hide DecodeTransact, NumToHex, Value, Pow16, EncodeProof, Delta, Tail;
    PartsOf(tx);
    VersionDigits();
    var header := TRANSACT_V2_SELECTOR + NumToHex(VERSION, 2);
    DecodeFramed(V2, tx, header, Delta(tx) + EncodeProof(tx.proof));
    Assoc(header + NumToHex(tx.nullifier, WORD) + NumToHex(tx.outCommit, WORD), Delta(tx), EncodeProof(tx.proof));
    FirstSelector(BuildV2(tx), TRANSACT_V2_SELECTOR);
  }

  lemma VersionDigits()
    ensures |NumToHex(VERSION, 2)| == 2
  {
  }

  /** No two selectors are prefixes of one input. */
  lemma FirstSelector(input: HexString, selector: HexString)
    requires selector == TRANSACT_SELECTOR || selector == TRANSACT_V2_SELECTOR
    requires selector <= input
    ensures !StartsWith(input, DIRECT_DEPOSIT_SELECTOR) && !StartsWith(input, DIRECT_DEPOSIT_OLD_SELECTOR)
    ensures selector == TRANSACT_V2_SELECTOR ==> !StartsWith(input, TRANSACT_SELECTOR)
  {
    assert input[0] == selector[0];
  }

  // ---------- The calldata, position by position ----------

  /** Numbers that fit are printed modulo the width, two's complement. */
  lemma PrintedModulo(num: int, digits: nat)
    requires digits >= 1 && Fits(num, digits)
    ensures |NumToHex(num, digits)| == digits && Value(NumToHex(num, digits)) == num % Pow16(digits)
  {
    NumToHexFits(num, digits);
    var p := Pow16(digits);
    if num < 0 {
      ModOf(num, -1, num + p, p);
    } else {
      ModOf(num, 0, num, p);
    }
  }

  lemma ModOf(m: int, q: int, r: nat, d: nat)
    requires m == q * d + r && r < d && -1 <= q <= 0
    ensures m % d == r
  {
  }

  /** The words stand one after the other, each in 64 digits. */
  lemma {:induction false} EncodedWord(words: seq<nat>, k: nat)
    requires k < |words| && forall w | w in words :: w < Pow16(WORD)
    ensures |EncodeProof(words)| == 64 * |words| && Value(EncodeProof(words)[64 * k..64 * k + 64]) == words[k]
    decreases k
  {
    hide Value, Pow16, NumToHex, EncodeProof;
    EncodeSplit(words);
    EncodeProofLength(words);
    var first, rest := NumToHex(words[0], WORD), EncodeProof(words[1..]);
    if k == 0 {
      assert (first + rest)[..64] == first;
    } else {
      EncodedWord(words[1..], k - 1);
      Shifted(first, rest, 64 * (k - 1));
    }
  }

  lemma EncodeSplit(words: seq<nat>)
    requires |words| > 0 && forall w | w in words :: w < Pow16(WORD)
    ensures EncodeProof(words) == NumToHex(words[0], WORD) + EncodeProof(words[1..])
    ensures |NumToHex(words[0], WORD)| == 64 && Value(NumToHex(words[0], WORD)) == words[0]
    ensures forall w | w in words[1..] :: w < Pow16(WORD)
  {
    hide Value, Pow16, NumToHex;
    assert words[0] in words;
    NumToHexFits(words[0], WORD);
    forall w | w in words[1..]
      ensures w in words
    {
    }
  }

  lemma Shifted(first: HexString, rest: HexString, at: nat)
    requires |first| == 64 && at + 64 <= |rest|
    ensures (first + rest)[at + 64..at + 128] == rest[at..at + 64]
  {
  }

  /** The eight words of a proof, from position `at` on. */
  predicate WordsAt(data: HexString, at: nat, words: seq<nat>) {
    at + 512 <= |data| && |words| == 8
    && forall k | 0 <= k < 8 :: Value(data[at + 64 * k..at + 64 * k + 64]) == words[k]
  }

  lemma SliceOfSlice(data: HexString, at: nat, n: nat, i: nat, j: nat)
    requires at + n <= |data| && i <= j <= n
    ensures data[at..at + n][i..j] == data[at + i..at + j]
  {
    assert data[at..at + n] == data[at..at + i] + data[at + i..at + j] + data[at + j..at + n];
  }

  lemma ProofAt(data: HexString, at: nat, words: seq<nat>)
    requires IsProof(words) && at + 512 <= |data| && data[at..at + 512] == EncodeProof(words)
    ensures WordsAt(data, at, words)
  {
    hide Value, Pow16;
    forall k | 0 <= k < 8
      ensures Value(data[at + 64 * k..at + 64 * k + 64]) == words[k]
    {
      EncodedWord(words, k);
      SliceOfSlice(data, at, 512, 64 * k, 64 * k + 64);
    }
  }

  /** Nullifier, commitment, index and amounts, from position `at` on. */
  predicate HeadAt(data: HexString, at: nat, tx: UserTx) {
    at + 184 <= |data|
    && Value(data[at..at + 64]) == tx.nullifier && Value(data[at + 64..at + 128]) == tx.outCommit
    && Value(data[at + 128..at + 140]) == tx.transferIndex % Pow16(12)
    && Value(data[at + 140..at + 168]) == tx.energyAmount % Pow16(28)
    && Value(data[at + 168..at + 184]) == tx.tokenAmount % Pow16(16)
  }

  /** Type, memo size, memo and signature, from position `at` to the end. */
  predicate TailAt(data: HexString, at: nat, tx: UserTx) {
    at + 8 + |tx.memo| <= |data|
    && data[at..at + 4] == [0, 0, 0, match tx.txType case Deposit => 0 case Transfer => 1 case Withdrawal => 2
                                                     case PermittableDeposit => 3]
    && 2 * Value(data[at + 4..at + 8]) == |tx.memo| && data[at + 8..at + 8 + |tx.memo|] == tx.memo
    && data[at + 8 + |tx.memo|..] == (match tx.depositSignature case None => [] case Some(s) => s)
  }

  lemma HeadParts(front: HexString, n: HexString, c: HexString, i: HexString, e: HexString, m: HexString,
                  back: HexString)
    requires |n| == |c| == 64 && |i| == 12 && |e| == 28 && |m| == 16
    ensures var data, at := front + n + c + (i + e + m) + back, |front|;
            && data[at..at + 64] == n && data[at + 64..at + 128] == c && data[at + 128..at + 140] == i
            && data[at + 140..at + 168] == e && data[at + 168..at + 184] == m && data[at + 184..] == back
  {
  }

  lemma HeadStands(front: HexString, tx: UserTx, back: HexString)
    requires InRange(tx)
    ensures var data := front + NumToHex(tx.nullifier, WORD) + NumToHex(tx.outCommit, WORD) + Delta(tx) + back;
            HeadAt(data, |front|, tx) && data[|front| + 184..] == back
  {
    hide NumToHex, Value, Pow16;
    NumToHexFits(tx.nullifier, WORD);
    NumToHexFits(tx.outCommit, WORD);
    PrintedModulo(tx.transferIndex, 12);
    PrintedModulo(tx.energyAmount, 28);
    PrintedModulo(tx.tokenAmount, 16);
    HeadParts(front, NumToHex(tx.nullifier, WORD), NumToHex(tx.outCommit, WORD), NumToHex(tx.transferIndex, 12),
      NumToHex(tx.energyAmount, 28), NumToHex(tx.tokenAmount, 16), back);
  }

  lemma TailStands(front: HexString, tx: UserTx)
    requires InRange(tx)
    ensures TailAt(front + Tail(tx), |front|, tx)
  {
    hide NumToHex, Value, Pow16;
    NumToHexFits(|tx.memo| / 2, 4);
    var data, at := front + Tail(tx), |front|;
    var size := NumToHex(|tx.memo| / 2, 4);
    assert data[at..at + 4] == TypeDigits(tx.txType);
    assert data[at + 4..at + 8] == size;
    assert data[at + 8..at + 8 + |tx.memo|] == tx.memo;
    assert data[at + 8 + |tx.memo|..] == Signature(tx);
  }

  /** `transactV2()`: selector and version, then every field at its position. */
  lemma LayoutV2(tx: UserTx)
    requires InRange(tx)
    ensures var data := BuildV2(tx);
            && |data| >= 714 && data[..10] == [5, 15, 13, 2, 8, 15, 8, 12, 0, 2]
            && HeadAt(data, 10, tx) && WordsAt(data, 194, tx.proof) && TailAt(data, 706, tx)
  {
    hide NumToHex, Value, Pow16, EncodeProof, Delta, Tail, HeadAt, TailAt, WordsAt;
    VersionIsTwo();
    EncodeProofLength(tx.proof);
    var front, proof := TRANSACT_V2_SELECTOR + NumToHex(VERSION, 2), EncodeProof(tx.proof);
    var head := front + NumToHex(tx.nullifier, WORD) + NumToHex(tx.outCommit, WORD) + Delta(tx);
    HeadStands(front, tx, proof + Tail(tx));
    HeadStands(front, tx, []);
    var data := BuildV2(tx);
    Assoc(head, proof, Tail(tx));
    HeadLength(front, tx);
    assert data[194..706] == proof;
    ProofAt(data, 194, tx.proof);
    TailStands(head + proof, tx);
    TailIsThere(head + proof, tx);
  }

  lemma HeadLength(front: HexString, tx: UserTx)
    requires InRange(tx)
    ensures |front + NumToHex(tx.nullifier, WORD) + NumToHex(tx.outCommit, WORD) + Delta(tx)| == |front| + 184
  {
    hide NumToHex, Value, Pow16, EncodeProof, Delta;
    PartsOf(tx);
  }

  lemma TailIsThere(front: HexString, tx: UserTx)
    requires InRange(tx)
    ensures |front + Tail(tx)| >= |front| + 8
  {
    TailStands(front, tx);
  }

  lemma VersionIsTwo()
    ensures NumToHex(VERSION, 2) == [0, 2]
  {
  }

  /** `transact()`: the same, with the new root and the tree proof before the type. */
  lemma LayoutV1(tx: UserTx, rootAfter: nat, treeProof: seq<nat>)
    requires InRange(tx) && rootAfter < Pow16(WORD) && IsProof(treeProof)
    ensures var data := BuildV1(tx, rootAfter, treeProof);
            && |data| >= 1288 && data[..8] == [10, 15, 9, 8, 9, 0, 8, 3]
            && HeadAt(data, 8, tx) && WordsAt(data, 192, tx.proof)
            && Value(data[704..768]) == rootAfter && WordsAt(data, 768, treeProof) && TailAt(data, 1280, tx)
  {
    hide NumToHex, Value, Pow16, EncodeProof, Delta, Tail, HeadAt, TailAt, WordsAt;
    EncodeProofLength(tx.proof);
    EncodeProofLength(treeProof);
    NumToHexFits(rootAfter, WORD);
    var front, proof := TRANSACT_SELECTOR, EncodeProof(tx.proof);
    var root, tree := NumToHex(rootAfter, WORD), EncodeProof(treeProof);
    var head := front + NumToHex(tx.nullifier, WORD) + NumToHex(tx.outCommit, WORD) + Delta(tx);
    HeadStands(front, tx, proof + root + tree + Tail(tx));
    HeadLength(front, tx);
    var data := BuildV1(tx, rootAfter, treeProof);
    MiddleParts(head, proof, root, tree, Tail(tx));
    ProofAt(data, 192, tx.proof);
    ProofAt(data, 768, treeProof);
    TailStands(head + proof + root + tree, tx);
    TailIsThere(head + proof + root + tree, tx);
  }

  lemma MiddleParts(head: HexString, proof: HexString, root: HexString, tree: HexString, tail: HexString)
    requires |head| == 192 && |proof| == |tree| == 512 && |root| == 64
    ensures var data := head + proof + root + tree + tail;
            && data == head + (proof + root + tree + tail) && data[192..704] == proof
            && data[704..768] == root && data[768..1280] == tree
  {
  }

  // ---------- What the parser makes of any calldata ----------

  /** Direct deposits: the commitment is the second word after the selector, in the
      old form the third, and the memo comes with the event. Parameters that end before
      that word are refused. */
  lemma DepositCommitment(w0: HexString, w1: HexString, w2: HexString, rest: HexString, message: HexString)
    requires |w0| == |w1| == |w2| == 64
    ensures Decode([14, 6, 11, 1, 4, 2, 7, 2] + w0 + w1 + rest, message) == Ok(Decoded(Value(w1), message, None))
    ensures Decode([1, 13, 12, 4, 12, 11, 3, 3] + w0 + w1 + w2 + rest, message)
         == Ok(Decoded(Value(w2), message, None))
  {
    hide Value;
    var later := [14, 6, 11, 1, 4, 2, 7, 2] + w0 + w1 + rest;
    var earlier := [1, 13, 12, 4, 12, 11, 3, 3] + w0 + w1 + w2 + rest;
    assert later[..8] == DIRECT_DEPOSIT_SELECTOR && later[72..136] == w1;
    assert earlier[..8] == DIRECT_DEPOSIT_OLD_SELECTOR && earlier[136..200] == w2 && earlier[0] == 1;
  }

  lemma ShortDepositFails(params: HexString, message: HexString)
    ensures |params| < 128 ==> Decode([14, 6, 11, 1, 4, 2, 7, 2] + params, message).Err?
    ensures |params| < 192 ==> Decode([1, 13, 12, 4, 12, 11, 3, 3] + params, message).Err?
  {
    var later, earlier := [14, 6, 11, 1, 4, 2, 7, 2] + params, [1, 13, 12, 4, 12, 11, 3, 3] + params;
    assert later[..8] == DIRECT_DEPOSIT_SELECTOR;
    assert earlier[..8] == DIRECT_DEPOSIT_OLD_SELECTOR && earlier[0] == 1;
  }

  /** Calldata of another function is refused. */
  lemma UnknownSelectorFails(input: HexString, message: HexString)
    requires |input| >= 8 ==>
               && input[..8] != [14, 6, 11, 1, 4, 2, 7, 2] && input[..8] != [1, 13, 12, 4, 12, 11, 3, 3]
               && input[..8] != [10, 15, 9, 8, 9, 0, 8, 3] && input[..8] != [5, 15, 13, 2, 8, 15, 8, 12]
    ensures Decode(input, message).Err?
  {
    hide DecodeTransact, DecodeDeposit;
    NotPrefix(input, DIRECT_DEPOSIT_SELECTOR);
    NotPrefix(input, DIRECT_DEPOSIT_OLD_SELECTOR);
    NotPrefix(input, TRANSACT_SELECTOR);
    NotPrefix(input, TRANSACT_V2_SELECTOR);
  }

  lemma NotPrefix(input: HexString, selector: HexString)
    requires |selector| == 8 && (|input| >= 8 ==> input[..8] != selector)
    ensures !StartsWith(input, selector)
  {
  }

  /** What is read from calldata that holds every field before the memo at its
      position, whoever built it: `at` is where the type stands. A type that is none of
      the four is an error; a memo that ends early is taken as far as it goes. */
  predicate ReadFrom(r: Result<Decoded>, data: HexString, head: nat, at: nat, version: MemoVersion)
    requires head + 128 <= at && at + 8 <= |data|
  {
    var memo := data[at + 8..Min(at + 8 + 2 * Value(data[at + 4..at + 8]), |data|)];
    if data[at..at + 3] == [0, 0, 0] && data[at + 3] < 4 then
      var txType := match data[at + 3] case 0 => Deposit case 1 => Transfer case 2 => Withdrawal
                                       case _ => PermittableDeposit;
      r == Ok(Decoded(Value(data[head + 64..head + 128]), TruncateMemo(version, memo, txType),
                      Some(Value(data[head..head + 64]))))
    else r.Err?
  }

  lemma FieldIs(layout: Layout, data: HexString, f: Field, size: nat)
    requires 2 * Span(layout, f).0 + 2 * (if size != 0 then size else Span(layout, f).1) <= |data|
    ensures var at := 2 * Span(layout, f).0;
            GetField(layout, data, f, size) == data[at..at + 2 * if size != 0 then size else Span(layout, f).1]
  {
    var at, n := 2 * Span(layout, f).0, 2 * if size != 0 then size else Span(layout, f).1;
    assert data[..at + n][at..] == data[at..at + n];
  }

  lemma MemoIs(layout: Layout, data: HexString, size: nat)
    requires 2 * Span(layout, Memo).0 <= |data|
    ensures var at := 2 * Span(layout, Memo).0;
            GetField(layout, data, Memo, size) == data[at..Min(at + 2 * size, |data|)]
  {
    var at := 2 * Span(layout, Memo).0;
    if at + 2 * size <= |data| {
      assert data[..at + 2 * size][at..] == data[at..at + 2 * size];
    }
  }

  lemma TypeOf(h: HexString)
    requires |h| == 4
    ensures if h[..3] == [0, 0, 0] && h[3] < 4
            then ToTxType(h) == Ok(match h[3] case 0 => Deposit case 1 => Transfer case 2 => Withdrawal
                                              case _ => PermittableDeposit)
            else ToTxType(h).Err?
  {
    assert h == h[..3] + [h[3]];
  }

  lemma DecodeTransactIs(layout: Layout, input: HexString)
    requires 2 * Span(layout, Memo).0 <= |Buffered(input)|
    ensures var data, at := Buffered(input), 2 * Span(layout, TypeField).0;
            ReadFrom(DecodeTransact(layout, input), data, 2 * Span(layout, Nullifier).0, at, MemoVersionOf(layout))
  {
    hide GetField, Value, TruncateMemo, ToTxType, Buffered;
    var data, at := Buffered(input), 2 * Span(layout, TypeField).0;
    FieldIs(layout, data, TypeField, 0);
    FieldIs(layout, data, MemoSize, 0);
    FieldIs(layout, data, Nullifier, 0);
    FieldIs(layout, data, OutCommit, 0);
    MemoIs(layout, data, Value(data[at + 4..at + 8]));
    TypeOf(data[at..at + 4]);
    assert data[at..at + 4][..3] == data[at..at + 3];
  }

  /** `transact()` and `transactV2()` calldata, parsed by position. */
  lemma ReadsByPosition(input: HexString, message: HexString)
    ensures |Buffered(input)| >= 1288 && input[..8] == [10, 15, 9, 8, 9, 0, 8, 3] ==>
              ReadFrom(Decode(input, message), Buffered(input), 8, 1280, MemoV1)
    ensures |Buffered(input)| >= 714 && input[..8] == [5, 15, 13, 2, 8, 15, 8, 12] ==>
              ReadFrom(Decode(input, message), Buffered(input), 10, 706, MemoV2)
  {
    hide GetField, Value, TruncateMemo, ToTxType, DecodeTransact, ReadFrom;
    if |Buffered(input)| >= 1288 && input[..8] == TRANSACT_SELECTOR {
      FirstSelector(input, TRANSACT_SELECTOR);
      DecodeTransactIs(V1, input);
    }
    if |Buffered(input)| >= 714 && input[..8] == TRANSACT_V2_SELECTOR {
      FirstSelector(input, TRANSACT_V2_SELECTOR);
      DecodeTransactIs(V2, input);
    }
  }

  /** Calldata that ends before its type is refused. */
  lemma ShortTransactFails(input: HexString, message: HexString)
    ensures |Buffered(input)| < 1284 && TRANSACT_SELECTOR <= input ==> Decode(input, message).Err?
    ensures |Buffered(input)| < 710 && TRANSACT_V2_SELECTOR <= input ==> Decode(input, message).Err?
  {
    hide Value, TruncateMemo;
    if TRANSACT_SELECTOR <= input {
      FirstSelector(input, TRANSACT_SELECTOR);
    }
    if TRANSACT_V2_SELECTOR <= input {
      FirstSelector(input, TRANSACT_V2_SELECTOR);
    }
    assert |Buffered(input)| < 1284 ==> |GetField(V1, Buffered(input), TypeField, 0)| < 4;
    assert |Buffered(input)| < 710 ==> |GetField(V2, Buffered(input), TypeField, 0)| < 4;
  }

  /** The record `RelayPool.onSend` caches for a transaction it sent as `txHash`. */
  function CachedRecord(tx: UserTx, txHash: HexString): HexString {
    PrefixedMemo(tx.outCommit, txHash, TruncateMemo(MemoV2, tx.memo, tx.txType))
  }

  /** The record `addTxToState` stores for calldata mined as `txHash`. */
  function IndexedRecord(input: HexString, message: HexString, txHash: HexString): Result<HexString> {
    match Decode(input, message)
    case Err(e) => Err(e)
    case Ok(d) => Ok(PrefixedMemo(d.outCommit, txHash, d.memo))
  }

  /** The two services, which share nothing but the chain, hold one record. */
  lemma RecordsAgree(tx: UserTx, txHash: HexString, message: HexString)
    requires InRange(tx)
    ensures IndexedRecord(BuildV2(tx), message, txHash) == Ok(CachedRecord(tx, txHash))
  {
    DecodeBuildV2(tx, message);
  }
}
