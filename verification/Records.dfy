/** The stored transaction record `commitment ++ txHash ++ memo`, the wire
    format of `/transactions/v2`, and the memo prefixes cut before storing. */
module Records {

  import opened Hex

  /** Digits of a transaction hash without `0x`. */
  const HASH: nat := 64

  datatype TxType = Deposit | Transfer | Withdrawal | PermittableDeposit

  /** `TRUNCATED` prefix lengths, in digits, of the two memo versions. */
  datatype MemoVersion = MemoV1 | MemoV2

  function PrefixLength(version: MemoVersion, txType: TxType): nat {
    match (version, txType)
    case (MemoV1, Deposit) => 16
    case (MemoV1, Transfer) => 16
    case (MemoV1, Withdrawal) => 72
    case (MemoV1, PermittableDeposit) => 72
    case (MemoV2, Deposit) => 116
    case (MemoV2, Transfer) => 116
    case (MemoV2, Withdrawal) => 172
    case (MemoV2, PermittableDeposit) => 172
  }

  function TruncateMemo(version: MemoVersion, memo: HexString, txType: TxType): HexString {
    From(memo, PrefixLength(version, txType))
  }

  function PrefixedMemo(outCommit: nat, txHash: HexString, truncatedMemo: HexString): HexString {
    NumToHex(outCommit, WORD) + txHash + truncatedMemo
  }

  /** The commitment that a stored record starts with. */
  function CommitmentOf(record: HexString): nat {
    Value(Slice(record, 0, WORD))
  }

  /** State flags of the wire format: `0` sent, `1` confirmed, `2` optimistic. */
  const SENT: Digit := 0
  const CONFIRMED: Digit := 1
  const OPTIMISTIC: Digit := 2

  function ToV2Format(flag: Digit, tx: HexString): HexString {
    [flag] + Slice(tx, WORD, WORD + HASH) + Slice(tx, 0, WORD) + From(tx, WORD + HASH)
  }

  datatype WireTx = WireTx(isMined: bool, txHash: HexString, commitment: HexString, memo: HexString)

  function FromWire(tx: HexString): WireTx {
    WireTx(Slice(tx, 0, 1) == [CONFIRMED], Slice(tx, 1, 65), Slice(tx, 65, 129), From(tx, 129))
  }

  /** A record that holds at least its commitment and its hash. */
  predicate IsRecord(record: HexString) {
    |record| >= WORD + HASH
  }

  /** A record carries its commitment, hash and memo. */
  lemma PrefixedMemoParts(outCommit: nat, txHash: HexString, memo: HexString)
    requires outCommit < Pow16(WORD) && |txHash| == HASH
    ensures var r := PrefixedMemo(outCommit, txHash, memo);
            IsRecord(r) && CommitmentOf(r) == outCommit
            && Slice(r, WORD, WORD + HASH) == txHash && From(r, WORD + HASH) == memo
  {
    hide Value, Pow16, NumToHex;
    NumToHexFits(outCommit, WORD);
    var c := NumToHex(outCommit, WORD);
    var r := PrefixedMemo(outCommit, txHash, memo);
    assert r[..WORD] == c;
    assert r[..WORD + HASH][WORD..] == txHash;
    assert r[WORD + HASH..] == memo;
  }

  /** What a client reads off the wire is the stored record and whether it was
      sent as confirmed: no part is lost or moved. */
  lemma WireRoundTrip(flag: Digit, record: HexString)
    requires IsRecord(record)
    ensures var w := FromWire(ToV2Format(flag, record));
            && w.isMined == (flag == CONFIRMED)
            && w.commitment + w.txHash + w.memo == record
            && |w.commitment| == WORD && |w.txHash| == HASH
            && Value(w.commitment) == CommitmentOf(record)
  {
    var c, h, m := record[..WORD], record[WORD..WORD + HASH], record[WORD + HASH..];
    var wire := ToV2Format(flag, record);
    assert Slice(record, WORD, WORD + HASH) == h;
    assert wire == [flag] + h + c + m;
    assert wire[..1] == [flag];
    assert wire[..65][1..] == h;
    assert wire[..129][65..] == c;
    assert wire[129..] == m;
    assert c + h + m == record;
  }

  /** Cutting the prefix of a memo leaves what follows its fields: the fees, and for
      two of the types an amount and an address. */
  lemma TruncateLeavesRest(version: MemoVersion, txType: TxType, fees: HexString, amount: HexString,
                           address: HexString, rest: HexString)
    requires |fees| == (if version == MemoV1 then 16 else 116) && |amount| == 16 && |address| == 40
    ensures txType == Deposit || txType == Transfer ==> TruncateMemo(version, fees + rest, txType) == rest
    ensures txType == Withdrawal || txType == PermittableDeposit ==>
              TruncateMemo(version, fees + amount + address + rest, txType) == rest
  {
    assert (fees + amount + address + rest)[|fees| + 56..] == rest;
  }

  /** Where the wire format puts the flag, the hash, the commitment and the memo. */
  lemma WireLayout(flag: Digit, record: HexString)
    requires |record| >= 128
    ensures var wire := ToV2Format(flag, record);
            && |wire| == |record| + 1 && wire[0] == flag
            && wire[1..65] == record[64..128] && wire[65..129] == record[..64] && wire[129..] == record[128..]
  {
    WireRoundTrip(flag, record);
    var h := record[..128][64..];
    assert h == record[64..128];
    assert ToV2Format(flag, record) == [flag] + h + record[..64] + record[128..];
  }

  /** Of the three flags a client takes exactly the one of confirmed entries as mined. */
  lemma FlagsAre(record: HexString)
    requires IsRecord(record)
    ensures FromWire(ToV2Format(CONFIRMED, record)).isMined
    ensures !FromWire(ToV2Format(SENT, record)).isMined && !FromWire(ToV2Format(OPTIMISTIC, record)).isMined
    ensures ToV2Format(SENT, record)[0] == 0 && ToV2Format(CONFIRMED, record)[0] == 1
    ensures ToV2Format(OPTIMISTIC, record)[0] == 2
  {
    WireRoundTrip(SENT, record);
    WireRoundTrip(CONFIRMED, record);
    WireRoundTrip(OPTIMISTIC, record);
  }

  /** The digits of a record: commitment, hash, memo. */
  lemma PrefixedIs(commit: nat, txHash: HexString, memo: HexString)
    requires commit < Pow16(WORD) && |txHash| == HASH
    ensures var r := PrefixedMemo(commit, txHash, memo);
            |r| == 128 + |memo| && Value(r[..64]) == commit && r[64..128] == txHash && r[128..] == memo
  {
    hide Pow16, Value, NumToHex;
    NumToHexFits(commit, WORD);
    assert PrefixedMemo(commit, txHash, memo)[..64] == NumToHex(commit, WORD);
  }

  /** The record's digits: commitment, hash, and the memo without an unpaired last digit. */
  predicate Carries(record: HexString, outCommit: nat, txHash: HexString, memo: HexString) {
    |record| >= 128 && Value(record[..64]) == outCommit && record[64..128] == txHash
    && record[128..] == memo[..|memo| - |memo| % 2]
  }

  lemma StoredCarries(outCommit: nat, txHash: HexString, memo: HexString)
    requires outCommit < Pow16(WORD) && |txHash| == HASH
    ensures Carries(Buffered(PrefixedMemo(outCommit, txHash, memo)), outCommit, txHash, memo)
    ensures |memo| % 2 == 0 ==> Carries(PrefixedMemo(outCommit, txHash, memo), outCommit, txHash, memo)
  {
    hide Value, Pow16, PrefixedMemo;
    PrefixedIs(outCommit, txHash, memo);
    var r := PrefixedMemo(outCommit, txHash, memo);
    var s := Buffered(r);
    assert s[..64] == r[..64] && s[64..128] == r[64..128] && s[128..] == r[128..][..|memo| - |memo| % 2];
  }
}
