/** The relayer's store of sent transactions (`TxStore.ts`): twelve digits of
    timestamp and the record, under the commitment of the transaction. */
module LocalCache {

  import opened Hex
  import opened Outcome

  /** Digits of `TIMESTAMP_BYTES`. */
  const TIMESTAMP: nat := 12

  datatype CachedTx = CachedTx(memo: HexString, timestamp: nat)

  function Stamped(memo: HexString, timestamp: nat): HexString {
    PadLeft(Digits(timestamp), TIMESTAMP) + memo
  }

  function Unstamped(data: HexString): CachedTx {
    CachedTx(From(data, TIMESTAMP), Value(Slice(data, 0, TIMESTAMP)))
  }

  function UnstampedAll(entries: map<nat, HexString>): map<nat, CachedTx> {
    map c | c in entries :: Unstamped(entries[c])
  }

  class TxStore {
    var entries: map<nat, HexString>

    constructor ()
      ensures entries == map[]
    {
      entries := map[];
    }

    method Add(commitment: nat, memo: HexString, timestamp: nat)
      modifies this
      ensures entries == old(entries)[commitment := Stamped(memo, timestamp)]
    {
      entries := entries[commitment := Stamped(memo, timestamp)];
    }

    method Remove(commitment: nat)
      modifies this
      ensures entries == old(entries) - {commitment}
    {
      entries := entries - {commitment};
    }

    /** An empty string would read as absent, like a missing key. */
    method Get(commitment: nat) returns (tx: Option<CachedTx>)
      ensures tx == if commitment in entries && entries[commitment] != []
                    then Some(Unstamped(entries[commitment])) else None
    {
      if commitment !in entries || entries[commitment] == [] {
        return None;
      }
      tx := Some(Unstamped(entries[commitment]));
    }

    method GetAll() returns (all: map<nat, CachedTx>)
      ensures all == UnstampedAll(entries)
    {
      all := map c | c in entries :: Unstamped(entries[c]);
    }
  }

  /** What the store gives back is what was put in precisely for timestamps of
      at most 48 bits; a later one would shift its last digit into the record. */
  lemma StampRoundTrip(memo: HexString, timestamp: nat)
    ensures Unstamped(Stamped(memo, timestamp)) == CachedTx(memo, timestamp) <==> timestamp < Pow16(TIMESTAMP)
  {
    hide Value, Digits, Pow16;
    DigitsFit(timestamp, TIMESTAMP);
    var h := PadLeft(Digits(timestamp), TIMESTAMP);
    PadLeftValue(Digits(timestamp), TIMESTAMP);
    var data := h + memo;
    if timestamp < Pow16(TIMESTAMP) {
      assert data[..TIMESTAMP] == h;
      assert data[TIMESTAMP..] == memo;
    } else {
      assert |data[TIMESTAMP..]| > |memo|;
    }
  }

  /** Twelve digits of time, then the record. */
  lemma StampLayout(memo: HexString, timestamp: nat)
    requires timestamp < Pow16(12)
    ensures var data := Stamped(memo, timestamp);
            |data| == 12 + |memo| && Value(data[..12]) == timestamp && data[12..] == memo
  {
    hide Value, Digits, Pow16;
    DigitsFit(timestamp, TIMESTAMP);
    PadLeftValue(Digits(timestamp), TIMESTAMP);
    assert Stamped(memo, timestamp)[..12] == PadLeft(Digits(timestamp), 12);
  }
}
