/** Fee options, their conversion to pool units, and the fee a transaction must
    pay against the fee that was quoted. */
module Fees {

  import opened Bounds
  import opened Outcome
  import opened Records

  /** `2^255`: the flag that a denominator divides instead of multiplying. */
  const INVERSE_FLAG: nat := 0x8000_0000_0000_0000_0000_0000_0000_0000_0000_0000_0000_0000_0000_0000_0000_0000

  /** A 256-bit denominator. */
  type Denominator = d: nat | d < 2 * INVERSE_FLAG && d % INVERSE_FLAG != 0 witness 1

  /** `BN.div` truncates toward zero. */
  function Div(n: int, d: int): int
    requires d > 0
  {
    if n >= 0 then n / d else -(-n / d)
  }

  function ApplyDenominator(n: int, d: Denominator): int
  {
    if d >= INVERSE_FLAG then Div(n, d % INVERSE_FLAG) else n * d
  }

  /** `denominator.xor(2^255)`. */
  function FlipFlag(d: Denominator): Denominator
  {
    if d >= INVERSE_FLAG then d - INVERSE_FLAG else d + INVERSE_FLAG
  }

  /** One entry of `FeeOptions.denominate`. */
  function Denominated(p: int, d: Denominator): int
  {
    ApplyDenominator(p, FlipFlag(d))
  }

  /** A multiplying denominator: converting to token units and back is exact. */
  lemma DenominateUndoesApply(n: int, d: Denominator)
    requires d < INVERSE_FLAG
    ensures Denominated(ApplyDenominator(n, d), d) == n
  {
    var k := FlipFlag(d) % INVERSE_FLAG;
    assert k == d;
    DivExact(n, d);
  }

  lemma QuotientUnique(m: int, d: nat, q: int, r: nat)
    requires d > 0 && m == q * d + r && r < d
    ensures m / d == q
  {
    var e, t := m / d, m % d;
    assert m == e * d + t;
    if e > q {
      Times(e, q + 1, d);
    } else {
      Times(q, e, d);
      if e < q {
        Times(q, e + 1, d);
      }
    }
  }

  lemma DivExact(n: int, d: nat)
    requires d > 0
    ensures Div(n * d, d) == n
  {
    if n >= 0 {
      Times(n, 0, d);
      QuotientUnique(n * d, d, n, 0);
    } else {
      Times(-1, n, d);
      assert -(n * d) == -n * d;
      QuotientUnique(-n * d, d, -n, 0);
    }
  }

  lemma Times(a: int, b: int, d: nat)
    requires a >= b
    ensures a * d >= b * d
    ensures (a + 1) * d == a * d + d && (b + 1) * d == b * d + d
  {
  }

  /** A dividing denominator: the exact direction is the other one. */
  lemma ApplyUndoesDenominate(p: int, d: Denominator)
    requires d >= INVERSE_FLAG
    ensures ApplyDenominator(Denominated(p, d), d) == p
  {
    DivExact(p, d - INVERSE_FLAG);
  }

  /** In the rounding direction the two form a Galois connection: `n` pool units
      are covered by `m` token units exactly when `n` is at most the denominated
      amount. */
  lemma Galois(n: int, m: nat, d: Denominator)
    requires d < INVERSE_FLAG
    ensures ApplyDenominator(n, d) <= m <==> n <= Denominated(m, d)
  {
    var q := m / d;
    assert Denominated(m, d) == q;
    assert m == q * d + m % d;
    if n <= q {
      assert n * d <= q * d;
    } else {
      assert n * d >= (q + 1) * d == q * d + d;
    }
  }

  // ---------- Fee options, updated in place ----------

  datatype FeeKey = Base(txType: TxType) | OneByteFee | NativeConvertFee

  type Table = map<FeeKey, int>

  function Each(fees: Table, f: (FeeKey, int) -> int): Table {
    map k | k in fees :: f(k, fees[k])
  }

  function Scaled(p: int, factor: nat): int {
    Div(p * factor, 100)
  }

  /** A fee, but not less than its minimum. */
  function Bounded(minFees: Option<Table>, k: FeeKey, p: int): int {
    if minFees.Some? && k in minFees.value then Max(p, minFees.value[k]) else p
  }

  function AllBounded(fees: Table, minFees: Option<Table>): Table {
    map k | k in fees :: Bounded(minFees, k, fees[k])
  }

  class FeeOptions {
    var fees: Table
    const minFees: Option<Table>

    constructor (fees: Table, minFees: Option<Table>)
      ensures this.fees == fees && this.minFees == minFees
    {
      this.fees, this.minFees := fees, minFees;
    }

    method MapI(f: (FeeKey, int) -> int)
      modifies this
      ensures fees == Each(old(fees), f)
    {
      var rest := fees.Keys;
      while rest != {}
        invariant rest <= fees.Keys == old(fees).Keys
        invariant forall k | k in fees :: fees[k] == if k in rest then old(fees)[k] else f(k, old(fees)[k])
        decreases |rest|
      {
        var k :| k in rest;
        fees := fees[k := f(k, fees[k])];
        rest := rest - {k};
      }
    }

    method ApplyFactor(factor: nat)
      modifies this
      ensures fees == Each(old(fees), (k, p) => Scaled(p, factor))
    {
      MapI((k, p) => Scaled(p, factor));
    }

    method Denominate(denominator: Denominator)
      modifies this
      ensures fees == Quote(old(fees), denominator)
    {
      MapI((k, p) => Denominated(p, denominator));
      assert fees == Quote(old(fees), denominator);
    }

    method ApplyMinBound()
      modifies this
      ensures fees == AllBounded(old(fees), minFees)
    {
      if minFees.None? {
        assert fees == AllBounded(fees, minFees);
        return;
      }
      var min := minFees;
      MapI((k, p) => Bounded(min, k, p));
      assert fees == AllBounded(old(fees), minFees);
    }

    method Clone() returns (clone: FeeOptions)
      ensures fresh(clone) && clone.fees == fees && clone.minFees == minFees
    {
      clone := new FeeOptions(fees, minFees);
    }
  }

  class FeeManager {
    const marginFactor: nat
    var cachedFeeOptions: FeeOptions?

    constructor (marginFactor: nat)
      ensures this.marginFactor == marginFactor && cachedFeeOptions == null
    {
      this.marginFactor, cachedFeeOptions := marginFactor, null;
    }

    /** `fetched` is what the fetch gives, `None` when it throws; the result is
        `None` when that error is passed on. The cached object is never handed out. */
    method GetFeeOptions(useCached: bool, fetched: Option<(Table, Option<Table>)>) returns (options: Option<FeeOptions>)
      ensures options.None? <==> cachedFeeOptions == null && fetched.None?
      ensures options.Some? ==> fresh(options.value)
      ensures useCached && cachedFeeOptions != null ==> options.value.fees == cachedFeeOptions.fees
      ensures !(useCached && cachedFeeOptions != null) && fetched.Some?
              ==> options.value.fees == AllBounded(fetched.value.0, fetched.value.1)
      ensures !useCached && fetched.None? && cachedFeeOptions != null
              ==> options.value.fees == AllBounded(cachedFeeOptions.fees, cachedFeeOptions.minFees)
    {
      if useCached && cachedFeeOptions != null {
        var clone := cachedFeeOptions.Clone();
        return Some(clone);
      }
      var feeOptions: FeeOptions;
      if fetched.Some? {
        feeOptions := new FeeOptions(fetched.value.0, fetched.value.1);
      } else if cachedFeeOptions == null {
        return None;
      } else {
        feeOptions := cachedFeeOptions.Clone();
      }
      feeOptions.ApplyMinBound();
      return Some(feeOptions);
    }

    /** The `/fee` endpoint denominates in place, and still quotes the same fees
        every time: what it changes is a copy of the cached options. */
    method GetFee(denominator: Denominator, fetched: Option<(Table, Option<Table>)>) returns (quote: Option<Table>)
      ensures cachedFeeOptions != null ==> quote == Some(Quote(cachedFeeOptions.fees, denominator))
      ensures cachedFeeOptions == null && fetched.Some?
              ==> quote == Some(Quote(AllBounded(fetched.value.0, fetched.value.1), denominator))
      ensures quote.None? <==> cachedFeeOptions == null && fetched.None?
    {
      var options := GetFeeOptions(true, fetched);
      if options.None? {
        return None;
      }
      options.value.Denominate(denominator);
      return Some(options.value.fees);
    }

    /** The fee that a transaction is checked against: from options that are
        fetched anew, or else from the cached ones, with the margin. */
    method EstimateFee(txType: TxType, nativeConvert: bool, txData: nat, fetched: Option<(Table, Option<Table>)>)
      returns (fee: Option<int>)
      requires fetched.Some? ==> Complete(fetched.value.0)
      requires cachedFeeOptions != null ==> Complete(cachedFeeOptions.fees)
      ensures fee.None? <==> cachedFeeOptions == null && fetched.None?
      ensures fetched.Some? ==>
                fee == Some(RequiredFee(
                  AllBounded(fetched.value.0, fetched.value.1), txType, nativeConvert, txData, marginFactor))
      ensures fetched.None? && cachedFeeOptions != null ==>
                fee == Some(RequiredFee(
                  AllBounded(cachedFeeOptions.fees, cachedFeeOptions.minFees),
                  txType, nativeConvert, txData, marginFactor))
    {
      var options := GetFeeOptions(false, fetched);
      if options.None? {
        return None;
      }
      var fees := options.value.fees;
      var estimate := fees[Base(txType)] + fees[OneByteFee] * CalldataLength(txData);
      if nativeConvert {
        estimate := estimate + fees[NativeConvertFee];
      }
      return Some(Scaled(estimate, marginFactor));
    }
  }

  // ---------- Required fee against quoted fee ----------

  /** All six fees are there and none is negative. */
  predicate Complete(o: Table) {
    && (forall t: TxType :: Base(t) in o) && OneByteFee in o && NativeConvertFee in o
    && forall k | k in o :: o[k] >= 0
  }

  /** Length in bytes of `0x`-prefixed calldata text. */
  function CalldataLength(txData: nat): int {
    txData / 2 - 1
  }

  /** `FeeManager.estimateFee` over `DynamicFeeManager._estimateFee`. */
  function RequiredFee(o: Table, txType: TxType, nativeConvert: bool, txData: nat, margin: nat): int
    requires Base(txType) in o && OneByteFee in o && NativeConvertFee in o
  {
    var fee := o[Base(txType)] + o[OneByteFee] * CalldataLength(txData);
    Scaled(if nativeConvert then fee + o[NativeConvertFee] else fee, margin)
  }

  /** The quote of `/fee`: every component denominated on its own. */
  function Quote(o: Table, d: Denominator): Table
  {
    map k | k in o :: Denominated(o[k], d)
  }

  /** What a client that read the quote computes for its transaction. */
  function QuotedFee(q: Table, txType: TxType, nativeConvert: bool, txData: nat): int
    requires Base(txType) in q && OneByteFee in q && NativeConvertFee in q
  {
    q[Base(txType)] + q[OneByteFee] * CalldataLength(txData) + if nativeConvert then q[NativeConvertFee] else 0
  }

  /** Division drops the fraction on both sides of zero. */
  lemma DivTruncates(n: nat, d: nat)
    requires d > 0
    ensures Div(n, d) * d <= n < Div(n, d) * d + d
    ensures Div(0 - n, d) == 0 - Div(n, d)
  {
    DivisionParts(n, d);
  }

  /** A factor is a percentage, rounded down. */
  lemma ScaledIs(p: nat, factor: nat)
    ensures 100 * Scaled(p, factor) <= p * factor < 100 * Scaled(p, factor) + 100
  {
    assert p * factor >= 0;
    DivisionParts(p * factor, 100);
  }

  /** A bounded fee is its minimum or itself, whichever is more; without a minimum it
      is itself, and no fee is added or lost. */
  lemma BoundedIs(fees: Table, minFees: Option<Table>, k: FeeKey)
    requires k in fees
    ensures var bounded := AllBounded(fees, minFees);
            && bounded.Keys == fees.Keys
            && (minFees.Some? && k in minFees.value ==>
                  && bounded[k] >= fees[k] && bounded[k] >= minFees.value[k]
                  && (bounded[k] == fees[k] || bounded[k] == minFees.value[k]))
            && (minFees.None? || k !in minFees.value ==> bounded[k] == fees[k])
  {
  }

  /** A quoted fee in pool units: rounded down by a multiplying denominator, multiplied
      by a dividing one. */
  lemma QuoteIs(o: Table, d: Denominator, k: FeeKey)
    requires k in o && o[k] >= 0
    ensures var q := Quote(o, d);
            && q.Keys == o.Keys
            && (d < INVERSE_FLAG ==> q[k] * d <= o[k] < q[k] * d + d)
            && (d >= INVERSE_FLAG ==> q[k] == o[k] * (d - INVERSE_FLAG))
  {
    if d < INVERSE_FLAG {
      DivTruncates(o[k], d);
    }
  }

  /** The required fee for `n` bytes of calldata, written with `0x` and two characters
      a byte: base fee, bytes and conversion, times the margin in percent. */
  lemma RequiredFeeIs(o: Table, txType: TxType, nativeConvert: bool, n: nat, margin: nat)
    requires Complete(o)
    ensures var total := o[Base(txType)] + o[OneByteFee] * n + (if nativeConvert then o[NativeConvertFee] else 0);
            var fee := RequiredFee(o, txType, nativeConvert, 2 + 2 * n, margin);
            100 * fee <= total * margin < 100 * fee + 100
  {
    assert CalldataLength(2 + 2 * n) == n;
    var b, y := o[Base(txType)], o[OneByteFee];
    assert y * n >= 0;
    var total: nat := b + y * n + if nativeConvert then o[NativeConvertFee] else 0;
    ScaledIs(total, margin);
  }

  /** With margin 100 and the same options, the required fee is never below the
      component-wise quote and exceeds it by at most `len + 1` (`len` without
      native conversion): one unit for every component that was rounded down. */
  lemma RequiredAgainstQuote(o: Table, txType: TxType, nativeConvert: bool, txData: nat, d: Denominator)
    requires Complete(o) && d < INVERSE_FLAG && txData >= 2
    ensures var required := Denominated(RequiredFee(o, txType, nativeConvert, txData, 100), d);
            var quoted := QuotedFee(Quote(o, d), txType, nativeConvert, txData);
            0 <= required - quoted <= CalldataLength(txData) + if nativeConvert then 1 else 0
  {
    var len: nat := CalldataLength(txData);
    var b, y, n := o[Base(txType)], o[OneByteFee], if nativeConvert then o[NativeConvertFee] else 0;
    var fee := b + y * len + n;
    assert fee * 100 / 100 == fee;
    DenominatePlain(fee, d);
    DenominatePlain(b, d);
    DenominatePlain(y, d);
    DenominatePlain(n, d);
    hide Denominated;
    Rounding(b, y, n, len, d);
    if !nativeConvert {
      assert 0 / d == 0;
      assert n % d == 0;
    }
  }

  lemma DenominatePlain(p: nat, d: Denominator)
    requires d < INVERSE_FLAG
    ensures Denominated(p, d) == p / d
  {
  }

  /** `floor` of a sum against the sum of `floor`s. */
  lemma Rounding(b: nat, y: nat, n: nat, len: nat, d: nat)
    requires d > 0
    ensures var gap := (b + y * len + n) / d - (b / d + (y / d) * len + n / d);
            0 <= gap <= len + if n % d == 0 then 0 else 1
  {
    var q := b / d + (y / d) * len + n / d;
    var r := b % d + (y % d) * len + n % d;
    Split(b, y, n, len, d, b / d, y / d, n / d, b % d, y % d, n % d);
    Remainders(b % d, y % d, n % d, len, d);
    SplitQuotient(q, r, d, len + if n % d == 0 then 0 else 1);
  }

  lemma Split(b: nat, y: nat, n: nat, len: nat, d: nat, qb: nat, qy: nat, qn: nat, rb: nat, ry: nat, rn: nat)
    requires b == qb * d + rb && y == qy * d + ry && n == qn * d + rn
    ensures b + y * len + n == (qb + qy * len + qn) * d + (rb + ry * len + rn)
  {
  }

  lemma Remainders(rb: nat, ry: nat, rn: nat, len: nat, d: nat)
    requires rb < d && ry < d && rn < d
    ensures rb + ry * len + rn < (len + (if rn == 0 then 0 else 1) + 1) * d
  {
  }

  lemma DivisionParts(r: nat, d: nat)
    requires d > 0
    ensures r == (r / d) * d + r % d && 0 <= r % d < d && 0 <= r / d
  {
  }

  lemma SplitQuotient(q: nat, r: nat, d: nat, k: nat)
    requires d > 0 && r < (k + 1) * d
    ensures q <= (q * d + r) / d <= q + k
  {
    var e, t := r / d, r % d;
    DivisionParts(r, d);
    if e > k {
      Times(e, k + 1, d);
    }
    assert (q + e) * d == q * d + e * d;
    QuotientUnique(q * d + r, d, q + e, t);
  }
}
