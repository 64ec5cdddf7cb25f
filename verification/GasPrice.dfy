/** Gas prices: the surplus on a fetched price, the bump of a resent one, and
    the limit. Factors are reals: the exact value of `1 + extraPercentage`. */
module GasPrice {

  import opened Bounds
  import opened Outcome

  datatype Price =
    | Legacy(gasPrice: int)
    | Eip1559(maxFeePerGas: int, maxPriorityFeePerGas: int)

  /** `BigNumber.toFixed(0)`: to the nearest integer, halves away from zero. */
  function RoundHalfUp(x: real): int {
    if x >= 0.0 then (x + 0.5).Floor else -((-x + 0.5).Floor)
  }

  function MultipliedBy(gas: int, factor: real): real {
    gas as real * factor
  }

  function WithExtra(gas: int, extra: real): int {
    RoundHalfUp(MultipliedBy(gas, 1.0 + extra))
  }

  function AddExtraGas(gas: int, extra: real, limit: Option<int>): int {
    match limit
    case Some(l) => Min(l, WithExtra(gas, extra))
    case None => WithExtra(gas, extra)
  }

  function AddExtraGasPrice(gp: Price, factor: real, limit: Option<int>): Price {
    if factor == 0.0 then gp
    else match gp
      case Legacy(p) => Legacy(AddExtraGas(p, factor, limit))
      case Eip1559(m, q) => Eip1559(AddExtraGas(m, factor, limit), AddExtraGas(q, factor, limit))
  }

  function ChooseGasPriceOptions(a: Price, b: Price): Price {
    match (a, b)
    case (Legacy(p), Legacy(q)) => Legacy(Max(p, q))
    case (Eip1559(m, p), Eip1559(n, q)) => Eip1559(Max(m, n), Max(p, q))
    case _ => b
  }

  function GasPriceWithinLimit(gp: Price, limit: int): Price {
    match gp
    case Eip1559(m, q) => if m - limit < 0 then gp else Eip1559(limit, Min(q, limit))
    case Legacy(p) => Legacy(Min(p, limit))
  }

  /** What the node is asked to pay at most per unit of gas. */
  function MaxRequired(gp: Price): int {
    match gp
    case Legacy(p) => p
    case Eip1559(m, _) => m
  }

  predicate SameKind(a: Price, b: Price) {
    a.Legacy? <==> b.Legacy?
  }

  /** `a` is at most `b`, component by component. */
  predicate AtMost(a: Price, b: Price) {
    match (a, b)
    case (Legacy(p), Legacy(q)) => p <= q
    case (Eip1559(m, p), Eip1559(n, q)) => m <= n && p <= q
    case _ => false
  }

  /** The chosen price is the least one that replaces both, and for prices of two
      kinds it is the new one. */
  lemma ChosenIsLeast(a: Price, b: Price, c: Price)
    ensures SameKind(a, b) ==> (AtMost(ChooseGasPriceOptions(a, b), c) <==> AtMost(a, c) && AtMost(b, c))
    ensures !SameKind(a, b) ==> ChooseGasPriceOptions(a, b) == b
  {
  }

  // ---------- The surplus ----------

  /** Rounding goes to a nearest integer, and from halfway to the one further from zero. */
  lemma RoundsToNearest(x: real)
    ensures var n := RoundHalfUp(x) as real;
            && -0.5 <= n - x <= 0.5
            && (x >= 0.0 ==> n - x > -0.5) && (x < 0.0 ==> n - x < 0.5)
  {
  }

  /** An unlimited surplus is the rounded product; a limit cuts it off and changes
      nothing below itself. */
  lemma SurplusIs(gas: int, extra: real, limit: int)
    ensures -0.5 <= AddExtraGas(gas, extra, None) as real - gas as real * (1.0 + extra) <= 0.5
    ensures AddExtraGas(gas, extra, Some(limit))
         == if AddExtraGas(gas, extra, None) < limit then AddExtraGas(gas, extra, None) else limit
  {
    RoundsToNearest(gas as real * (1.0 + extra));
  }

  /** Every component of a price gets it on its own; a zero factor leaves the price. */
  lemma SurplusOfPrice(gp: Price, factor: real, limit: Option<int>)
    ensures factor == 0.0 ==> AddExtraGasPrice(gp, factor, limit) == gp
    ensures factor != 0.0 ==>
              match gp
              case Legacy(p) => AddExtraGasPrice(gp, factor, limit) == Legacy(AddExtraGas(p, factor, limit))
              case Eip1559(m, q) =>
                var r := AddExtraGasPrice(gp, factor, limit);
                && r.Eip1559? && r.maxFeePerGas == AddExtraGas(m, factor, limit)
                && r.maxPriorityFeePerGas == AddExtraGas(q, factor, limit)
  {
  }

  // ---------- The bump over a resend history ----------

  /** One bump, without a limit. */
  lemma BumpLowerBound(p: int, f: real)
    requires f > 0.0 && p >= 0
    ensures AddExtraGas(p, f, None) as real >= p as real * (1.0 + f) - 0.5
    ensures AddExtraGas(p, f, None) >= p
  {
  }

  /** A bump raises the price exactly when it adds at least half a unit. */
  lemma BumpStrict(p: int, f: real)
    requires f > 0.0 && p >= 0
    ensures AddExtraGas(p, f, None) > p <==> p as real * f >= 0.5
  {
  }

  function Power(b: real, n: nat): real {
    if n == 0 then 1.0 else Power(b, n - 1) * b
  }

  /** The fixed point of `p (1 + f) - 1/2`. */
  function Floor0(f: real): real
    requires f > 0.0
  {
    0.5 / f
  }

  /** A history in which every price is at least the bump of the one before. */
  predicate Bumped(prices: seq<int>, f: real) {
    && (forall p | p in prices :: p >= 0)
    && forall i | 0 <= i && i + 1 < |prices| :: prices[i + 1] >= AddExtraGas(prices[i], f, None)
  }

  lemma BumpedAt(prices: seq<int>, f: real, i: nat)
    requires f > 0.0 && Bumped(prices, f) && i + 1 < |prices|
    ensures 0 <= prices[i] <= prices[i + 1]
    ensures prices[i + 1] as real >= prices[i] as real * (1.0 + f) - 0.5
  {
    assert prices[i] in prices;
    BumpLowerBound(prices[i], f);
  }

  /** What `n` bumps guarantee of a price that started at `p0`. */
  function Growth(p0: int, f: real, n: nat): real
    requires f > 0.0
  {
    Floor0(f) + Power(1.0 + f, n) * (p0 as real - Floor0(f))
  }

  lemma GrowthStep(p0: int, p: int, q: int, f: real, n: nat)
    requires f > 0.0 && p as real >= Growth(p0, f, n) && q as real >= p as real * (1.0 + f) - 0.5
    ensures q as real >= Growth(p0, f, n + 1)
  {
  }

  /** After `n` resends the distance of the price to the fixed point of the
      rounded bump has grown by at least `(1 + f)^n`, and no price ever fell. */
  lemma {:induction false} BumpHistory(prices: seq<int>, f: real, n: nat)
    requires f > 0.0 && Bumped(prices, f) && n < |prices|
    ensures prices[n] as real >= Growth(prices[0], f, n)
    ensures prices[n] >= prices[0]
  {
    if n == 0 {
      assert Power(1.0 + f, 0) == 1.0;
    } else {
      BumpHistory(prices, f, n - 1);
      BumpedAt(prices, f, n - 1);
      GrowthStep(prices[0], prices[n - 1], prices[n], f, n - 1);
    }
  }

  lemma Scale(a: real, b: real, k: real)
    requires a >= b && k >= 0.0
    ensures a * k >= b * k
  {
  }

  // ---------- Priority fee and limit ----------

  /** EIP-1559 requires `maxPriorityFeePerGas <= maxFeePerGas` of a transaction. */
  predicate Ordered(gp: Price) {
    gp.Eip1559? ==> gp.maxPriorityFeePerGas <= gp.maxFeePerGas
  }

  datatype PriceStep =
    | Limit(limit: int)
    | Extra(factor: real, maxFee: Option<int>)
    | Choose(other: Price)
    | Fallback(first: Price)

  function ApplyStep(gp: Price, s: PriceStep): Price {
    match s
    case Limit(l) => GasPriceWithinLimit(gp, l)
    case Extra(f, l) => AddExtraGasPrice(gp, f, l)
    case Choose(other) => ChooseGasPriceOptions(gp, other)
    case Fallback(first) => ChooseGasPriceOptions(first, gp)
  }

  predicate SoundStep(s: PriceStep) {
    match s
    case Limit(_) => true
    case Extra(f, _) => f >= -1.0
    case Choose(other) => Ordered(other)
    case Fallback(first) => Ordered(first)
  }

  function Chain(gp: Price, steps: seq<PriceStep>): Price {
    if |steps| == 0 then gp else ApplyStep(Chain(gp, steps[..|steps| - 1]), steps[|steps| - 1])
  }

  lemma RoundMonotone(x: real, y: real)
    requires x <= y
    ensures RoundHalfUp(x) <= RoundHalfUp(y)
  {
  }

  lemma ProductMonotone(p: int, q: int, k: real)
    requires p <= q && k >= 0.0
    ensures MultipliedBy(p, k) <= MultipliedBy(q, k)
  {
    Scale(q as real, p as real, k);
  }

  lemma WithExtraMonotone(p: int, q: int, f: real)
    requires p <= q && f >= -1.0
    ensures WithExtra(p, f) <= WithExtra(q, f)
  {
    hide RoundHalfUp, MultipliedBy;
    ProductMonotone(p, q, 1.0 + f);
    RoundMonotone(MultipliedBy(p, 1.0 + f), MultipliedBy(q, 1.0 + f));
  }

  lemma ExtraMonotone(p: int, q: int, f: real, limit: Option<int>)
    requires p <= q && f >= -1.0
    ensures AddExtraGas(p, f, limit) <= AddExtraGas(q, f, limit)
  {
    hide WithExtra;
    WithExtraMonotone(p, q, f);
  }

  /** Whatever steps are chained, a price that starts ordered stays ordered. */
  lemma {:induction false} ChainOrdered(gp: Price, steps: seq<PriceStep>)
    requires Ordered(gp) && forall s | s in steps :: SoundStep(s)
    ensures Ordered(Chain(gp, steps))
  {
    if |steps| > 0 {
      var init, s := steps[..|steps| - 1], steps[|steps| - 1];
      assert forall t | t in init :: t in steps;
      assert s in steps;
      ChainOrdered(gp, init);
      var g := Chain(gp, init);
      if s.Extra? && g.Eip1559? {
        ExtraMonotone(g.maxPriorityFeePerGas, g.maxFeePerGas, s.factor, s.maxFee);
      }
    }
  }

  predicate Under(gp: Price, limit: int) {
    match gp
    case Legacy(p) => p <= limit
    case Eip1559(m, q) => m <= limit && q <= limit
  }

  /** `gasPriceWithinLimit` on an ordered price. */
  lemma WithinLimit(gp: Price, limit: int)
    requires Ordered(gp)
    ensures Under(GasPriceWithinLimit(gp, limit), limit)
    ensures Ordered(GasPriceWithinLimit(gp, limit))
    ensures Under(gp, limit) ==> GasPriceWithinLimit(gp, limit) == gp
    ensures gp.Eip1559? ==>
              GasPriceWithinLimit(gp, limit)
              == Eip1559(Min(gp.maxFeePerGas, limit), Min(gp.maxPriorityFeePerGas, limit))
    ensures gp.Legacy? ==> GasPriceWithinLimit(gp, limit) == Legacy(if gp.gasPrice < limit then gp.gasPrice else limit)
  {
  }

  /** `addExtraGasPrice` respects its limit except when the factor is zero: then
      it returns the price as it came, so a price above the limit stays above. */
  lemma ExtraWithinLimit(gp: Price, factor: real, limit: int)
    ensures Under(AddExtraGasPrice(gp, factor, Some(limit)), limit) <==> factor != 0.0 || Under(gp, limit)
  {
  }

  /** The concrete price that a zero surplus lets through. */
  lemma ZeroSurplusExceedsLimit()
    ensures !Under(AddExtraGasPrice(Eip1559(15, 7), 0.0, Some(10)), 10)
  {
  }
}
