/** The balancer's price-impact test and its search for a swap amount. */
module Balancer {
  import opened Arithmetic

  datatype SwapPriceImpact = SwapPriceImpact(bps: int, executionPriceScaled: int)

  /** A realised quote against the oracle ratio; `None` where no comparison is meaningful. */
  function PriceImpact(
    oraclePrice: int, amountIn: int, amountOut: int, inDecimals: nat, outDecimals: nat, oracleDecimals: nat): Option<SwapPriceImpact>
  {
    if amountIn <= 0 || oraclePrice <= 0 then None
    else
      var price :- ExecutionPrice(amountIn, amountOut, inDecimals, outDecimals, oracleDecimals);
      var difference :- Checked(oraclePrice - price).ToOption();
      var scaled :- Checked(difference * BPS_FACTOR).ToOption();
      var bps :- CheckedDiv(scaled, oraclePrice).ToOption();
      Some(SwapPriceImpact(bps, price))
  }

  /** Output per input, times the oracle's scale. The two decimals cancel down to their difference,
      which multiplies the output or the input. */
  function ExecutionPrice(amountIn: int, amountOut: int, inDecimals: nat, outDecimals: nat, oracleDecimals: nat): Option<int> {
    var scale :- CheckedPow10(oracleDecimals).ToOption();
    var correction :- CheckedPow10(if inDecimals >= outDecimals then inDecimals - outDecimals else outDecimals - inDecimals).ToOption();
    var scaledOut :- Checked(amountOut * scale).ToOption();
    if inDecimals >= outDecimals then
      var numerator :- Checked(scaledOut * correction).ToOption();
      CheckedDiv(numerator, amountIn).ToOption()
    else
      var denominator :- Checked(amountIn * correction).ToOption();
      CheckedDiv(scaledOut, denominator).ToOption()
  }

  // ----- Independence of decimals

  lemma PositiveProduct(d: int, k: int)
    requires d > 0 && k > 0
    ensures d * k > 0
  {
  }

  lemma FloorCancel(n: int, d: int, k: int, nk: int, dk: int)
    requires d > 0 && k > 0 && dk > 0 && nk == n * k && dk == d * k
    ensures nk / dk == n / d
  {
    AtMostAfterCancel(n, d, k, n / d, nk, dk);
    AtMostAfterCancel(n, d, k, nk / dk, nk, dk);
  }

  lemma AtMostAfterCancel(n: int, d: int, k: int, q: int, nk: int, dk: int)
    requires d > 0 && k > 0 && dk > 0 && nk == n * k && dk == d * k
    ensures q <= nk / dk <==> q <= n / d
  {
    FloorGalois(nk, dk, q);
    FloorGalois(n, d, q);
    Cancel(q * d, n, k);
    Assoc(q, d, k);
  }

  /** A common factor cancels out of a truncating quotient. */
  lemma QuotCancel(n: int, d: int, k: int)
    requires d > 0 && k > 0
    ensures d * k > 0 && Quot(n * k, d * k) == Quot(n, d)
  {
    PositiveProduct(d, k);
    Cancel(0, n, k);
    QuotCancelNamed(n, d, k, n * k, d * k);
  }

  lemma QuotCancelNamed(n: int, d: int, k: int, nk: int, dk: int)
    requires d > 0 && k > 0 && dk > 0 && nk == n * k && dk == d * k
    requires nk >= 0 <==> n >= 0
    ensures Quot(nk, dk) == Quot(n, d)
  {
    if n >= 0 {
      FloorCancel(n, d, k, nk, dk);
    } else {
      assert -nk == (-n) * k;
      FloorCancel(-n, d, k, -nk, dk);
    }
  }

  lemma NumeratorScaled(x: int, a: int, k: int, outPow: int, inPow: int)
    requires a > 0 && outPow > 0 && inPow == k * outPow
    ensures a * outPow > 0 && Quot(x * k, a) == Quot(x * inPow, a * outPow)
  {
    QuotCancel(x * k, a, outPow);
    Assoc(x, k, outPow);
  }

  lemma DenominatorScaled(x: int, a: int, k: int, outPow: int, inPow: int)
    requires a > 0 && k > 0 && inPow > 0 && outPow == k * inPow
    ensures a * k > 0 && a * outPow > 0 && Quot(x, a * k) == Quot(x * inPow, a * outPow)
  {
    PositiveProduct(a, k);
    QuotCancel(x, a * k, inPow);
    Assoc(a, k, inPow);
  }

  /** Whichever branch it takes, the realised price is the quotient of the amounts with both
      brought to whole tokens. */
  lemma ExecutionPriceOverWholeTokens(amountIn: int, amountOut: int, inDecimals: nat, outDecimals: nat, oracleDecimals: nat)
    requires amountIn > 0
    requires ExecutionPrice(amountIn, amountOut, inDecimals, outDecimals, oracleDecimals).Some?
    ensures amountIn * Pow10(outDecimals) > 0
    ensures ExecutionPrice(amountIn, amountOut, inDecimals, outDecimals, oracleDecimals).value
         == Quot(amountOut * Pow10(oracleDecimals) * Pow10(inDecimals), amountIn * Pow10(outDecimals))
  {
    hide Pow10, Quot;
    var scaledOut := amountOut * Pow10(oracleDecimals);
    var price := ExecutionPrice(amountIn, amountOut, inDecimals, outDecimals, oracleDecimals).value;
    assert inDecimals >= outDecimals ==> price == Quot(scaledOut * Pow10(inDecimals - outDecimals), amountIn);
    assert inDecimals < outDecimals ==>
        amountIn * Pow10(outDecimals - inDecimals) != 0 && price == Quot(scaledOut, amountIn * Pow10(outDecimals - inDecimals));
    hide ExecutionPrice;
    if inDecimals >= outDecimals {
      Pow10Adds(inDecimals - outDecimals, outDecimals);
      NumeratorScaled(scaledOut, amountIn, Pow10(inDecimals - outDecimals), Pow10(outDecimals), Pow10(inDecimals));
    } else {
      Pow10Adds(outDecimals - inDecimals, inDecimals);
      DenominatorScaled(scaledOut, amountIn, Pow10(outDecimals - inDecimals), Pow10(outDecimals), Pow10(inDecimals));
    }
  }

  /** Price impact does not depend on token decimals: giving a token `m` (or `n`) more decimals
      and its amount that many more zeros leaves the realised price and the impact unchanged. */
  lemma ImpactIgnoresDecimals(
    oraclePrice: int, amountIn: int, amountOut: int, inDecimals: nat, outDecimals: nat, oracleDecimals: nat, m: nat, n: nat)
    requires PriceImpact(oraclePrice, amountIn, amountOut, inDecimals, outDecimals, oracleDecimals).Some?
    requires PriceImpact(oraclePrice, amountIn * Pow10(m), amountOut * Pow10(n), inDecimals + m, outDecimals + n, oracleDecimals).Some?
    ensures PriceImpact(oraclePrice, amountIn * Pow10(m), amountOut * Pow10(n), inDecimals + m, outDecimals + n, oracleDecimals)
         == PriceImpact(oraclePrice, amountIn, amountOut, inDecimals, outDecimals, oracleDecimals)
  {
    hide ExecutionPrice, Pow10, Quot;
    PositiveProduct(amountIn, Pow10(m));
    PriceIgnoresDecimals(amountIn, amountOut, inDecimals, outDecimals, oracleDecimals, m, n);
  }

  lemma PriceIgnoresDecimals(
    amountIn: int, amountOut: int, inDecimals: nat, outDecimals: nat, oracleDecimals: nat, m: nat, n: nat)
    requires amountIn > 0 && amountIn * Pow10(m) > 0
    requires ExecutionPrice(amountIn, amountOut, inDecimals, outDecimals, oracleDecimals).Some?
    requires ExecutionPrice(amountIn * Pow10(m), amountOut * Pow10(n), inDecimals + m, outDecimals + n, oracleDecimals).Some?
    ensures ExecutionPrice(amountIn * Pow10(m), amountOut * Pow10(n), inDecimals + m, outDecimals + n, oracleDecimals)
         == ExecutionPrice(amountIn, amountOut, inDecimals, outDecimals, oracleDecimals)
  {
    hide ExecutionPrice, Pow10, Quot;
    ExecutionPriceOverWholeTokens(amountIn, amountOut, inDecimals, outDecimals, oracleDecimals);
    ExecutionPriceOverWholeTokens(amountIn * Pow10(m), amountOut * Pow10(n), inDecimals + m, outDecimals + n, oracleDecimals);
    Pow10Adds(inDecimals, m);
    Pow10Adds(outDecimals, n);
    WholeTokensRatio(amountIn, amountOut, Pow10(oracleDecimals), Pow10(inDecimals), Pow10(outDecimals), Pow10(m), Pow10(n));
  }

  lemma WholeTokensRatio(amountIn: int, amountOut: int, scale: int, inPow: int, outPow: int, m: int, n: int)
    requires amountIn > 0 && outPow > 0 && m > 0 && n > 0
    ensures amountIn * outPow > 0 && amountIn * m * (outPow * n) > 0
    ensures Quot(amountOut * n * scale * (inPow * m), amountIn * m * (outPow * n))
         == Quot(amountOut * scale * inPow, amountIn * outPow)
  {
    hide Quot;
    PositiveProduct(amountIn, outPow);
    PositiveProduct(m, n);
    QuotCancel(amountOut * scale * inPow, amountIn * outPow, m * n);
    Shuffle(amountIn, m, outPow, n);
    Shuffle(amountOut * scale, n, inPow, m);
    Assoc(amountOut, n, scale);
    Assoc(amountOut, scale, n);
  }

  lemma Shuffle(a: int, b: int, c: int, d: int)
    ensures a * b * (c * d) == a * c * (b * d) == a * c * (d * b)
  {
    Assoc(a, b, c * d);
    Assoc(a, c, b * d);
    Assoc(b, c, d);
    Assoc(c, b, d);
  }

  /** An admitted quote is short of the oracle price by less than the cap and one basis point. */
  lemma AdmittedShortfall(
    oraclePrice: int, amountIn: int, amountOut: int, inDecimals: nat, outDecimals: nat, oracleDecimals: nat, maxImpactBps: int)
    requires PriceImpact(oraclePrice, amountIn, amountOut, inDecimals, outDecimals, oracleDecimals).Some?
    requires maxImpactBps >= 0
    ensures var impact := PriceImpact(oraclePrice, amountIn, amountOut, inDecimals, outDecimals, oracleDecimals).value;
            impact.bps <= maxImpactBps <==> (oraclePrice - impact.executionPriceScaled) * BPS_FACTOR < (maxImpactBps + 1) * oraclePrice
  {
    hide ExecutionPrice;
    var impact := PriceImpact(oraclePrice, amountIn, amountOut, inDecimals, outDecimals, oracleDecimals).value;
    var scaled := (oraclePrice - impact.executionPriceScaled) * BPS_FACTOR;
    FloorGalois(scaled, oraclePrice, maxImpactBps + 1);
    FloorGalois(-scaled, oraclePrice, 0);
    MulNonNegative(maxImpactBps + 1, oraclePrice);
    Cancel(1, maxImpactBps + 1, oraclePrice);
  }

  // ----- The probe

  datatype AssetInfo = AssetInfo(decimals: nat, oraclePrice: int, oracleDecimals: nat)

  /** `balance` halved, rounding down, `i` times. */
  function Halved(balance: int, i: nat): int {
    if i == 0 then balance else Quot(Halved(balance, i - 1), 2)
  }

  function Pow2(n: nat): (r: int)
    ensures r >= 1
  {
    if n == 0 then 1 else 2 * Pow2(n - 1)
  }

  lemma HalveQuotient(n: int, p: int)
    requires n >= 0 && p > 0
    ensures n / p >= 0 && (n / p) / 2 == n / (2 * p)
  {
    FloorGalois(n, p, 0);
    var (h, w) := ((n / p) / 2, n / (2 * p));
    DoubleStep(n, p, h);
    DoubleStep(n, p, w);
  }

  lemma DoubleStep(n: int, p: int, q: int)
    requires p > 0
    ensures q <= (n / p) / 2 <==> q <= n / (2 * p)
  {
    FloorGalois(n / p, 2, q);
    FloorGalois(n, p, q * 2);
    FloorGalois(n, 2 * p, q);
    Assoc(q, 2, p);
  }

  /** Repeated halving is one division: the i-th probe is floor(balance / 2^i). */
  lemma {:induction false} HalvedIsShift(balance: int, i: nat)
    requires balance >= 0
    ensures Halved(balance, i) == balance / Pow2(i) >= 0
  {
    if i > 0 {
      HalvedIsShift(balance, i - 1);
      HalveQuotient(balance, Pow2(i - 1));
      FloorGalois(balance, Pow2(i), 0);
    }
  }

  /** One probe: the quote fails, no impact can be computed, or an impact within the cap or not. */
  datatype Probe = QuoteFailed(error: Error) | NotComputable | TooSteep | Viable(amountOut: int, executionPriceScaled: int)

  function ProbeAt(
    quote: int -> Result<int>, amountIn: int, oraclePrice: int, inInfo: AssetInfo, outInfo: AssetInfo, oracleDecimals: nat, maxImpactBps: int): Probe
  {
    match quote(amountIn)
    case Err(e) => QuoteFailed(e)
    case Ok(amountOut) =>
      match PriceImpact(oraclePrice, amountIn, amountOut, inInfo.decimals, outInfo.decimals, oracleDecimals)
      case None => NotComputable
      case Some(impact) => if impact.bps <= maxImpactBps then Viable(amountOut, impact.executionPriceScaled) else TooSteep
  }

  /** Probes an amount, then half of it, and so on: it returns the first probe that is not too
      steep, whatever the quotes are. A failed quote or an incomparable one ends the search. */
  method ProbeProvider(
    quote: int -> Result<int>, oraclePrice: int, inInfo: AssetInfo, outInfo: AssetInfo, oracleDecimals: nat,
    swappable: int, maxProbes: nat, maxImpactBps: int) returns (r: Result<Option<(int, int, int)>>)
    ensures r.Ok? && r.value.Some? ==>
              exists i: nat :: i < maxProbes && r.value.value.0 == Halved(swappable, i)
                && ProbeAt(quote, Halved(swappable, i), oraclePrice, inInfo, outInfo, oracleDecimals, maxImpactBps)
                   == Viable(r.value.value.1, r.value.value.2)
                && forall j: nat :: j < i ==> ProbeAt(quote, Halved(swappable, j), oraclePrice, inInfo, outInfo, oracleDecimals, maxImpactBps).TooSteep?
    ensures r.Ok? && r.value.None? ==>
              exists n: nat :: n <= maxProbes
                && (forall j: nat :: j < n ==> ProbeAt(quote, Halved(swappable, j), oraclePrice, inInfo, outInfo, oracleDecimals, maxImpactBps).TooSteep?)
                && (n < maxProbes ==> ProbeAt(quote, Halved(swappable, n), oraclePrice, inInfo, outInfo, oracleDecimals, maxImpactBps).NotComputable?)
    ensures r.Err? ==>
              exists n: nat :: n < maxProbes
                && (forall j: nat :: j < n ==> ProbeAt(quote, Halved(swappable, j), oraclePrice, inInfo, outInfo, oracleDecimals, maxImpactBps).TooSteep?)
                && ProbeAt(quote, Halved(swappable, n), oraclePrice, inInfo, outInfo, oracleDecimals, maxImpactBps) == QuoteFailed(r.error)
  {
    hide PriceImpact;
    var amountIn := swappable;
    for i := 0 to maxProbes
      invariant amountIn == Halved(swappable, i)
      invariant forall j: nat :: j < i ==> ProbeAt(quote, Halved(swappable, j), oraclePrice, inInfo, outInfo, oracleDecimals, maxImpactBps).TooSteep?
    {
      ghost var probe := ProbeAt(quote, Halved(swappable, i), oraclePrice, inInfo, outInfo, oracleDecimals, maxImpactBps);
      var amountOut :- quote(amountIn);
      var impact := PriceImpact(oraclePrice, amountIn, amountOut, inInfo.decimals, outInfo.decimals, oracleDecimals);
      if impact.None? {
        return Ok(None);
      }
      if impact.value.bps <= maxImpactBps {
        return Ok(Some((amountIn, amountOut, impact.value.executionPriceScaled)));
      }
      amountIn := Quot(amountIn, 2);
    }
    return Ok(None);
  }

  /** A probe is viable exactly when the quote answers with that output, the comparison is one the
      arithmetic can make, and the price falls short by less than the cap and one basis point. */
  lemma ViableIff(
    quote: int -> Result<int>, amountIn: int, oraclePrice: int, inInfo: AssetInfo, outInfo: AssetInfo, oracleDecimals: nat, maxImpactBps: int,
    amountOut: int, price: int)
    requires maxImpactBps >= 0
    ensures ProbeAt(quote, amountIn, oraclePrice, inInfo, outInfo, oracleDecimals, maxImpactBps) == Viable(amountOut, price) <==>
              && quote(amountIn) == Ok(amountOut)
              && Comparable(oraclePrice, amountIn, amountOut, inInfo.decimals, outInfo.decimals, oracleDecimals)
              && ExecutionPrice(amountIn, amountOut, inInfo.decimals, outInfo.decimals, oracleDecimals) == Some(price)
              && (oraclePrice - price) * BPS_FACTOR < (maxImpactBps + 1) * oraclePrice
    ensures ProbeAt(quote, amountIn, oraclePrice, inInfo, outInfo, oracleDecimals, maxImpactBps).NotComputable? <==>
              quote(amountIn).Ok? && !Comparable(oraclePrice, amountIn, quote(amountIn).value, inInfo.decimals, outInfo.decimals, oracleDecimals)
  {
    hide PriceImpact, ExecutionPrice, Comparable;
    if quote(amountIn).Ok? {
      ImpactIff(oraclePrice, amountIn, quote(amountIn).value, inInfo.decimals, outInfo.decimals, oracleDecimals);
      if PriceImpact(oraclePrice, amountIn, quote(amountIn).value, inInfo.decimals, outInfo.decimals, oracleDecimals).Some? {
        AdmittedShortfall(oraclePrice, amountIn, quote(amountIn).value, inInfo.decimals, outInfo.decimals, oracleDecimals, maxImpactBps);
      }
    }
  }

  /** Both sides are positive, and nothing in the comparison leaves 128 bits. */
  predicate Comparable(oraclePrice: int, amountIn: int, amountOut: int, inDecimals: nat, outDecimals: nat, oracleDecimals: nat) {
    && amountIn > 0 && oraclePrice > 0
    && var price := ExecutionPrice(amountIn, amountOut, inDecimals, outDecimals, oracleDecimals);
    && price.Some?
    && Fits(oraclePrice - price.value) && Fits((oraclePrice - price.value) * BPS_FACTOR)
  }

  lemma ImpactIff(oraclePrice: int, amountIn: int, amountOut: int, inDecimals: nat, outDecimals: nat, oracleDecimals: nat)
    ensures var impact := PriceImpact(oraclePrice, amountIn, amountOut, inDecimals, outDecimals, oracleDecimals);
            && (impact.Some? <==> Comparable(oraclePrice, amountIn, amountOut, inDecimals, outDecimals, oracleDecimals))
            && (impact.Some? ==> ExecutionPrice(amountIn, amountOut, inDecimals, outDecimals, oracleDecimals) == Some(impact.value.executionPriceScaled))
  {
    hide ExecutionPrice;
    if amountIn > 0 && oraclePrice > 0 {
      var price := ExecutionPrice(amountIn, amountOut, inDecimals, outDecimals, oracleDecimals);
      if price.Some? && Fits((oraclePrice - price.value) * BPS_FACTOR) {
        QuotientFits((oraclePrice - price.value) * BPS_FACTOR, oraclePrice);
      }
    }
  }

  lemma QuotientFits(n: int, d: int)
    requires Fits(n) && d > 0
    ensures Fits(Quot(n, d))
  {
    QuotientAtMost(if n >= 0 then n else -n, d);
  }
}
