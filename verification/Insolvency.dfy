/** Obligation values, insolvency, and whether seizable collateral covers the debt.

    Insolvency values positions through rounded basis-point rates, the cover test through the
    pool's exact ratios; the theorem at the end relates the two verdicts. */
module Insolvency {
  import opened Arithmetic
  import opened Pool
  import opened Market
  import opened Liquidation
  import opened LiquidationLaws

  /** A checked left-to-right total of the items' values. */
  function Total<T>(items: seq<T>, value: T -> Result<int>, total: int): Result<int> {
    if items == [] then Ok(total)
    else
      var v :- value(items[0]);
      var sum :- Checked(total + v);
      Total(items[1..], value, sum)
  }

  function PoolOrError(market: MarketData, address: string): Result<PoolData> {
    match market.PoolOf(address)
    case Some(pool) => Ok(pool)
    case None => Err(InternalError)
  }

  // ----- Values through the rounded rates

  function RateDebtValue(market: MarketData, borrow: BorrowPosition): Result<int> {
    var pool :- PoolOrError(market, borrow.poolAddress);
    ValueCeil(FixedMulCeil(borrow.dTokens, pool.dTokenRateCeilBps), pool)
  }

  function RateCollateralValue(market: MarketData, deposit: DepositPosition): Result<int> {
    var pool :- PoolOrError(market, deposit.poolAddress);
    var tokens :- Checked(FixedMulFloor(deposit.jTokens, pool.jTokenRateFloorBps) + deposit.collateral);
    ValueFloor(tokens, pool)
  }

  function ObligationDebtValue(obligation: Obligation, market: MarketData): Result<int> {
    Total(obligation.borrows, b => RateDebtValue(market, b), 0)
  }

  function ObligationCollateralValue(obligation: Obligation, market: MarketData): Result<int> {
    Total(obligation.deposits, d => RateCollateralValue(market, d), 0)
  }

  method ComputeObligationDebtValue(obligation: Obligation, market: MarketData) returns (r: Result<int>)
    ensures r == ObligationDebtValue(obligation, market)
  {
    hide FindPool, ValueCeil, FixedMulCeil;
    var total := 0;
    ghost var value := b => RateDebtValue(market, b);
    for i := 0 to |obligation.borrows|
      invariant Total(obligation.borrows[i..], value, total) == Total(obligation.borrows, value, 0)
    {
      var borrow := obligation.borrows[i];
      assert obligation.borrows[i..][1..] == obligation.borrows[i + 1..];
      var pool :- PoolOrError(market, borrow.poolAddress);
      var worth :- ValueCeil(FixedMulCeil(borrow.dTokens, pool.dTokenRateCeilBps), pool);
      total :- Checked(total + worth);
    }
    return Ok(total);
  }

  method ComputeObligationCollateralValue(obligation: Obligation, market: MarketData) returns (r: Result<int>)
    ensures r == ObligationCollateralValue(obligation, market)
  {
    hide FindPool, ValueFloor, FixedMulFloor;
    var total := 0;
    ghost var value := d => RateCollateralValue(market, d);
    for i := 0 to |obligation.deposits|
      invariant Total(obligation.deposits[i..], value, total) == Total(obligation.deposits, value, 0)
    {
      var deposit := obligation.deposits[i];
      assert obligation.deposits[i..][1..] == obligation.deposits[i + 1..];
      var pool :- PoolOrError(market, deposit.poolAddress);
      var tokens :- Checked(FixedMulFloor(deposit.jTokens, pool.jTokenRateFloorBps) + deposit.collateral);
      var worth :- ValueFloor(tokens, pool);
      total :- Checked(total + worth);
    }
    return Ok(total);
  }

  function IsInsolvent(obligation: Obligation, market: MarketData): Result<bool> {
    var debtValue :- ObligationDebtValue(obligation, market);
    if debtValue < 0 then Err(InternalError)
    else if debtValue == 0 then Ok(false)
    else
      var collateralValue :- ObligationCollateralValue(obligation, market);
      if collateralValue < 0 then Err(InternalError)
      else if collateralValue == 0 then Ok(true)
      else
        var ltv :- MulDivCeil(debtValue, BPS_FACTOR, collateralValue);
        Ok(ltv >= market.insolvencyLtvBps)
  }

  // ----- Values through the exact ratios

  function ExactDebtValue(market: MarketData, borrow: BorrowPosition): Result<int> {
    var pool :- PoolOrError(market, borrow.poolAddress);
    var debt :- pool.DTokensToTokensCeil(borrow.dTokens);
    ValueCeil(debt, pool)
  }

  /** Deposits without a positive close LTV are not seizable and count for nothing. */
  function SeizableValue(market: MarketData, deposit: DepositPosition): Result<int> {
    var pool :- PoolOrError(market, deposit.poolAddress);
    if pool.closeLtvBps <= 0 then Ok(0)
    else
      var supplied :- pool.JTokensToTokensFloor(deposit.jTokens);
      var tokens :- Checked(supplied + deposit.collateral);
      ValueFloor(tokens, pool)
  }

  function ExactDebtTotal(obligation: Obligation, market: MarketData): Result<int> {
    Total(obligation.borrows, b => ExactDebtValue(market, b), 0)
  }

  function SeizableTotal(obligation: Obligation, market: MarketData): Result<int> {
    Total(obligation.deposits, d => SeizableValue(market, d), 0)
  }

  /** Debt that cannot be valued does not count as covered. */
  function SeizableCollateralCoversDebt(obligation: Obligation, market: MarketData): Result<bool> {
    var debt := ExactDebtTotal(obligation, market);
    if debt.Err? then Ok(false)
    else
      var collateral :- SeizableTotal(obligation, market);
      Ok(collateral > 0 && collateral >= debt.value)
  }

  method ComputeSeizableCollateralCoversDebt(obligation: Obligation, market: MarketData) returns (r: Result<bool>)
    ensures r == SeizableCollateralCoversDebt(obligation, market)
  {
    hide ExactDebtValue, ValueFloor, SharesToTokensFloor, FindPool, Pow10;
    var debtValue := 0;
    ghost var exact := b => ExactDebtValue(market, b);
    for i := 0 to |obligation.borrows|
      invariant Total(obligation.borrows[i..], exact, debtValue) == Total(obligation.borrows, exact, 0)
    {
      assert obligation.borrows[i..][1..] == obligation.borrows[i + 1..];
      var value := ExactDebtValue(market, obligation.borrows[i]);
      if value.Err? {
        return Ok(false);
      }
      var sum := Checked(debtValue + value.value);
      if sum.Err? {
        return Ok(false);
      }
      debtValue := sum.value;
    }

    var collateralValue := 0;
    ghost var seizable := d => SeizableValue(market, d);
    for i := 0 to |obligation.deposits|
      invariant Fits(collateralValue)
      invariant Total(obligation.deposits[i..], seizable, collateralValue) == Total(obligation.deposits, seizable, 0)
    {
      var deposit := obligation.deposits[i];
      assert obligation.deposits[i..][1..] == obligation.deposits[i + 1..];
      var pool :- PoolOrError(market, deposit.poolAddress);
      if pool.closeLtvBps > 0 {
        var supplied :- pool.JTokensToTokensFloor(deposit.jTokens);
        var tokens :- Checked(supplied + deposit.collateral);
        var value :- ValueFloor(tokens, pool);
        collateralValue :- Checked(collateralValue + value);
      }
    }
    return Ok(collateralValue > 0 && collateralValue >= debtValue);
  }

  // ----- The rates bracket the exact ratios

  /** A pool whose reported rates are the true floor and ceiling of its ratios. */
  predicate TrueRates(pool: PoolData) {
    && pool.oracleAssetPrice > 0
    && pool.totalSupply >= 0 && pool.totalJTokens >= 0
    && pool.totalBorrowed >= 0 && pool.totalDTokens >= 0
    && pool.jTokenRateFloorBps >= 0 && pool.dTokenRateCeilBps >= 0
    && pool.jTokenRateFloorBps * pool.totalJTokens <= pool.totalSupply * BPS_FACTOR
    && pool.totalBorrowed * BPS_FACTOR <= pool.dTokenRateCeilBps * pool.totalDTokens
  }

  /** Non-negative positions, the deposits backed by their pools. */
  predicate Backed(obligation: Obligation, market: MarketData) {
    && (forall pool :: pool in market.poolsData ==> TrueRates(pool))
    && (forall b :: b in obligation.borrows ==> b.dTokens >= 0)
    && (forall d :: d in obligation.deposits ==> BackedDeposit(d, market))
  }

  /** No debt so large that its rate saturates. */
  predicate Unsaturated(obligation: Obligation, market: MarketData) {
    forall b :: b in obligation.borrows ==> !Saturates(b, market)
  }

  /** The debt at the pool's rate leaves 128 bits, so the rated value saturates below it. */
  predicate Saturates(b: BorrowPosition, market: MarketData) {
    && market.PoolOf(b.poolAddress).Some?
    && b.dTokens * market.PoolOf(b.poolAddress).value.dTokenRateCeilBps + (BPS_FACTOR - 1) > I128_MAX
  }

  /** The debt's exact conversion leaves 128 bits. */
  predicate Uncomputable(b: BorrowPosition, market: MarketData) {
    && market.PoolOf(b.poolAddress).Some?
    && market.PoolOf(b.poolAddress).value.DTokensToTokensCeil(b.dTokens).Err?
  }

  /** Priced, seizable, and holding shares only in a pool that has some. */
  predicate BackedDeposit(d: DepositPosition, market: MarketData) {
    && d.jTokens >= 0 && d.collateral >= 0
    && (market.PoolOf(d.poolAddress).Some? ==>
          && market.PoolOf(d.poolAddress).value.closeLtvBps > 0
          && (market.PoolOf(d.poolAddress).value.totalJTokens == 0 ==> d.jTokens == 0))
  }

  /** The ceil rate never values a debt under its exact ratio. */
  lemma RateDebtCoversExact(pool: PoolData, dTokens: int)
    requires TrueRates(pool) && dTokens >= 0
    requires dTokens * pool.dTokenRateCeilBps + (BPS_FACTOR - 1) <= I128_MAX
    requires pool.DTokensToTokensCeil(dTokens).Ok?
    ensures 0 <= pool.DTokensToTokensCeil(dTokens).value <= FixedMulCeil(dTokens, pool.dTokenRateCeilBps)
  {
    hide FixedMulCeil, SharesToTokensCeil;
    var (rate, scaled) := (pool.dTokenRateCeilBps, FixedMulCeil(dTokens, pool.dTokenRateCeilBps));
    FixedMulCeilSpec(dTokens, rate);
    if pool.totalDTokens > 0 {
      ConversionIsScaling(dTokens, pool.totalBorrowed, pool.totalDTokens);
      MulDivCeilSpec(dTokens, pool.totalBorrowed, pool.totalDTokens);
      CeilGalois(dTokens * rate, BPS_FACTOR, scaled);
      RateChain(dTokens, pool.totalBorrowed, rate, pool.totalDTokens, scaled);
      CeilGalois(dTokens * pool.totalBorrowed, pool.totalDTokens, scaled);
    } else {
      assert pool.DTokensToTokensCeil(dTokens) == Ok(0) by { NoSharesNoTokens(dTokens, pool.totalBorrowed); }
    }
  }

  lemma NoSharesNoTokens(shares: int, totalTokens: int)
    ensures SharesToTokensCeil(shares, totalTokens, 0) == Ok(0)
    ensures SharesToTokensFloor(shares, totalTokens, 0) == Ok(0)
  {
  }

  lemma RateChain(shares: int, total: int, rate: int, totalShares: int, scaled: int)
    requires shares >= 0 && totalShares > 0
    requires total * BPS_FACTOR <= rate * totalShares
    requires shares * rate <= scaled * BPS_FACTOR
    ensures shares * total <= scaled * totalShares
  {
    MulLe(total * BPS_FACTOR, rate * totalShares, shares);
    MulLe(shares * rate, scaled * BPS_FACTOR, totalShares);
    assert total * BPS_FACTOR * shares == shares * total * BPS_FACTOR;
    assert rate * totalShares * shares == shares * rate * totalShares;
    assert scaled * BPS_FACTOR * totalShares == scaled * totalShares * BPS_FACTOR;
  }

  /** The floor rate never values a supply over its exact ratio. */
  lemma RateSupplyWithinExact(pool: PoolData, jTokens: int)
    requires TrueRates(pool) && jTokens >= 0
    requires pool.totalJTokens == 0 ==> jTokens == 0
    requires pool.JTokensToTokensFloor(jTokens).Ok?
    ensures 0 <= FixedMulFloor(jTokens, pool.jTokenRateFloorBps) <= pool.JTokensToTokensFloor(jTokens).value
  {
    hide FixedMulFloor, SharesToTokensFloor;
    var (rate, scaled) := (pool.jTokenRateFloorBps, FixedMulFloor(jTokens, pool.jTokenRateFloorBps));
    FixedMulFloorSpec(jTokens, rate);
    if pool.totalJTokens > 0 {
      ConversionIsScaling(jTokens, pool.totalSupply, pool.totalJTokens);
      MulDivSpec(jTokens, pool.totalSupply, pool.totalJTokens);
      FloorGalois(jTokens * rate, BPS_FACTOR, scaled);
      SupplyRateChain(jTokens, pool.totalSupply, rate, pool.totalJTokens, scaled);
      FloorGalois(jTokens * pool.totalSupply, pool.totalJTokens, scaled);
    } else {
      NoSharesNoTokens(jTokens, pool.totalSupply);
    }
  }

  lemma SupplyRateChain(shares: int, total: int, rate: int, totalShares: int, scaled: int)
    requires shares >= 0 && totalShares > 0
    requires rate * totalShares <= total * BPS_FACTOR
    requires scaled * BPS_FACTOR <= shares * rate
    ensures scaled * totalShares <= shares * total
  {
    MulLe(rate * totalShares, total * BPS_FACTOR, shares);
    MulLe(scaled * BPS_FACTOR, shares * rate, totalShares);
    assert total * BPS_FACTOR * shares == shares * total * BPS_FACTOR;
    assert rate * totalShares * shares == shares * rate * totalShares;
    assert scaled * BPS_FACTOR * totalShares == scaled * totalShares * BPS_FACTOR;
  }

  // ----- Totals compare item by item

  lemma {:induction false} TotalLe<T>(items: seq<T>, low: T -> Result<int>, high: T -> Result<int>, lowSum: int, highSum: int)
    requires 0 <= lowSum <= highSum
    requires Total(items, low, lowSum).Ok? && Total(items, high, highSum).Ok?
    requires forall x :: x in items && low(x).Ok? && high(x).Ok? ==> 0 <= low(x).value <= high(x).value
    ensures 0 <= Total(items, low, lowSum).value <= Total(items, high, highSum).value
  {
    if items != [] {
      var x := items[0];
      assert low(x).Ok? && high(x).Ok?;
      TotalLe(items[1..], low, high, lowSum + low(x).value, highSum + high(x).value);
    }
  }

  lemma DebtTotalsCompare(obligation: Obligation, market: MarketData)
    requires Backed(obligation, market) && Unsaturated(obligation, market)
    requires ObligationDebtValue(obligation, market).Ok? && ExactDebtTotal(obligation, market).Ok?
    ensures 0 <= ExactDebtTotal(obligation, market).value <= ObligationDebtValue(obligation, market).value
  {
    var exact := b => ExactDebtValue(market, b);
    var rate := b => RateDebtValue(market, b);
    forall b | b in obligation.borrows && exact(b).Ok? && rate(b).Ok?
      ensures 0 <= exact(b).value <= rate(b).value
    {
      assert !Uncomputable(b, market);
      DebtCompare(market, b);
    }
    TotalLe(obligation.borrows, exact, rate, 0, 0);
  }

  lemma DebtCompare(market: MarketData, b: BorrowPosition)
    requires b.dTokens >= 0 && !Saturates(b, market) && (forall pool :: pool in market.poolsData ==> TrueRates(pool))
    requires RateDebtValue(market, b).Ok? && !Uncomputable(b, market)
    ensures ExactDebtValue(market, b).Ok?
    ensures 0 <= ExactDebtValue(market, b).value <= RateDebtValue(market, b).value
  {
    hide ValueCeil, FixedMulCeil, SharesToTokensCeil;
    var pool := market.PoolOf(b.poolAddress).value;
    RateDebtCoversExact(pool, b.dTokens);
    ValueCeilMonotone(pool.DTokensToTokensCeil(b.dTokens).value, FixedMulCeil(b.dTokens, pool.dTokenRateCeilBps), pool);
  }

  lemma CollateralTotalsCompare(obligation: Obligation, market: MarketData)
    requires Backed(obligation, market)
    requires ObligationCollateralValue(obligation, market).Ok? && SeizableTotal(obligation, market).Ok?
    ensures ObligationCollateralValue(obligation, market).value <= SeizableTotal(obligation, market).value
  {
    var seizable := d => SeizableValue(market, d);
    var rate := d => RateCollateralValue(market, d);
    forall d | d in obligation.deposits && rate(d).Ok? && seizable(d).Ok?
      ensures 0 <= rate(d).value <= seizable(d).value
    {
      CollateralCompare(market, d);
    }
    TotalLe(obligation.deposits, rate, seizable, 0, 0);
  }

  lemma CollateralCompare(market: MarketData, d: DepositPosition)
    requires BackedDeposit(d, market) && (forall pool :: pool in market.poolsData ==> TrueRates(pool))
    requires SeizableValue(market, d).Ok? && RateCollateralValue(market, d).Ok?
    ensures 0 <= RateCollateralValue(market, d).value <= SeizableValue(market, d).value
  {
    hide ValueFloor, FixedMulFloor, SharesToTokensFloor;
    var pool := market.PoolOf(d.poolAddress).value;
    RateSupplyWithinExact(pool, d.jTokens);
    ValueFloorMonotone(FixedMulFloor(d.jTokens, pool.jTokenRateFloorBps) + d.collateral,
                       pool.JTokensToTokensFloor(d.jTokens).value + d.collateral, pool);
  }

  // ----- When the exact debt can be computed

  lemma {:induction false} TotalOkEach<T>(items: seq<T>, value: T -> Result<int>, sum: int, x: T)
    requires Total(items, value, sum).Ok? && x in items
    ensures value(x).Ok?
  {
    if items[0] != x {
      var v := value(items[0]);
      TotalOkEach(items[1..], value, sum + v.value, x);
    }
  }

  lemma {:induction false} TotalOkBelow<T>(items: seq<T>, low: T -> Result<int>, high: T -> Result<int>, lowSum: int, highSum: int)
    requires 0 <= lowSum <= highSum
    requires Total(items, high, highSum).Ok?
    requires forall x :: x in items && high(x).Ok? ==> low(x).Ok? && 0 <= low(x).value <= high(x).value
    ensures Total(items, low, lowSum).Ok?
  {
    if items != [] {
      var x := items[0];
      assert high(x).Ok?;
      TotalOkBelow(items[1..], low, high, lowSum + low(x).value, highSum + high(x).value);
    }
  }

  /** Where no rate saturates, the exact total of a valued debt fails exactly when some borrow's
      conversion does. */
  lemma ExactDebtFailsIff(obligation: Obligation, market: MarketData)
    requires Backed(obligation, market) && Unsaturated(obligation, market)
    requires ObligationDebtValue(obligation, market).Ok?
    ensures ExactDebtTotal(obligation, market).Err? <==> exists b :: b in obligation.borrows && Uncomputable(b, market)
  {
    var exact, rate := b => ExactDebtValue(market, b), b => RateDebtValue(market, b);
    if b :| b in obligation.borrows && Uncomputable(b, market) {
      if ExactDebtTotal(obligation, market).Ok? {
        TotalOkEach(obligation.borrows, exact, 0, b);
      }
    } else {
      forall b | b in obligation.borrows && rate(b).Ok?
        ensures exact(b).Ok? && 0 <= exact(b).value <= rate(b).value
      {
        DebtCompare(market, b);
      }
      TotalOkBelow(obligation.borrows, exact, rate, 0, 0);
    }
  }

  // ----- A solvent obligation is covered

  /** A solvent obligation holds seizable collateral of some value: what its rates value is never
      over what its exact ratios do. */
  lemma SolventHoldsSeizable(obligation: Obligation, market: MarketData)
    requires Backed(obligation, market)
    requires IsInsolvent(obligation, market) == Ok(false)
    requires ObligationDebtValue(obligation, market).value > 0
    requires SeizableTotal(obligation, market).Ok?
    ensures ObligationCollateralValue(obligation, market).Ok?
    ensures 0 < ObligationCollateralValue(obligation, market).value <= SeizableTotal(obligation, market).value
  {
    hide ObligationDebtValue, ObligationCollateralValue, SeizableTotal, MulDivCeil;
    CollateralTotalsCompare(obligation, market);
  }

  /** On a solvent obligation with debt, the cover test answers `false` exactly when the debt's
      exact value cannot be computed or exceeds that of the seizable collateral. */
  lemma SolventUncoveredIff(obligation: Obligation, market: MarketData)
    requires Backed(obligation, market)
    requires IsInsolvent(obligation, market) == Ok(false)
    requires ObligationDebtValue(obligation, market).value > 0
    ensures SeizableCollateralCoversDebt(obligation, market) == Ok(false)
       <==> (|| ExactDebtTotal(obligation, market).Err?
             || (&& SeizableTotal(obligation, market).Ok?
                 && SeizableTotal(obligation, market).value < ExactDebtTotal(obligation, market).value))
  {
    hide ObligationDebtValue, ExactDebtTotal, SeizableTotal, IsInsolvent;
    if SeizableTotal(obligation, market).Ok? {
      SolventHoldsSeizable(obligation, market);
    }
  }

  /** Where no rate saturates, the collateral never falls short: the cover test then answers `false`
      only for a debt whose exact value cannot be computed. */
  lemma SolventIsCovered(obligation: Obligation, market: MarketData)
    requires Backed(obligation, market) && market.insolvencyLtvBps <= BPS_FACTOR
    requires IsInsolvent(obligation, market) == Ok(false)
    requires ObligationDebtValue(obligation, market).value > 0
    requires Unsaturated(obligation, market)
    ensures SeizableTotal(obligation, market).Ok? && ExactDebtTotal(obligation, market).Ok? ==>
              SeizableCollateralCoversDebt(obligation, market) == Ok(true)
    ensures SeizableCollateralCoversDebt(obligation, market) == Ok(false)
       <==> ExactDebtTotal(obligation, market).Err?
  {
    hide ObligationDebtValue, ObligationCollateralValue, ExactDebtTotal, SeizableTotal, MulDivCeil, Saturates;
    SolventUncoveredIff(obligation, market);
    if ExactDebtTotal(obligation, market).Ok? && SeizableTotal(obligation, market).Ok? {
      DebtTotalsCompare(obligation, market);
      CollateralTotalsCompare(obligation, market);
      var (debt, collateral) := (ObligationDebtValue(obligation, market).value, ObligationCollateralValue(obligation, market).value);
      MulDivCeilSpec(debt, BPS_FACTOR, collateral);
      var ltv := MulDivCeil(debt, BPS_FACTOR, collateral).value;
      assert ltv < BPS_FACTOR;
      MulLe(ltv, BPS_FACTOR, collateral);
    }
  }

  /** A solvent obligation that reads as uncovered owes a debt whose exact conversion leaves 128
      bits, or one whose rate saturates. */
  lemma UncoveredHasCause(obligation: Obligation, market: MarketData)
    requires Backed(obligation, market) && market.insolvencyLtvBps <= BPS_FACTOR
    requires IsInsolvent(obligation, market) == Ok(false)
    requires ObligationDebtValue(obligation, market).value > 0
    requires SeizableCollateralCoversDebt(obligation, market) == Ok(false)
    ensures exists b :: b in obligation.borrows && (Uncomputable(b, market) || Saturates(b, market))
  {
    hide SeizableCollateralCoversDebt, ObligationDebtValue, ExactDebtTotal, Saturates, Uncomputable, Backed;
    if Unsaturated(obligation, market) {
      SolventIsCovered(obligation, market);
      ExactDebtFailsIff(obligation, market);
    }
  }

  // ----- The verdicts, in the amounts themselves

  /** A valued obligation with collateral is insolvent exactly when its debt passes one basis point
      under the insolvency LTV of its collateral; one without collateral is when it owes anything. */
  lemma InsolventIff(obligation: Obligation, market: MarketData)
    requires IsInsolvent(obligation, market).Ok?
    ensures ObligationDebtValue(obligation, market).Ok? && ObligationDebtValue(obligation, market).value >= 0
    ensures var debt := ObligationDebtValue(obligation, market).value;
            && (debt > 0 ==> ObligationCollateralValue(obligation, market).Ok? && ObligationCollateralValue(obligation, market).value >= 0)
            && (IsInsolvent(obligation, market).value <==>
                  && debt > 0
                  && var collateral := ObligationCollateralValue(obligation, market).value;
                  && (collateral == 0 || debt * BPS_FACTOR > (market.insolvencyLtvBps - 1) * collateral))
  {
    hide ObligationDebtValue, ObligationCollateralValue, MulDivCeil;
    var debt := ObligationDebtValue(obligation, market).value;
    if debt > 0 && ObligationCollateralValue(obligation, market).value > 0 {
      var collateral := ObligationCollateralValue(obligation, market).value;
      MulDivCeilSpec(debt, BPS_FACTOR, collateral);
      CeilGalois(debt * BPS_FACTOR, collateral, market.insolvencyLtvBps - 1);
    }
  }

  /** The verdict is an error exactly when a total is: the debt's, or with debt the collateral's, or
      their ratio leaves 128 bits. */
  lemma InsolvencyDecidedIff(obligation: Obligation, market: MarketData)
    ensures var (debt, collateral) := (ObligationDebtValue(obligation, market), ObligationCollateralValue(obligation, market));
            IsInsolvent(obligation, market).Ok? <==>
              && debt.Ok? && debt.value >= 0
              && (debt.value > 0 ==>
                    && collateral.Ok? && collateral.value >= 0
                    && (collateral.value > 0 ==> debt.value * BPS_FACTOR + (collateral.value - 1) <= I128_MAX))
  {
    hide ObligationDebtValue, ObligationCollateralValue, MulDivCeil;
    var (debt, collateral) := (ObligationDebtValue(obligation, market), ObligationCollateralValue(obligation, market));
    if debt.Ok? && debt.value > 0 && collateral.Ok? && collateral.value > 0 {
      MulDivCeilSpec(debt.value, BPS_FACTOR, collateral.value);
    }
  }

  /** A borrow's rated value: its shares at the pool's rate, rounded up, and their price, rounded up. */
  lemma RateDebtExactly(market: MarketData, b: BorrowPosition) returns (tokens: int)
    requires market.PoolOf(b.poolAddress).Some? && TrueRates(market.PoolOf(b.poolAddress).value)
    requires b.dTokens >= 0 && !Saturates(b, market) && RateDebtValue(market, b).Ok?
    ensures var pool := market.PoolOf(b.poolAddress).value;
            && Ceils(tokens, b.dTokens * pool.dTokenRateCeilBps, BPS_FACTOR)
            && Ceils(RateDebtValue(market, b).value, tokens * pool.oracleAssetPrice, Pow10(pool.tokenDecimals))
  {
    hide FixedMulCeil, MulDivCeil, Ceils, FindPool;
    var pool := market.PoolOf(b.poolAddress).value;
    tokens := FixedMulCeil(b.dTokens, pool.dTokenRateCeilBps);
    MulNonNegative(b.dTokens, pool.dTokenRateCeilBps);
    FixedMulCeils(b.dTokens, pool.dTokenRateCeilBps);
    FixedMulCeilSpec(b.dTokens, pool.dTokenRateCeilBps);
    MulDivCeils(tokens, pool.oracleAssetPrice, Pow10(pool.tokenDecimals));
  }

  /** A deposit's rated value: its shares at the pool's rate and its plain collateral, rounded down. */
  lemma RateCollateralExactly(market: MarketData, d: DepositPosition) returns (supplied: int)
    requires market.PoolOf(d.poolAddress).Some? && TrueRates(market.PoolOf(d.poolAddress).value)
    requires d.jTokens >= 0 && d.collateral >= 0
    requires d.jTokens * market.PoolOf(d.poolAddress).value.jTokenRateFloorBps <= I128_MAX && RateCollateralValue(market, d).Ok?
    ensures var pool := market.PoolOf(d.poolAddress).value;
            && Floors(supplied, d.jTokens * pool.jTokenRateFloorBps, BPS_FACTOR)
            && Floors(RateCollateralValue(market, d).value, (supplied + d.collateral) * pool.oracleAssetPrice, Pow10(pool.tokenDecimals))
  {
    hide FixedMulFloor, MulDiv, Floors, FindPool;
    var pool := market.PoolOf(d.poolAddress).value;
    supplied := FixedMulFloor(d.jTokens, pool.jTokenRateFloorBps);
    FixedMulFloors(d.jTokens, pool.jTokenRateFloorBps);
    FixedMulFloorSpec(d.jTokens, pool.jTokenRateFloorBps);
    MulDivFloors(supplied + d.collateral, pool.oracleAssetPrice, Pow10(pool.tokenDecimals));
  }

  /** A borrow's exact value: the fewest tokens covering its shares, and their price, rounded up. */
  lemma ExactDebtExactly(market: MarketData, b: BorrowPosition) returns (tokens: int)
    requires market.PoolOf(b.poolAddress).Some? && TrueRates(market.PoolOf(b.poolAddress).value)
    requires market.PoolOf(b.poolAddress).value.totalDTokens > 0
    requires b.dTokens >= 0 && ExactDebtValue(market, b).Ok?
    ensures var pool := market.PoolOf(b.poolAddress).value;
            && Ceils(tokens, b.dTokens * pool.totalBorrowed, pool.totalDTokens)
            && Ceils(ExactDebtValue(market, b).value, tokens * pool.oracleAssetPrice, Pow10(pool.tokenDecimals))
  {
    hide SharesToTokensCeil, MulDivCeil, Ceils, FindPool;
    var pool := market.PoolOf(b.poolAddress).value;
    ConversionIsScaling(b.dTokens, pool.totalBorrowed, pool.totalDTokens);
    tokens := pool.DTokensToTokensCeil(b.dTokens).value;
    MulDivCeils(b.dTokens, pool.totalBorrowed, pool.totalDTokens);
    MulDivCeils(tokens, pool.oracleAssetPrice, Pow10(pool.tokenDecimals));
  }

  /** A deposit's seizable value: nothing without a positive close LTV, else its exact supply and plain
      collateral, rounded down. */
  lemma SeizableExactly(market: MarketData, d: DepositPosition) returns (supplied: int)
    requires market.PoolOf(d.poolAddress).Some? && TrueRates(market.PoolOf(d.poolAddress).value)
    requires market.PoolOf(d.poolAddress).value.totalJTokens > 0
    requires d.jTokens >= 0 && d.collateral >= 0 && SeizableValue(market, d).Ok?
    ensures var pool := market.PoolOf(d.poolAddress).value;
            && (pool.closeLtvBps <= 0 ==> SeizableValue(market, d).value == 0)
            && (pool.closeLtvBps > 0 ==>
                  && Floors(supplied, d.jTokens * pool.totalSupply, pool.totalJTokens)
                  && Floors(SeizableValue(market, d).value, (supplied + d.collateral) * pool.oracleAssetPrice, Pow10(pool.tokenDecimals)))
  {
    hide SharesToTokensFloor, MulDiv, Floors, FindPool;
    var pool := market.PoolOf(d.poolAddress).value;
    supplied := 0;
    if pool.closeLtvBps > 0 {
      ConversionIsScaling(d.jTokens, pool.totalSupply, pool.totalJTokens);
      supplied := pool.JTokensToTokensFloor(d.jTokens).value;
      MulDivFloors(d.jTokens, pool.totalSupply, pool.totalJTokens);
      MulDivFloors(supplied + d.collateral, pool.oracleAssetPrice, Pow10(pool.tokenDecimals));
    }
  }
}
