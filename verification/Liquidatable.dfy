/** The liquidator's gate: when it considers an obligation liquidatable at all, and why it never
    shuts on the small obligations the bad-debt initiator leaves to it. */
module Liquidatable {
  import opened Arithmetic
  import opened Pool
  import opened Market
  import opened Profitability
  import opened Liquidation
  import opened LiquidationLaws
  import opened Insolvency
  import opened BadDebt

  /** A borrow's value weighted by its liability factor; an unpriced borrow counts for nothing. */
  function WeightedDebt(market: MarketData, borrow: BorrowPosition): Result<int> {
    match market.PoolOf(borrow.poolAddress)
    case None => Ok(0)
    case Some(pool) =>
      var value :- ValueCeil(FixedMulCeil(borrow.dTokens, pool.dTokenRateCeilBps), pool);
      Ok(FixedMulCeil(value, pool.liabilityFactorBps))
  }

  /** A deposit's value weighted by its close LTV; an unpriced deposit counts for nothing. */
  function WeightedCollateral(market: MarketData, deposit: DepositPosition): Result<int> {
    match market.PoolOf(deposit.poolAddress)
    case None => Ok(0)
    case Some(pool) =>
      var tokens :- Checked(FixedMulFloor(deposit.jTokens, pool.jTokenRateFloorBps) + deposit.collateral);
      var value :- ValueFloor(tokens, pool);
      Ok(FixedMulFloor(value, pool.closeLtvBps))
  }

  predicate HoldsCollateral(market: MarketData, deposit: DepositPosition) {
    && market.PoolOf(deposit.poolAddress).Some?
    && Clamp(FixedMulFloor(deposit.jTokens, market.PoolOf(deposit.poolAddress).value.jTokenRateFloorBps) + deposit.collateral) > 0
  }

  predicate HasAnyCollateral(obligation: Obligation, market: MarketData) {
    exists d :: d in obligation.deposits && HoldsCollateral(market, d)
  }

  function IsLiquidatable(obligation: Obligation, market: MarketData, rules: DustRules): Result<bool> {
    if !HasAnyCollateral(obligation, market) then Ok(false)
    else
      var debt :- Total(obligation.borrows, b => WeightedDebt(market, b), 0);
      if debt == 0 then Ok(false)
      else
        var collateral :- Total(obligation.deposits, d => WeightedCollateral(market, d), 0);
        var perPosition :- CentsToOracleValueFloor(market.minCollateralValueCents, market.oraclePriceDecimals);
        var reserve :- Checked(perPosition * |obligation.deposits|);
        if rules.Sweep? && reserve > collateral then Ok(false)
        else
          var adjusted :- Checked(collateral - reserve);
          Ok(debt > adjusted)
  }

  method SumWeightedDebt(obligation: Obligation, market: MarketData) returns (r: Result<int>)
    ensures r == Total(obligation.borrows, b => WeightedDebt(market, b), 0)
  {
    hide FindPool, ValueCeil, FixedMulCeil;
    var debtValue := 0;
    ghost var debtOf := b => WeightedDebt(market, b);
    for i := 0 to |obligation.borrows|
      invariant Fits(debtValue)
      invariant Total(obligation.borrows[i..], debtOf, debtValue) == Total(obligation.borrows, debtOf, 0)
    {
      var borrow := obligation.borrows[i];
      assert obligation.borrows[i..][1..] == obligation.borrows[i + 1..];
      var pool := market.PoolOf(borrow.poolAddress);
      if pool.None? {
        continue;
      }
      var value :- ValueCeil(FixedMulCeil(borrow.dTokens, pool.value.dTokenRateCeilBps), pool.value);
      debtValue :- Checked(debtValue + FixedMulCeil(value, pool.value.liabilityFactorBps));
    }
    return Ok(debtValue);
  }

  method SumWeightedCollateral(obligation: Obligation, market: MarketData) returns (r: Result<int>)
    ensures r == Total(obligation.deposits, d => WeightedCollateral(market, d), 0)
  {
    hide FindPool, ValueFloor, FixedMulFloor;
    var collateralValue := 0;
    ghost var collateralOf := d => WeightedCollateral(market, d);
    for i := 0 to |obligation.deposits|
      invariant Fits(collateralValue)
      invariant Total(obligation.deposits[i..], collateralOf, collateralValue) == Total(obligation.deposits, collateralOf, 0)
    {
      var deposit := obligation.deposits[i];
      assert obligation.deposits[i..][1..] == obligation.deposits[i + 1..];
      var pool := market.PoolOf(deposit.poolAddress);
      if pool.None? {
        continue;
      }
      var tokens :- Checked(FixedMulFloor(deposit.jTokens, pool.value.jTokenRateFloorBps) + deposit.collateral);
      var value :- ValueFloor(tokens, pool.value);
      collateralValue :- Checked(collateralValue + FixedMulFloor(value, pool.value.closeLtvBps));
    }
    return Ok(collateralValue);
  }

  method ComputeIsLiquidatable(obligation: Obligation, market: MarketData, rules: DustRules) returns (r: Result<bool>)
    ensures r == IsLiquidatable(obligation, market, rules)
  {
    hide HasAnyCollateral, CentsToOracleValueFloor, Total;
    if !HasAnyCollateral(obligation, market) {
      return Ok(false);
    }
    var debtValue :- SumWeightedDebt(obligation, market);
    if debtValue == 0 {
      return Ok(false);
    }
    var collateralValue :- SumWeightedCollateral(obligation, market);
    var perPosition :- CentsToOracleValueFloor(market.minCollateralValueCents, market.oraclePriceDecimals);
    var reserve :- Checked(perPosition * |obligation.deposits|);
    if rules.Sweep? && reserve > collateralValue {
      return Ok(false);
    }
    var adjusted :- Checked(collateralValue - reserve);
    return Ok(debtValue > adjusted);
  }

  // ----- The gate opens for small obligations

  /** A pool whose rates are true and whose risk parameters weigh debt up and collateral down. */
  predicate Weighing(pool: PoolData) {
    && TrueRates(pool)
    && 0 <= pool.closeLtvBps <= BPS_FACTOR
    && pool.liabilityFactorBps > 0
    && pool.dTokenRateCeilBps > 0
  }

  predicate HeldDeposit(d: DepositPosition, market: MarketData) {
    && d.jTokens >= 0 && d.collateral >= 0
    && (market.PoolOf(d.poolAddress).Some? && market.PoolOf(d.poolAddress).value.totalJTokens == 0 ==> d.jTokens == 0)
  }

  predicate Owed(b: BorrowPosition, market: MarketData) {
    b.dTokens > 0 && market.PoolOf(b.poolAddress).Some?
  }

  lemma {:induction false} UnderFloorEach(deposits: seq<DepositPosition>, market: MarketData, floor: int, d: DepositPosition)
    requires AllUnderFloor(deposits, market, floor) == Ok(true) && d in deposits
    ensures AllUnderFloor([d], market, floor) == Ok(true)
  {
    hide FindPool, SharesToTokensCeil, Quot, Clamp;
    assert [d][1..] == [];
    if deposits[0] != d {
      UnderFloorEach(deposits[1..], market, floor, d);
    }
  }

  /** The fewest tokens of a pool worth `value`. */
  function LeastWorth(pool: PoolData, value: int): int
    requires pool.oracleAssetPrice > 0
  {
    (value * Pow10(pool.tokenDecimals) + (pool.oracleAssetPrice - 1)) / pool.oracleAssetPrice
  }

  /** A deposit in the pool can be worth exactly `value` and weigh all of it: its close LTV is
      100%, and some number of tokens has that value. */
  predicate WeighsWhole(pool: PoolData, value: int) {
    && pool.oracleAssetPrice > 0
    && pool.closeLtvBps == BPS_FACTOR
    && value * BPS_FACTOR <= I128_MAX
    && ValueFloor(LeastWorth(pool, value), pool) == Ok(value)
  }

  /** If any number of tokens has a value, the fewest covering it has it too. */
  lemma LeastWorthReaches(pool: PoolData, tokens: int, value: int)
    requires tokens >= 0 && value >= 0 && pool.oracleAssetPrice > 0
    requires ValueFloor(tokens, pool) == Ok(value)
    ensures ValueFloor(LeastWorth(pool, value), pool) == Ok(value)
  {
    hide MulDiv, Pow10;
    var (price, factor, least) := (pool.oracleAssetPrice, Pow10(pool.tokenDecimals), LeastWorth(pool, value));
    MulDivSpec(tokens, price, factor);
    CeilGalois(value * factor, price, tokens);
    CeilGalois(value * factor, price, least);
    MulNonNegative(value, factor);
    QuotientAtMost(value * factor + (price - 1), price);
    ValueFloorMonotone(least, tokens, pool);
    MulDivSpec(least, price, factor);
    FloorGalois(least * price, factor, value);
  }

  /** A deposit the initiator finds under the floor rounded up weighs at most the floor rounded
      down, unless the two differ and its pool weighs whole. */
  lemma WeightUnderFloor(market: MarketData, d: DepositPosition, up: int, down: int)
    requires (forall pool :: pool in market.poolsData ==> Weighing(pool)) && HeldDeposit(d, market)
    requires AllUnderFloor([d], market, up) == Ok(true)
    requires WeightedCollateral(market, d).Ok?
    requires 0 <= down <= up <= down + 1
    requires up == down || !WeighsWhole(market.PoolOf(d.poolAddress).value, up)
    ensures 0 <= WeightedCollateral(market, d).value <= down
  {
    hide FixedMulFloor, MulDiv, SharesToTokensCeil, SharesToTokensFloor, FindPool, Pow10, LeastWorth;
    var pool := market.PoolOf(d.poolAddress).value;
    var supplied := pool.JTokensToTokensCeil(d.jTokens).value;
    SupplyUnderCeil(pool, d.jTokens);
    var tokens := FixedMulFloor(d.jTokens, pool.jTokenRateFloorBps) + d.collateral;
    ProductIsValue(supplied + d.collateral, pool);
    ValueFloorMonotone(tokens, supplied + d.collateral, pool);
    var value := ValueFloor(tokens, pool).value;
    assert ValueFloor(tokens, pool) == Ok(value) && 0 <= value <= up;
    FixedMulFloorSpec(value, pool.closeLtvBps);
    WeightOnlyLowers(value, pool.closeLtvBps);
    if value == up == down + 1 {
      LeastWorthReaches(pool, tokens, up);
      WeightMissesTheTop(up, pool.closeLtvBps);
    }
  }

  /** Only a 100% close LTV, short of saturation, weighs a positive value whole. */
  lemma WeightMissesTheTop(value: int, ltvBps: int)
    requires value > 0 && 0 <= ltvBps <= BPS_FACTOR
    requires ltvBps < BPS_FACTOR || value * BPS_FACTOR > I128_MAX
    ensures FixedMulFloor(value, ltvBps) < value
  {
    FixedMulFloorSpec(value, ltvBps);
    if ltvBps < BPS_FACTOR {
      MulLe(ltvBps, BPS_FACTOR - 1, value);
      assert value * ltvBps < value * BPS_FACTOR;
      FloorGalois(value * ltvBps, BPS_FACTOR, value);
    }
  }

  lemma WeightOnlyLowers(value: int, ltvBps: int)
    requires value >= 0 && 0 <= ltvBps <= BPS_FACTOR
    ensures value * ltvBps / BPS_FACTOR <= value
  {
    MulLe(ltvBps, BPS_FACTOR, value);
    FloorGalois(value * ltvBps, BPS_FACTOR, value + 1);
  }

  lemma ProductIsValue(tokens: int, pool: PoolData)
    requires tokens >= 0 && pool.oracleAssetPrice > 0
    requires Checked(tokens * pool.oracleAssetPrice).Ok? && CheckedPow10(pool.tokenDecimals).Ok?
    ensures ValueFloor(tokens, pool) == Ok(Clamp(Quot(tokens * pool.oracleAssetPrice, Pow10(pool.tokenDecimals))))
  {
    MulDivSpec(tokens, pool.oracleAssetPrice, Pow10(pool.tokenDecimals));
    MulNonNegative(tokens, pool.oracleAssetPrice);
    QuotientAtMost(tokens * pool.oracleAssetPrice, Pow10(pool.tokenDecimals));
  }

  lemma SupplyUnderCeil(pool: PoolData, jTokens: int)
    requires TrueRates(pool) && jTokens >= 0
    requires pool.totalJTokens == 0 ==> jTokens == 0
    requires pool.JTokensToTokensCeil(jTokens).Ok?
    ensures 0 <= FixedMulFloor(jTokens, pool.jTokenRateFloorBps) <= pool.JTokensToTokensCeil(jTokens).value
  {
    hide FixedMulFloor, MulDiv, MulDivCeil, SharesToTokensCeil, SharesToTokensFloor;
    if pool.totalJTokens > 0 {
      ConversionIsScaling(jTokens, pool.totalSupply, pool.totalJTokens);
      FloorCeilBracket(jTokens, pool.totalSupply, pool.totalJTokens);
    } else {
      NoSharesNoTokens(jTokens, pool.totalSupply);
    }
    RateSupplyWithinExact(pool, jTokens);
  }

  lemma {:induction false} TotalAtMost<T>(items: seq<T>, value: T -> Result<int>, bound: int, sum: int)
    requires Total(items, value, sum).Ok?
    requires forall x :: x in items && value(x).Ok? ==> value(x).value <= bound
    ensures Total(items, value, sum).value <= sum + bound * |items|
  {
    if items != [] {
      var x := items[0];
      assert value(x).Ok?;
      TotalAtMost(items[1..], value, bound, sum + value(x).value);
      assert bound * |items| == bound * (|items| - 1) + bound;
    }
  }

  lemma {:induction false} TotalPositive<T>(items: seq<T>, value: T -> Result<int>, sum: int)
    requires Total(items, value, sum).Ok? && sum >= 0
    requires forall x :: x in items && value(x).Ok? ==> value(x).value >= 0
    requires sum > 0 || exists x :: x in items && (value(x).Ok? ==> value(x).value > 0)
    ensures Total(items, value, sum).value > 0
  {
    if items != [] {
      var x := items[0];
      assert value(x).Ok?;
      TotalPositive(items[1..], value, sum + value(x).value);
    }
  }

  /** Debt never weighs less than nothing, and any debt at all weighs something. */
  lemma WeightedDebtSign(market: MarketData, b: BorrowPosition)
    requires (forall pool :: pool in market.poolsData ==> Weighing(pool)) && b.dTokens >= 0
    requires WeightedDebt(market, b).Ok?
    ensures WeightedDebt(market, b).value >= 0
    ensures Owed(b, market) ==> WeightedDebt(market, b).value > 0
  {
    hide ValueCeil, FindPool;
    if market.PoolOf(b.poolAddress).Some? {
      var pool := market.PoolOf(b.poolAddress).value;
      PositiveScaledCeil(b.dTokens, pool.dTokenRateCeilBps);
      var tokens := FixedMulCeil(b.dTokens, pool.dTokenRateCeilBps);
      PositiveValueCeil(tokens, pool);
      PositiveScaledCeil(ValueCeil(tokens, pool).value, pool.liabilityFactorBps);
    }
  }

  lemma PositiveScaledCeil(amount: int, bps: int)
    requires amount >= 0 && bps > 0
    ensures FixedMulCeil(amount, bps) >= 0
    ensures amount > 0 ==> FixedMulCeil(amount, bps) > 0
  {
    MulLe(1, bps, amount);
  }

  lemma PositiveValueCeil(tokens: int, pool: PoolData)
    requires tokens >= 0 && pool.oracleAssetPrice > 0 && ValueCeil(tokens, pool).Ok?
    ensures ValueCeil(tokens, pool).value >= 0
    ensures tokens > 0 ==> ValueCeil(tokens, pool).value > 0
  {
    hide MulDivCeil;
    var (price, factor) := (pool.oracleAssetPrice, Pow10(pool.tokenDecimals));
    MulDivCeilSpec(tokens, price, factor);
    MulLe(1, price, tokens);
  }

  /** The floor is a whole number of oracle units. */
  predicate WholeFloor(market: MarketData) {
    market.minCollateralValueCents * Pow10(market.oraclePriceDecimals) % 100 == 0
  }

  /** With two oracle decimals or more every floor is whole. */
  lemma WholeFromTwoDecimals(market: MarketData)
    requires market.oraclePriceDecimals >= 2
    ensures WholeFloor(market)
  {
    var (cents, n) := (market.minCollateralValueCents, market.oraclePriceDecimals);
    assert Pow10(n) == 10 * Pow10(n - 1) == 100 * Pow10(n - 2);
    assert cents * Pow10(n) == 100 * (cents * Pow10(n - 2));
  }

  /** The initiator rounds the floor up and the gate rounds it down: one unit apart, or equal
      exactly when the floor is whole. */
  lemma FloorRoundings(market: MarketData)
    requires CentsToOracleValueCeil(market.minCollateralValueCents, market.oraclePriceDecimals).Ok?
    ensures CentsToOracleValueFloor(market.minCollateralValueCents, market.oraclePriceDecimals).Ok?
    ensures var up := CentsToOracleValueCeil(market.minCollateralValueCents, market.oraclePriceDecimals).value;
            var down := CentsToOracleValueFloor(market.minCollateralValueCents, market.oraclePriceDecimals).value;
            && 0 <= down <= up <= down + 1
            && (up == down <==> WholeFloor(market))
  {
    MulDivSpec(market.minCollateralValueCents, Pow10(market.oraclePriceDecimals), 100);
    MulDivCeilSpec(market.minCollateralValueCents, Pow10(market.oraclePriceDecimals), 100);
  }

  /** What the initiator leaves to the liquidator for being small: it owes something, holds
      something, and has every deposit at or under the initiator's floor. */
  predicate SmallAndOwing(obligation: Obligation, market: MarketData, floor: int) {
    && (forall d :: d in obligation.deposits ==> HeldDeposit(d, market))
    && (forall b :: b in obligation.borrows ==> b.dTokens >= 0)
    && (exists b :: b in obligation.borrows && Owed(b, market))
    && HasAnyCollateral(obligation, market)
    && AllUnderFloor(obligation.deposits, market, floor) == Ok(true)
  }

  /** The gate stays open for what the initiator leaves to the liquidator: on a no-dust market a
      small obligation is liquidatable when the floor is whole, or when no deposit's pool weighs
      whole at the floor, as none does with a close LTV under 100%. */
  lemma SmallObligationsAreLiquidatable(obligation: Obligation, market: MarketData, floor: int)
    requires forall pool :: pool in market.poolsData ==> Weighing(pool)
    requires CentsToOracleValueCeil(market.minCollateralValueCents, market.oraclePriceDecimals) == Ok(floor)
    requires SmallAndOwing(obligation, market, floor)
    requires WholeFloor(market) ||
             forall d :: d in obligation.deposits && market.PoolOf(d.poolAddress).Some? ==>
               !WeighsWhole(market.PoolOf(d.poolAddress).value, floor)
    ensures IsLiquidatable(obligation, market, NoDust) != Ok(false)
  {
    hide WeightedDebt, WeightedCollateral, AllUnderFloor, HasAnyCollateral, CentsToOracleValueCeil, CentsToOracleValueFloor,
         WeighsWhole, WholeFloor;
    var debtOf, collateralOf := b => WeightedDebt(market, b), d => WeightedCollateral(market, d);
    FloorRoundings(market);
    var down := CentsToOracleValueFloor(market.minCollateralValueCents, market.oraclePriceDecimals).value;
    if Total(obligation.borrows, debtOf, 0).Ok? {
      OwingWeighs(obligation.borrows, market);
    }
    if Total(obligation.deposits, collateralOf, 0).Ok? {
      forall d | d in obligation.deposits && collateralOf(d).Ok?
        ensures collateralOf(d).value <= down
      {
        UnderFloorEach(obligation.deposits, market, floor, d);
        UnderFloorIsPriced(market, d, floor);
        WeightUnderFloor(market, d, floor, down);
      }
      TotalAtMost(obligation.deposits, collateralOf, down, 0);
    }
    LiquidatableWhenOutweighed(obligation, market, down);
  }

  lemma UnderFloorIsPriced(market: MarketData, d: DepositPosition, floor: int)
    requires AllUnderFloor([d], market, floor) == Ok(true)
    ensures market.PoolOf(d.poolAddress).Some?
  {
  }

  lemma LiquidatableWhenOutweighed(obligation: Obligation, market: MarketData, floor: int)
    requires HasAnyCollateral(obligation, market)
    requires CentsToOracleValueFloor(market.minCollateralValueCents, market.oraclePriceDecimals) == Ok(floor)
    requires var debt := Total(obligation.borrows, b => WeightedDebt(market, b), 0);
             debt.Ok? ==> debt.value > 0
    requires var collateral := Total(obligation.deposits, d => WeightedCollateral(market, d), 0);
             collateral.Ok? ==> collateral.value <= floor * |obligation.deposits|
    ensures IsLiquidatable(obligation, market, NoDust) != Ok(false)
  {
    hide WeightedDebt, WeightedCollateral, HasAnyCollateral, CentsToOracleValueFloor;
  }

  // ----- Exactly when the gate can shut on one

  /** The pools of the snapshot, by address, that weigh a deposit at the floor whole. */
  function WholeAddresses(market: MarketData, floor: int): set<string> {
    set pool | pool in market.poolsData && market.PoolOf(pool.poolAddress) == Some(pool) && WeighsWhole(pool, floor) :: pool.poolAddress
  }

  /** How many of the items have the value `top`. */
  function Tops<T>(items: seq<T>, value: T -> Result<int>, top: int): nat {
    if items == [] then 0 else (if value(items[0]) == Ok(top) then 1 else 0) + Tops(items[1..], value, top)
  }

  /** Where no value passes `down + 1`, only those at `down + 1` lift the total over `down` an item. */
  lemma {:induction false} TotalByTops<T>(items: seq<T>, value: T -> Result<int>, down: int, sum: int)
    requires Total(items, value, sum).Ok? && down >= 0
    requires forall x :: x in items && value(x).Ok? ==> 0 <= value(x).value <= down + 1
    ensures var tops := Tops(items, value, down + 1);
            sum + (down + 1) * tops <= Total(items, value, sum).value <= sum + down * |items| + tops
  {
    if items != [] {
      var x := items[0];
      assert value(x).Ok? && value(x) == Ok(value(x).value);
      TotalByTops(items[1..], value, down, sum + value(x).value);
      var (rest, tops) := (Tops(items[1..], value, down + 1), Tops(items, value, down + 1));
      assert down * |items| == down * (|items| - 1) + down;
      assert tops == rest + 1 ==> (down + 1) * tops == (down + 1) * rest + (down + 1);
    }
  }

  /** Deposits in distinct pools: no more at the top than there are pools to hold them. */
  lemma {:induction false} TopsAtMost(deposits: seq<DepositPosition>, value: DepositPosition -> Result<int>, top: int, pools: set<string>)
    requires DistinctPools(deposits)
    requires forall d :: d in deposits && value(d) == Ok(top) ==> d.poolAddress in pools
    ensures Tops(deposits, value, top) <= |pools|
  {
    if deposits != [] {
      var here := deposits[0].poolAddress;
      if value(deposits[0]) == Ok(top) {
        TopsAtMost(deposits[1..], value, top, pools - {here});
      } else {
        TopsAtMost(deposits[1..], value, top, pools);
      }
    }
  }

  /** A small obligation the gate is shut to holds enough deposits weighed whole: the floor is
      fractional, and the snapshot has as many pools weighing it whole as the debt weighs. */
  lemma ShutGateHasCause(market: MarketData, floor: int, obligation: Obligation)
    requires forall pool :: pool in market.poolsData ==> Weighing(pool)
    requires CentsToOracleValueCeil(market.minCollateralValueCents, market.oraclePriceDecimals) == Ok(floor)
    requires DistinctPools(obligation.deposits) && SmallAndOwing(obligation, market, floor)
    requires IsLiquidatable(obligation, market, NoDust) == Ok(false)
    ensures !WholeFloor(market)
    ensures GateWeight(obligation.borrows, market).Ok?
    ensures var debt := GateWeight(obligation.borrows, market).value;
            debt <= |WholeAddresses(market, floor)| && debt * floor <= I128_MAX
  {
    hide WeightedDebt, WeightedCollateral, AllUnderFloor, HasAnyCollateral, CentsToOracleValueCeil, CentsToOracleValueFloor,
         WeighsWhole, WholeFloor, WholeAddresses, Weighing, HeldDeposit, FindPool, Total, Tops;
    if WholeFloor(market) {
      SmallObligationsAreLiquidatable(obligation, market, floor);
    }
    FloorRoundings(market);
    var down := floor - 1;
    var collateralOf := d => WeightedCollateral(market, d);
    if GateWeight(obligation.borrows, market).Ok? {
      OwingWeighs(obligation.borrows, market);
    }
    ShutGateBalance(obligation, market, down);
    var debt, collateral := GateWeight(obligation.borrows, market).value, Total(obligation.deposits, collateralOf, 0).value;
    CollateralByTops(market, floor, obligation);
    TotalFits(obligation.deposits, collateralOf, 0);
    DebtWithinTops(debt, Tops(obligation.deposits, collateralOf, floor), floor, collateral, |obligation.deposits|);
  }

  lemma DebtWithinTops(debt: int, tops: int, floor: int, collateral: int, n: int)
    requires floor >= 1 && collateral <= I128_MAX
    requires debt <= collateral - (floor - 1) * n
    requires floor * tops <= collateral <= (floor - 1) * n + tops
    ensures debt <= tops && debt * floor <= I128_MAX
  {
    MulLe(debt, tops, floor);
  }

  /** What a small obligation's deposits weigh, by how many of them weigh the floor whole. */
  lemma CollateralByTops(market: MarketData, floor: int, obligation: Obligation)
    requires forall pool :: pool in market.poolsData ==> Weighing(pool)
    requires DistinctPools(obligation.deposits) && SmallAndOwing(obligation, market, floor) && floor >= 1
    requires Total(obligation.deposits, d => WeightedCollateral(market, d), 0).Ok?
    ensures var collateralOf := d => WeightedCollateral(market, d);
            var (collateral, tops) := (Total(obligation.deposits, collateralOf, 0).value, Tops(obligation.deposits, collateralOf, floor));
            && floor * tops <= collateral <= (floor - 1) * |obligation.deposits| + tops
            && tops <= |WholeAddresses(market, floor)|
  {
    hide WeightedCollateral, SmallAndOwing, WholeAddresses, Weighing;
    var collateralOf := d => WeightedCollateral(market, d);
    forall d | d in obligation.deposits && collateralOf(d).Ok?
      ensures 0 <= collateralOf(d).value <= floor && (collateralOf(d) == Ok(floor) ==> d.poolAddress in WholeAddresses(market, floor))
    {
      TopWeightIsWhole(market, obligation, d, floor);
    }
    TotalByTops(obligation.deposits, collateralOf, floor - 1, 0);
    TopsAtMost(obligation.deposits, collateralOf, floor, WholeAddresses(market, floor));
  }

  /** What the gate weighs the borrows at. */
  function GateWeight(borrows: seq<BorrowPosition>, market: MarketData): Result<int> {
    Total(borrows, b => WeightedDebt(market, b), 0)
  }

  lemma {:induction false} TotalFits<T>(items: seq<T>, value: T -> Result<int>, sum: int)
    requires Fits(sum) && Total(items, value, sum).Ok?
    ensures Fits(Total(items, value, sum).value)
  {
    if items != [] {
      TotalFits(items[1..], value, sum + value(items[0]).value);
    }
  }

  lemma ShutGateBalance(obligation: Obligation, market: MarketData, down: int)
    requires CentsToOracleValueFloor(market.minCollateralValueCents, market.oraclePriceDecimals) == Ok(down)
    requires HasAnyCollateral(obligation, market) && GateWeight(obligation.borrows, market) != Ok(0)
    requires IsLiquidatable(obligation, market, NoDust) == Ok(false)
    ensures GateWeight(obligation.borrows, market).Ok?
    ensures var collateral := Total(obligation.deposits, d => WeightedCollateral(market, d), 0);
            collateral.Ok? && GateWeight(obligation.borrows, market).value <= collateral.value - down * |obligation.deposits|
  {
    hide WeightedDebt, WeightedCollateral, HasAnyCollateral, CentsToOracleValueFloor, Total;
  }

  /** A deposit at or under the fractional floor weighs at most the floor rounded up, and that only
      in a pool that weighs it whole. */
  lemma TopWeightIsWhole(market: MarketData, obligation: Obligation, d: DepositPosition, floor: int)
    requires forall pool :: pool in market.poolsData ==> Weighing(pool)
    requires d in obligation.deposits && SmallAndOwing(obligation, market, floor) && floor >= 1
    requires WeightedCollateral(market, d).Ok?
    ensures 0 <= WeightedCollateral(market, d).value <= floor
    ensures WeightedCollateral(market, d) == Ok(floor) ==> d.poolAddress in WholeAddresses(market, floor)
  {
    hide WeightedCollateral, AllUnderFloor, HasAnyCollateral, WeighsWhole, Weighing, HeldDeposit, FindPool;
    UnderFloorEach(obligation.deposits, market, floor, d);
    UnderFloorIsPriced(market, d, floor);
    WeightUnderFloor(market, d, floor, floor);
    if !WeighsWhole(market.PoolOf(d.poolAddress).value, floor) {
      WeightUnderFloor(market, d, floor, floor - 1);
    }
  }

  /** The borrows of a small obligation weigh something. */
  lemma OwingWeighs(borrows: seq<BorrowPosition>, market: MarketData)
    requires forall pool :: pool in market.poolsData ==> Weighing(pool)
    requires forall b :: b in borrows ==> b.dTokens >= 0
    requires exists b :: b in borrows && Owed(b, market)
    requires GateWeight(borrows, market).Ok?
    ensures GateWeight(borrows, market).value > 0
  {
    hide WeightedDebt, Weighing, Owed;
    var debtOf := b => WeightedDebt(market, b);
    forall b | b in borrows && debtOf(b).Ok?
      ensures debtOf(b).value >= 0 && (Owed(b, market) ==> debtOf(b).value > 0)
    {
      WeightedDebtSign(market, b);
    }
    TotalPositive(borrows, debtOf, 0);
  }

  lemma {:induction false} TotalOfEqual<T>(items: seq<T>, value: T -> Result<int>, v: int, sum: int)
    requires forall x :: x in items ==> value(x) == Ok(v)
    requires v >= 0 && sum >= 0 && sum + |items| * v <= I128_MAX
    ensures Total(items, value, sum) == Ok(sum + |items| * v)
  {
    if items != [] {
      assert items[0] in items;
      assert |items| * v == (|items| - 1) * v + v;
      MulNonNegative(|items| - 1, v);
      TotalOfEqual(items[1..], value, v, sum + v);
    }
  }

  lemma {:induction false} AllUnderFloorEach(deposits: seq<DepositPosition>, market: MarketData, floor: int)
    requires forall d :: d in deposits ==> AllUnderFloor([d], market, floor) == Ok(true)
    ensures AllUnderFloor(deposits, market, floor) == Ok(true)
  {
    hide FindPool, SharesToTokensCeil, Quot, Clamp, Pow10;
    if deposits != [] {
      assert deposits[0] in deposits && [deposits[0]][1..] == [];
      AllUnderFloorEach(deposits[1..], market, floor);
    }
  }

  /** A deposit of plain collateral worth exactly the floor, in a pool that weighs whole. */
  lemma DepositAtFloor(market: MarketData, pool: PoolData, floor: int)
    requires Weighing(pool) && pool.totalJTokens <= I128_MAX && market.PoolOf(pool.poolAddress) == Some(pool)
    requires floor > 0 && WeighsWhole(pool, floor)
    ensures var d := DepositPosition(0, LeastWorth(pool, floor), pool.poolAddress);
            && HeldDeposit(d, market)
            && HoldsCollateral(market, d)
            && AllUnderFloor([d], market, floor) == Ok(true)
            && WeightedCollateral(market, d) == Ok(floor)
  {
    hide FindPool, Pow10, LeastWorth;
    var (price, factor, least) := (pool.oracleAssetPrice, Pow10(pool.tokenDecimals), LeastWorth(pool, floor));
    LeastIsPositive(pool, floor);
    MulLe(1, price, least);
    ProductIsValue(least, pool);
    NothingSupplied(pool);
    FixedMulFloorSpec(floor, BPS_FACTOR);
    assert [DepositPosition(0, least, pool.poolAddress)][1..] == [];
  }

  lemma LeastIsPositive(pool: PoolData, value: int)
    requires pool.oracleAssetPrice > 0 && value > 0 && ValueFloor(LeastWorth(pool, value), pool) == Ok(value)
    ensures 0 < LeastWorth(pool, value) && LeastWorth(pool, value) * pool.oracleAssetPrice <= I128_MAX
    ensures CheckedPow10(pool.tokenDecimals).Ok? && LeastWorth(pool, value) <= I128_MAX
  {
    hide Pow10;
    var (price, least) := (pool.oracleAssetPrice, LeastWorth(pool, value));
    CeilGalois(value * Pow10(pool.tokenDecimals), price, 0);
    MulLe(1, Pow10(pool.tokenDecimals), value);
    MulDivSpec(least, price, Pow10(pool.tokenDecimals));
    MulLe(1, price, least);
  }

  lemma NothingSupplied(pool: PoolData)
    requires 0 <= pool.totalJTokens <= I128_MAX
    ensures pool.JTokensToTokensCeil(0) == Ok(0)
    ensures FixedMulFloor(0, pool.jTokenRateFloorBps) == 0
  {
  }

  /** A deposit at the floor, in a pool of the given addresses. */
  predicate AtFloor(d: DepositPosition, market: MarketData, floor: int, pools: set<string>) {
    && d.poolAddress in pools
    && HeldDeposit(d, market)
    && HoldsCollateral(market, d)
    && AllUnderFloor([d], market, floor) == Ok(true)
    && WeightedCollateral(market, d) == Ok(floor)
  }

  /** Any number of distinct pools that weigh the floor whole hold as many deposits at the floor. */
  lemma {:induction false} DepositsAtFloor(market: MarketData, floor: int, pools: set<string>, n: nat) returns (deposits: seq<DepositPosition>)
    requires forall pool :: pool in market.poolsData ==> Weighing(pool) && pool.totalJTokens <= I128_MAX
    requires pools <= WholeAddresses(market, floor) && n <= |pools| && floor > 0
    ensures |deposits| == n && DistinctPools(deposits)
    ensures forall d :: d in deposits ==> AtFloor(d, market, floor, pools)
  {
    hide Weighing, WeighsWhole, AllUnderFloor, WeightedCollateral, HoldsCollateral, HeldDeposit, FindPool, LeastWorth;
    deposits := [];
    if n > 0 {
      var address :| address in pools;
      var pool := market.PoolOf(address).value;
      WholeIsFound(market, floor, address);
      DepositAtFloor(market, pool, floor);
      var rest := DepositsAtFloor(market, floor, pools - {address}, n - 1);
      assert forall d :: d in rest ==> d.poolAddress in pools - {address};
      deposits := [DepositPosition(0, LeastWorth(pool, floor), address)] + rest;
    }
  }

  lemma WholeIsFound(market: MarketData, floor: int, address: string)
    requires address in WholeAddresses(market, floor)
    ensures market.PoolOf(address).Some? && WeighsWhole(market.PoolOf(address).value, floor)
    ensures market.PoolOf(address).value.oracleAssetPrice > 0
  {
    hide FindPool;
  }

  /** Conversely, with a fractional floor, a debt for which the snapshot has enough pools weighing
      the floor whole does have deposits, one a pool, that make a small obligation the gate is shut
      to: as many at the floor as the debt weighs. */
  lemma FractionalFloorShutsTheGate(market: MarketData, floor: int, borrows: seq<BorrowPosition>) returns (deposits: seq<DepositPosition>)
    requires forall pool :: pool in market.poolsData ==> Weighing(pool) && pool.totalJTokens <= I128_MAX
    requires CentsToOracleValueCeil(market.minCollateralValueCents, market.oraclePriceDecimals) == Ok(floor)
    requires !WholeFloor(market)
    requires (forall b :: b in borrows ==> b.dTokens >= 0) && exists b :: b in borrows && Owed(b, market)
    requires GateWeight(borrows, market).Ok?
    requires GateWeight(borrows, market).value <= |WholeAddresses(market, floor)|
    requires GateWeight(borrows, market).value * floor <= I128_MAX
    ensures DistinctPools(deposits) && SmallAndOwing(Obligation(borrows, deposits, 0), market, floor)
    ensures IsLiquidatable(Obligation(borrows, deposits, 0), market, NoDust) == Ok(false)
  {
    hide WeightedDebt, WeightedCollateral, AllUnderFloor, CentsToOracleValueCeil, CentsToOracleValueFloor, WeighsWhole, WholeFloor,
         HoldsCollateral, HeldDeposit, Owed, FindPool, LeastWorth, GateWeight, WholeAddresses, Weighing;
    FloorRoundings(market);
    OwingWeighs(borrows, market);
    var debt, down := GateWeight(borrows, market).value, floor - 1;
    deposits := DepositsAtFloor(market, floor, WholeAddresses(market, floor), debt);
    AllUnderFloorEach(deposits, market, floor);
    assert deposits[0] in deposits;
    TotalOfEqual(deposits, d => WeightedCollateral(market, d), floor, 0);
    assert debt * floor - down * debt == debt;
    MulNonNegative(down, debt);
    ShutWhenBalanced(Obligation(borrows, deposits, 0), market, debt, debt * floor, down);
  }

  lemma ShutWhenBalanced(obligation: Obligation, market: MarketData, debt: int, collateral: int, down: int)
    requires HasAnyCollateral(obligation, market)
    requires CentsToOracleValueFloor(market.minCollateralValueCents, market.oraclePriceDecimals) == Ok(down)
    requires GateWeight(obligation.borrows, market) == Ok(debt)
    requires Total(obligation.deposits, d => WeightedCollateral(market, d), 0) == Ok(collateral)
    requires down * |obligation.deposits| >= 0 && 0 <= collateral <= I128_MAX && collateral - down * |obligation.deposits| == debt > 0
    ensures IsLiquidatable(obligation, market, NoDust) == Ok(false)
  {
    hide WeightedDebt, WeightedCollateral, HasAnyCollateral, CentsToOracleValueFloor, Total;
  }

  /** For given borrows, the gate can shut on a small obligation with one deposit a pool exactly when
      the floor is fractional and the pools of the snapshot that weigh it whole are at least as many
      as the debt weighs oracle units (so many floors fitting 128 bits). */
  lemma GateShutsIff(market: MarketData, floor: int, borrows: seq<BorrowPosition>)
    requires forall pool :: pool in market.poolsData ==> Weighing(pool) && pool.totalJTokens <= I128_MAX
    requires CentsToOracleValueCeil(market.minCollateralValueCents, market.oraclePriceDecimals) == Ok(floor)
    requires (forall b :: b in borrows ==> b.dTokens >= 0) && exists b :: b in borrows && Owed(b, market)
    ensures (exists deposits ::
               && DistinctPools(deposits)
               && SmallAndOwing(Obligation(borrows, deposits, 0), market, floor)
               && IsLiquidatable(Obligation(borrows, deposits, 0), market, NoDust) == Ok(false))
            <==>
            && !WholeFloor(market)
            && var debt := GateWeight(borrows, market);
            && debt.Ok?
            && debt.value <= |WholeAddresses(market, floor)| && debt.value * floor <= I128_MAX
  {
    hide SmallAndOwing, IsLiquidatable, WholeFloor, WholeAddresses, GateWeight, CentsToOracleValueCeil, Weighing, Owed, DistinctPools;
    if deposits :| && DistinctPools(deposits)
                   && SmallAndOwing(Obligation(borrows, deposits, 0), market, floor)
                   && IsLiquidatable(Obligation(borrows, deposits, 0), market, NoDust) == Ok(false) {
      ShutGateHasCause(market, floor, Obligation(borrows, deposits, 0));
    }
    var debt := GateWeight(borrows, market);
    if !WholeFloor(market) && debt.Ok? && debt.value <= |WholeAddresses(market, floor)| && debt.value * floor <= I128_MAX {
      var deposits := FractionalFloorShutsTheGate(market, floor, borrows);
    }
  }

  // ----- One such obligation

  /** A snapshot with a floor of one and a half units, unit prices and 100% close LTVs. */
  function FractionalMarket(): MarketData {
    var usdc := PoolData("U", "U", 0, 1, 9, 9, 9, 9, 0, 10_000, 10_000, 10_000, 10_000, 9_000, 5_000, 1_000, 5, 0, 0, 0, 0);
    MarketData(9_850, [usdc, usdc.(poolAddress := "G", tokenAddress := "G")], 0, 150)
  }

  /** One unit of debt against two of plain collateral. */
  function FractionalObligation(): Obligation {
    Obligation([BorrowPosition(1, "U")], [DepositPosition(0, 2, "G")], 0)
  }

  lemma FractionalPools()
    ensures var market := FractionalMarket();
            && market.PoolOf("U") == Some(market.poolsData[0]) && market.PoolOf("G") == Some(market.poolsData[1])
  {
    assert FractionalMarket().poolsData[1..] == [FractionalMarket().poolsData[1]];
  }

  /** A debt of one unit, and collateral of two weighed whole. */
  lemma FractionalPositions()
    ensures var (market, obligation) := (FractionalMarket(), FractionalObligation());
            && WeightedDebt(market, obligation.borrows[0]) == ExactDebtValue(market, obligation.borrows[0]) == Ok(1)
            && WeightedCollateral(market, obligation.deposits[0]) == SeizableValue(market, obligation.deposits[0]) == Ok(2)
            && HoldsCollateral(market, obligation.deposits[0]) && Owed(obligation.borrows[0], market)
  {
    hide FindPool;
    FractionalPools();
  }

  lemma FractionalSmall()
    ensures CentsToOracleValueCeil(150, 0) == Ok(2) && CentsToOracleValueFloor(150, 0) == Ok(1)
    ensures SmallAndOwing(FractionalObligation(), FractionalMarket(), 2)
  {
    hide FindPool, HoldsCollateral;
    FractionalPools();
    FractionalPositions();
    assert Owed(FractionalObligation().borrows[0], FractionalMarket());
    assert FractionalObligation().deposits[1..] == [];
  }

  /** Both strategies stand back from it: the initiator finds it ineligible, its collateral covering
      the debt, and the liquidator's gate is shut. Its collateral pool has a 100% close LTV. */
  lemma NobodyActsAtAFractionalFloor(now: nat)
    ensures FractionalMarket().PoolOf("G").Some? && FractionalMarket().PoolOf("G").value.closeLtvBps == BPS_FACTOR
    ensures !WholeFloor(FractionalMarket())
    ensures SmallAndOwing(FractionalObligation(), FractionalMarket(), 2)
    ensures IsEligibleForCover(NoDust, FractionalObligation(), FractionalMarket(), 0, now) == Ok(false)
    ensures IsLiquidatable(FractionalObligation(), FractionalMarket(), NoDust) == Ok(false)
  {
    hide FindPool, Total, WeightedDebt, WeightedCollateral, ExactDebtValue, SeizableValue, HoldsCollateral, AllUnderFloor,
         HasAcceptableLiquidation, CentsToOracleValueCeil, CentsToOracleValueFloor;
    var (market, obligation) := (FractionalMarket(), FractionalObligation());
    var borrow, deposit := obligation.borrows[0], obligation.deposits[0];
    FractionalPools();
    FractionalPositions();
    FractionalSmall();
    TotalOfOne(borrow, b => ExactDebtValue(market, b));
    TotalOfOne(borrow, b => WeightedDebt(market, b));
    TotalOfOne(deposit, d => SeizableValue(market, d));
    TotalOfOne(deposit, d => WeightedCollateral(market, d));
  }

  // ----- The gate, in the amounts themselves

  /** The floor a position is excused for, in oracle units, rounded down. */
  ghost predicate IsReserve(reserve: int, market: MarketData, positions: nat) {
    var scaled := market.minCollateralValueCents * Pow10(market.oraclePriceDecimals);
    exists floor :: Floors(floor, scaled, 100) && reserve == floor * positions
  }

  /** An obligation is liquidatable exactly when it holds collateral, and the debt, weighted by the
      liability factors, exceeds the collateral, weighted by the close LTVs, less the floor for every
      deposit. On a sweep market that floor must not exceed the weighted collateral. */
  lemma LiquidatableIff(obligation: Obligation, market: MarketData, rules: DustRules)
    requires market.minCollateralValueCents >= 0 && IsLiquidatable(obligation, market, rules).Ok?
    ensures IsLiquidatable(obligation, market, rules).value <==>
              && HasAnyCollateral(obligation, market)
              && GateWeight(obligation.borrows, market).Ok? && GateWeight(obligation.borrows, market).value != 0
              && var (debt, collateral) := (GateWeight(obligation.borrows, market).value, Total(obligation.deposits, d => WeightedCollateral(market, d), 0));
              && collateral.Ok?
              && exists reserve :: IsReserve(reserve, market, |obligation.deposits|)
                   && (rules.Sweep? ==> reserve <= collateral.value)
                   && debt > collateral.value - reserve
  {
    hide WeightedDebt, WeightedCollateral, HasAnyCollateral, Total, MulDiv, Pow10;
    if HasAnyCollateral(obligation, market) && GateWeight(obligation.borrows, market) != Ok(0) {
      var floor := CentsToOracleValueFloor(market.minCollateralValueCents, market.oraclePriceDecimals).value;
      MulDivFloors(market.minCollateralValueCents, Pow10(market.oraclePriceDecimals), 100);
      var scaled := market.minCollateralValueCents * Pow10(market.oraclePriceDecimals);
      forall other | Floors(other, scaled, 100)
        ensures other == floor
      {
      }
      assert IsReserve(floor * |obligation.deposits|, market, |obligation.deposits|);
    }
  }

  /** A borrow weighs its rated value times the liability factor, rounded up; one that is not priced
      weighs nothing. */
  lemma WeightedDebtExactly(market: MarketData, b: BorrowPosition)
    requires WeightedDebt(market, b).Ok?
    ensures market.PoolOf(b.poolAddress).None? ==> WeightedDebt(market, b).value == 0
    ensures market.PoolOf(b.poolAddress).Some? ==>
              && RateDebtValue(market, b).Ok?
              && var (value, factor) := (RateDebtValue(market, b).value, market.PoolOf(b.poolAddress).value.liabilityFactorBps);
              && (value >= 0 && factor >= 0 && value * factor + (BPS_FACTOR - 1) <= I128_MAX ==>
                    Ceils(WeightedDebt(market, b).value, value * factor, BPS_FACTOR))
  {
    hide FindPool, ValueCeil, FixedMulCeil;
    if market.PoolOf(b.poolAddress).Some? {
      var (value, factor) := (RateDebtValue(market, b).value, market.PoolOf(b.poolAddress).value.liabilityFactorBps);
      if value >= 0 && factor >= 0 && value * factor + (BPS_FACTOR - 1) <= I128_MAX {
        FixedMulCeils(value, factor);
      }
    }
  }

  /** A deposit weighs its rated value times the close LTV, rounded down; one that is not priced weighs
      nothing. */
  lemma WeightedCollateralExactly(market: MarketData, d: DepositPosition)
    requires WeightedCollateral(market, d).Ok?
    ensures market.PoolOf(d.poolAddress).None? ==> WeightedCollateral(market, d).value == 0
    ensures market.PoolOf(d.poolAddress).Some? ==>
              && RateCollateralValue(market, d).Ok?
              && var (value, ltv) := (RateCollateralValue(market, d).value, market.PoolOf(d.poolAddress).value.closeLtvBps);
              && (value >= 0 && ltv >= 0 && value * ltv <= I128_MAX ==> Floors(WeightedCollateral(market, d).value, value * ltv, BPS_FACTOR))
  {
    hide FindPool, ValueFloor, FixedMulFloor;
    if market.PoolOf(d.poolAddress).Some? {
      var (value, ltv) := (RateCollateralValue(market, d).value, market.PoolOf(d.poolAddress).value.closeLtvBps);
      if value >= 0 && ltv >= 0 && value * ltv <= I128_MAX {
        FixedMulFloors(value, ltv);
      }
    }
  }

  /** A deposit counts as collateral when it has plain collateral, or supply that its rate values at a
      token or more. */
  lemma HoldsCollateralIff(market: MarketData, d: DepositPosition)
    requires market.PoolOf(d.poolAddress).Some? && market.PoolOf(d.poolAddress).value.jTokenRateFloorBps >= 0
    requires d.jTokens >= 0 && d.collateral >= 0
    ensures HoldsCollateral(market, d) <==>
              d.collateral > 0 || d.jTokens * market.PoolOf(d.poolAddress).value.jTokenRateFloorBps >= BPS_FACTOR
  {
    hide FindPool;
    MulNonNegative(d.jTokens, market.PoolOf(d.poolAddress).value.jTokenRateFloorBps);
  }
}
