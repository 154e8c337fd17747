/** Profit margins, collateral-bound repay caps and flash-loan fees. */
module Profitability {
  import opened Arithmetic
  import opened Pool

  datatype LiquidationProfitability = LiquidationProfitability(netValue: int, gainValue: int, isAcceptable: bool)

  function FlashFee(amount: int, flashLoanFeeBps: int): Result<int> {
    MulDivCeil(amount, flashLoanFeeBps, BPS_FACTOR)
  }

  function CentsToOracleValueCeil(cents: int, oraclePriceDecimals: nat): Result<int> {
    if cents < 0 then Err(InternalError)
    else
      var multiplier :- CheckedPow10(oraclePriceDecimals);
      MulDivCeil(cents, multiplier, 100)
  }

  function ValueToUnderlyingCeil(value: int, oracleAssetPrice: int, tokenDecimals: nat): Result<int> {
    if value < 0 || oracleAssetPrice <= 0 then Err(InternalError)
    else
      var multiplier :- CheckedPow10(tokenDecimals);
      MulDivCeil(value, multiplier, oracleAssetPrice)
  }

  /** The signed profit margin in borrow tokens; a negative margin is a bounded loss budget. */
  function ProfitMarginInBorrowToken(minProfitMarginCents: int, oraclePriceDecimals: nat, borrowPool: PoolData): Result<int> {
    if borrowPool.oracleAssetPrice <= 0 then Err(InternalError)
    else if minProfitMarginCents == 0 then Ok(0)
    else
      var magnitudeCents :- Checked(if minProfitMarginCents < 0 then -minProfitMarginCents else minProfitMarginCents);
      var marginValue :- CentsToOracleValueCeil(magnitudeCents, oraclePriceDecimals);
      var magnitude :- ValueToUnderlyingCeil(marginValue, borrowPool.oracleAssetPrice, borrowPool.tokenDecimals);
      if minProfitMarginCents < 0 then Checked(-magnitude) else Ok(magnitude)
  }

  function RepayCapFromCollateral(
    isSolvent: bool,
    borrowPool: PoolData,
    maxFeasibleRepay: int,
    collateralPool: PoolData,
    availableCollateral: int,
    obligationDebtValue: int,
    profitMarginBorrowTokens: int,
    obligationCollateralValue: int): (r: Result<int>)
    ensures r.Ok? ==> r.value <= maxFeasibleRepay
    ensures r.Ok? ==> availableCollateral > 0 && borrowPool.oracleAssetPrice > 0 && collateralPool.oracleAssetPrice > 0
  {
    var (borrowPrice, collateralPrice) := (borrowPool.oracleAssetPrice, collateralPool.oracleAssetPrice);
    if availableCollateral <= 0 || borrowPrice <= 0 || collateralPrice <= 0 then Err(InternalError)
    else
      var poolIncentive := Min(borrowPool.maxLiquidationIncentiveBps, collateralPool.maxLiquidationIncentiveBps);
      var incentive :- EffectiveIncentive(isSolvent, poolIncentive, obligationDebtValue, obligationCollateralValue);
      var incentiveFactor :- Checked(BPS_FACTOR + incentive);
      if incentiveFactor <= 0 then Err(InternalError)
      else
        var borrowFactor :- CheckedPow10(borrowPool.tokenDecimals);
        var collateralFactor :- CheckedPow10(collateralPool.tokenDecimals);
        var collateralValue :- MulDiv(availableCollateral, collateralPrice, collateralFactor);
        var numerator :- Checked(collateralValue * borrowFactor);
        var denominator :- MulDiv(borrowPrice, incentiveFactor, BPS_FACTOR);
        var maxRepay :- CheckedDiv(numerator, denominator);
        Ok(Min(maxFeasibleRepay, Clamp(maxRepay - profitMarginBorrowTokens)))
  }

  /** The pool incentive, bounded on a solvent obligation by the LTV-improving multiplier. */
  function EffectiveIncentive(isSolvent: bool, poolIncentive: int, debtValue: int, collateralValue: int): Result<int> {
    if isSolvent then
      var multiplier :- MulDiv(collateralValue, 9990, debtValue);
      Ok(Min(poolIncentive, Clamp(multiplier - 10_000)))
    else Ok(poolIncentive)
  }

  function LiquidationProfit(gainValue: int, costValue: int, minProfitMarginValue: int): (r: Result<LiquidationProfitability>)
    ensures r.Ok? ==> gainValue > 0 && costValue > 0 && r.value.netValue == gainValue - costValue
    ensures r.Ok? ==> (r.value.isAcceptable <==> gainValue - costValue > minProfitMarginValue)
  {
    if gainValue <= 0 || costValue <= 0 then Err(InternalError)
    else
      var netValue :- Checked(gainValue - costValue);
      Ok(LiquidationProfitability(netValue, gainValue, netValue > minProfitMarginValue))
  }
}
