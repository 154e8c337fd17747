/** How a market judges a liquidation offer, as the keeper mirrors it. */
module Liquidation {
  import opened Arithmetic
  import opened Pool
  import opened Market

  const SCALAR_9 := 1_000_000_000

  datatype DustRules = Sweep | NoDust

  /** The basis points added to a clearing offer, where the excess comes back and where it does not. */
  datatype ClearingMargin = ClearingMargin(refundedBps: int, unrefundedBps: int)

  const INITIAL_MARGIN := ClearingMargin(100, 0)
  const RETRY_MARGIN := ClearingMargin(500, 100)

  datatype Seizure =
    | Accepted(seized: int, repaid: int)
    | OverCloseFactor
    | LeavesDust

  /** The least repay taking the whole of a side of the snapshot pair, with its padded offer. */
  datatype Clearing = Clearing(atSnapshot: int, offer: int)

  // ----- Values and amounts

  function TokenFactor(pool: PoolData): Result<int> {
    CheckedPow10(pool.tokenDecimals)
  }

  function ValueFloor(amount: int, pool: PoolData): Result<int> {
    var factor :- TokenFactor(pool);
    MulDiv(amount, pool.oracleAssetPrice, factor)
  }

  function ValueCeil(amount: int, pool: PoolData): Result<int> {
    var factor :- TokenFactor(pool);
    MulDivCeil(amount, pool.oracleAssetPrice, factor)
  }

  function AmountFloor(value: int, pool: PoolData): Result<int> {
    var factor :- TokenFactor(pool);
    MulDiv(value, factor, pool.oracleAssetPrice)
  }

  function AmountCeil(value: int, pool: PoolData): Result<int> {
    var factor :- TokenFactor(pool);
    MulDivCeil(value, factor, pool.oracleAssetPrice)
  }

  function CloseFactorRepayCap(isLifted: bool, positionDebt: int, closeFactorBps: int): int {
    if isLifted then positionDebt else FixedMulFloor(positionDebt, closeFactorBps)
  }

  /** An amount grown by `bps`, rounded up. */
  function Grown(amount: int, bps: int): Result<int> {
    Checked(amount + FixedMulCeil(amount, bps))
  }

  function CentsToOracleValueFloor(cents: int, oraclePriceDecimals: nat): Result<int> {
    var factor :- CheckedPow10(oraclePriceDecimals);
    MulDiv(cents, factor, 100)
  }

  /** A borrow position set against a deposit of the same obligation, in one snapshot. */
  datatype LiquidationPair = LiquidationPair(
    rules: DustRules,
    borrowPool: PoolData,
    collateralPool: PoolData,
    deposit: DepositPosition,
    positionDebt: int,
    obligationDebtValue: int,
    obligationCollateralValue: int,
    isInsolvent: bool,
    minCollateralValueCents: int,
    oraclePriceDecimals: nat,
    debtAccrualBps: int,
    supplyAccrualBps: int,
    margin: ClearingMargin)
  {
    function AccruingUntil(now: nat): LiquidationPair {
      this.(debtAccrualBps := borrowPool.AccrualSinceUpdateBps(now).0,
            supplyAccrualBps := collateralPool.AccrualSinceUpdateBps(now).1)
    }

    function WithMargin(m: ClearingMargin): LiquidationPair {
      this.(margin := m)
    }

    function IncentiveBps(): int {
      Min(borrowPool.maxLiquidationIncentiveBps, collateralPool.maxLiquidationIncentiveBps)
    }

    function DustFloor(): Result<int> {
      CentsToOracleValueFloor(minCollateralValueCents, oraclePriceDecimals)
    }

    function SuppliedTokens(): Result<int> {
      collateralPool.JTokensToTokensFloor(deposit.jTokens)
    }

    function PositionCollateral(): Result<int> {
      var supplied :- SuppliedTokens();
      Checked(supplied + deposit.collateral)
    }

    function IsSmallPosition(): Result<bool> {
      var floor :- DustFloor();
      var small :- Checked(floor * 2);
      var collateral :- PositionCollateral();
      var collateralValue :- ValueFloor(collateral, collateralPool);
      if collateralValue < small then Ok(true)
      else
        var debtValue :- ValueCeil(positionDebt, borrowPool);
        Ok(debtValue < small)
    }

    function LiftsCloseFactor(): Result<bool> {
      if isInsolvent then Ok(true)
      else if rules.NoDust? then IsSmallPosition()
      else Ok(false)
    }

    /** The seizure an uncapped position would allow: the incentive on the repaid value, bounded by the
        LTV cap unless that is lifted. */
    function Buys(repaid: int, lifted: bool): Result<int> {
      var repaidValue :- ValueFloor(repaid, borrowPool);
      var withIncentive :- BuysAtIncentive(repaidValue);
      if lifted then Ok(withIncentive)
      else
        var cap :- LtvCap(repaidValue);
        Ok(Min(withIncentive, cap))
    }

    function BuysAtIncentive(repaidValue: int): Result<int> {
      var amount :- AmountFloor(repaidValue, collateralPool);
      var factor :- Checked(BPS_FACTOR + IncentiveBps());
      MulDiv(amount, factor, BPS_FACTOR)
    }

    /** The collateral whose seizure still improves the obligation's LTV. */
    function LtvCap(repaidValue: int): Result<int> {
      if obligationDebtValue <= 0 || obligationCollateralValue <= 0 then Ok(0)
      else
        var proportional :- MulDiv(repaidValue, obligationCollateralValue, obligationDebtValue);
        var strict :- MulDiv(proportional, 999, 1000);
        AmountFloor(strict, collateralPool)
    }

    /** The least repay whose value carries the whole position at the incentive. */
    function WholePositionRepay(collateral: int): Result<int> {
      var factor :- Checked(BPS_FACTOR + IncentiveBps());
      var collateralValue :- ValueCeil(collateral, collateralPool);
      var value :- MulDivCeil(collateralValue, BPS_FACTOR, factor);
      AmountCeil(value, borrowPool)
    }

    function LeavesDustBehind(collateralLeft: int, debtLeft: int): Result<bool> {
      if collateralLeft <= 0 || debtLeft <= 0 then Ok(false)
      else
        var floor :- DustFloor();
        var collateralValue :- ValueFloor(collateralLeft, collateralPool);
        if collateralValue < floor then Ok(true)
        else
          var debtValue :- ValueCeil(debtLeft, borrowPool);
          Ok(debtValue < floor)
    }

    function ExceedsCloseFactor(repaid: int, lifted: bool): Result<bool> {
      if lifted then Ok(false)
      else
        var repaidBps :- MulDivCeil(repaid, BPS_FACTOR, positionDebt);
        Ok(repaidBps > borrowPool.liquidationCloseFactorBps)
    }

    /** The debt actually repaid: a small position sold whole refunds the excess. */
    function AfterRefund(seized: int, collateral: int, repaid: int): Result<int> {
      if seized != collateral then Ok(repaid)
      else
        var small :- IsSmallPosition();
        if !small then Ok(repaid)
        else
          var whole :- WholePositionRepay(collateral);
          Ok(Min(repaid, whole))
    }

    /** The offer meets neither the debt, the collateral nor the prices a market can act on. */
    predicate Idle(repay: int, collateral: int) {
      || repay <= 0
      || positionDebt <= 0
      || collateral <= 0
      || borrowPool.oracleAssetPrice <= 0
      || collateralPool.oracleAssetPrice <= 0
    }

    function QuoteNoDust(repay: int): Result<Seizure> {
      var collateral :- PositionCollateral();
      if Idle(repay, collateral) then Ok(Accepted(0, 0))
      else
        var lifted :- LiftsCloseFactor();
        var repaid := Min(repay, positionDebt);
        var over :- ExceedsCloseFactor(repaid, lifted);
        if over then Ok(OverCloseFactor)
        else
          var bought :- Buys(repaid, lifted);
          var seized := Min(collateral, bought);
          var kept :- AfterRefund(seized, collateral, repaid);
          var dust :- LeavesDustBehind(collateral - seized, positionDebt - kept);
          Ok(if dust then LeavesDust else Accepted(seized, kept))
    }

    /** What a sweep market hands out for `repay`. */
    function QuoteSweep(repay: int): Result<int> {
      if repay <= 0 || collateralPool.oracleAssetPrice <= 0 then Ok(0)
      else
        var position :- SweepPosition();
        if position <= 0 then Ok(0)
        else
          var repaidValue :- ValueFloor(repay, borrowPool);
          var withIncentive :- BuysAtIncentive(repaidValue);
          if !isInsolvent && (obligationDebtValue <= 0 || obligationCollateralValue <= 0) then Ok(0)
          else
            var cap :- if isInsolvent then Ok(withIncentive) else SweepLtvCap(repaidValue);
            var seized := Min(Min(position, withIncentive), cap);
            var left :- Checked(position - seized);
            var valueLeft :- ValueFloor(left, collateralPool);
            var floor :- DustFloor();
            Ok(Max(if valueLeft < floor then position else seized, 0))
    }

    /** A sweep market values supplied shares through the rounded rate. */
    function SweepPosition(): Result<int> {
      Checked(FixedMulFloor(deposit.jTokens, collateralPool.jTokenRateFloorBps) + deposit.collateral)
    }

    /** The LTV cap in two steps, through a health factor scaled by 1e9. */
    function SweepLtvCap(repaidValue: int): Result<int> {
      var maxValue :- TwoStepValue(repaidValue);
      var strict :- MulDiv(maxValue, 999, 1000);
      AmountFloor(strict, collateralPool)
    }

    function TwoStepValue(repaidValue: int): Result<int> {
      var healthFactor :- MulDiv(obligationCollateralValue, SCALAR_9, obligationDebtValue);
      MulDiv(repaidValue, healthFactor, SCALAR_9)
    }

    function Quote(repay: int): Result<Seizure> {
      match rules
      case Sweep =>
        var seized :- QuoteSweep(repay);
        Ok(Accepted(seized, repay))
      case NoDust => QuoteNoDust(repay)
    }

    predicate Accepts(offer: int) {
      Quote(offer).Ok? && Quote(offer).value.Accepted?
    }

    /** Non-negative amounts, totals, margins and accruals; positive prices; no negative incentive. */
    predicate WellFormed() {
      && borrowPool.oracleAssetPrice > 0
      && collateralPool.oracleAssetPrice > 0
      && IncentiveBps() >= 0
      && collateralPool.totalSupply >= 0
      && collateralPool.totalJTokens >= 0
      && deposit.jTokens >= 0
      && deposit.collateral >= 0
      && positionDebt >= 0
      && debtAccrualBps >= 0
      && supplyAccrualBps >= 0
      && margin.refundedBps >= 0
      && margin.unrefundedBps >= 0
    }
  }
}
