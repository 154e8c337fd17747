/** Monotonicity of the no-dust quote and the exact set of offers it accepts. */
module LiquidationLaws {
  import opened Arithmetic
  import opened Pool
  import opened Liquidation

  // ----- Monotonicity through the roundings

  lemma ValueFloorMonotone(a: int, b: int, pool: PoolData)
    requires 0 <= a <= b && pool.oracleAssetPrice > 0
    requires ValueFloor(b, pool).Ok?
    ensures ValueFloor(a, pool).Ok?
    ensures 0 <= ValueFloor(a, pool).value <= ValueFloor(b, pool).value
  {
    hide MulDiv;
    MulDivMonotone(a, b, pool.oracleAssetPrice, Pow10(pool.tokenDecimals));
  }

  lemma ValueCeilMonotone(a: int, b: int, pool: PoolData)
    requires 0 <= a <= b && pool.oracleAssetPrice > 0
    requires ValueCeil(b, pool).Ok?
    ensures ValueCeil(a, pool).Ok?
    ensures 0 <= ValueCeil(a, pool).value <= ValueCeil(b, pool).value
  {
    hide MulDivCeil;
    MulDivCeilMonotone(a, b, pool.oracleAssetPrice, Pow10(pool.tokenDecimals));
  }

  lemma AmountFloorMonotone(a: int, b: int, pool: PoolData)
    requires 0 <= a <= b && pool.oracleAssetPrice > 0
    requires AmountFloor(b, pool).Ok?
    ensures AmountFloor(a, pool).Ok?
    ensures 0 <= AmountFloor(a, pool).value <= AmountFloor(b, pool).value
  {
    hide MulDiv;
    MulDivMonotone(a, b, Pow10(pool.tokenDecimals), pool.oracleAssetPrice);
  }

  lemma BuysAtIncentiveMonotone(p: LiquidationPair, a: int, b: int)
    requires p.WellFormed() && 0 <= a <= b
    requires p.BuysAtIncentive(b).Ok?
    ensures p.BuysAtIncentive(a).Ok?
    ensures 0 <= p.BuysAtIncentive(a).value <= p.BuysAtIncentive(b).value
  {
    hide MulDiv, AmountFloor;
    AmountFloorMonotone(a, b, p.collateralPool);
    MulDivMonotone(AmountFloor(a, p.collateralPool).value, AmountFloor(b, p.collateralPool).value,
                   BPS_FACTOR + p.IncentiveBps(), BPS_FACTOR);
  }

  lemma LtvCapMonotone(p: LiquidationPair, a: int, b: int)
    requires p.WellFormed() && 0 <= a <= b
    requires p.LtvCap(b).Ok?
    ensures p.LtvCap(a).Ok?
    ensures 0 <= p.LtvCap(a).value <= p.LtvCap(b).value
  {
    hide MulDiv, AmountFloor;
    var (debt, collateral) := (p.obligationDebtValue, p.obligationCollateralValue);
    if debt > 0 && collateral > 0 {
      MulDivMonotone(a, b, collateral, debt);
      MulDivMonotone(MulDiv(a, collateral, debt).value, MulDiv(b, collateral, debt).value, 999, 1000);
      AmountFloorMonotone(MulDiv(MulDiv(a, collateral, debt).value, 999, 1000).value,
                          MulDiv(MulDiv(b, collateral, debt).value, 999, 1000).value,
                          p.collateralPool);
    }
  }

  /** A larger repay buys no less, and buying is defined below any repay where it is defined. */
  lemma BuysMonotone(p: LiquidationPair, a: int, b: int, lifted: bool)
    requires p.WellFormed() && 0 <= a <= b
    requires p.Buys(b, lifted).Ok?
    ensures p.Buys(a, lifted).Ok?
    ensures 0 <= p.Buys(a, lifted).value <= p.Buys(b, lifted).value
  {
    hide ValueFloor, LiquidationPair.BuysAtIncentive, LiquidationPair.LtvCap;
    ValueFloorMonotone(a, b, p.borrowPool);
    var (va, vb) := (ValueFloor(a, p.borrowPool).value, ValueFloor(b, p.borrowPool).value);
    BuysAtIncentiveMonotone(p, va, vb);
    if !lifted {
      LtvCapMonotone(p, va, vb);
    }
  }

  // ----- The verdict on one offer

  /** Repaying `repay` leaves both sides of the pair at or above the dust floor. */
  function KeepsBothSides(p: LiquidationPair, repay: int, debt: int, collateral: int, lifted: bool, floor: int): Result<bool> {
    var repaid := Min(repay, debt);
    var bought :- p.Buys(repaid, lifted);
    var collateralLeft := collateral - Min(collateral, bought);
    var debtLeft := debt - repaid;
    if collateralLeft <= 0 || debtLeft <= 0 then Ok(false)
    else
      var collateralValue :- ValueFloor(collateralLeft, p.collateralPool);
      if collateralValue < floor then Ok(false)
      else
        var debtValue :- ValueCeil(debtLeft, p.borrowPool);
        Ok(debtValue >= floor)
  }

  /** A no-dust pair with something on both sides, and what the market reads off it. */
  predicate Live(p: LiquidationPair, collateral: int, lifted: bool) {
    && p.WellFormed()
    && p.rules.NoDust?
    && p.positionDebt > 0
    && collateral > 0
    && p.PositionCollateral() == Ok(collateral)
    && p.LiftsCloseFactor() == Ok(lifted)
  }

  predicate Keeps(p: LiquidationPair, repay: int, collateral: int, lifted: bool) {
    && p.DustFloor().Ok?
    && KeepsBothSides(p, repay, p.positionDebt, collateral, lifted, p.DustFloor().value) == Ok(true)
  }

  /** The repay takes the whole collateral or pays the whole debt. */
  predicate Clears(p: LiquidationPair, repay: int, collateral: int, lifted: bool) {
    || repay >= p.positionDebt
    || (p.Buys(repay, lifted).Ok? && p.Buys(repay, lifted).value >= collateral)
  }

  /** Exactly which offers the market accepts: those within the close factor (when it binds)
      that either clear a side of the pair or keep both sides above the floor. */
  lemma Verdict(p: LiquidationPair, repay: int, collateral: int, lifted: bool)
    requires Live(p, collateral, lifted) && repay >= 1
    requires p.Quote(repay).Ok?
    ensures var over := p.ExceedsCloseFactor(Min(repay, p.positionDebt), lifted);
            && over.Ok?
            && (over.value <==> p.Quote(repay).value.OverCloseFactor?)
            && (p.Accepts(repay) <==>
                 !over.value && (Clears(p, repay, collateral, lifted) || Keeps(p, repay, collateral, lifted)))
    ensures p.Accepts(repay) && !Clears(p, repay, collateral, lifted) ==>
              p.Quote(repay).value == Accepted(p.Buys(repay, lifted).value, repay)
    ensures !p.Quote(repay).value.OverCloseFactor? && !Clears(p, repay, collateral, lifted) ==>
              && p.DustFloor().Ok?
              && KeepsBothSides(p, repay, p.positionDebt, collateral, lifted, p.DustFloor().value).Ok?
  {
    hide LiquidationPair.Buys, ValueFloor, ValueCeil, LiquidationPair.WholePositionRepay, LiquidationPair.DustFloor,
         LiquidationPair.PositionCollateral, LiquidationPair.LiftsCloseFactor, LiquidationPair.ExceedsCloseFactor,
         LiquidationPair.IsSmallPosition;
    var repaid := Min(repay, p.positionDebt);
    if p.Buys(repaid, lifted).Ok? {
      BuysMonotone(p, repaid, repaid, lifted);
    }
  }

  /** Keeping both sides is downward closed. */
  lemma KeepsDownward(p: LiquidationPair, fewer: int, repay: int, collateral: int, lifted: bool)
    requires Live(p, collateral, lifted) && 1 <= fewer <= repay
    requires Keeps(p, repay, collateral, lifted)
    requires KeepsBothSides(p, fewer, p.positionDebt, collateral, lifted, p.DustFloor().value).Ok?
    ensures Keeps(p, fewer, collateral, lifted)
    ensures repay < p.positionDebt && p.Buys(repay, lifted).value < collateral
  {
    hide LiquidationPair.Buys, ValueFloor, ValueCeil, LiquidationPair.DustFloor,
         LiquidationPair.PositionCollateral, LiquidationPair.LiftsCloseFactor;
    BuysMonotone(p, fewer, repay, lifted);
    var (few, many) := (p.Buys(fewer, lifted).value, p.Buys(repay, lifted).value);
    ValueFloorMonotone(collateral - many, collateral - few, p.collateralPool);
    ValueCeilMonotone(p.positionDebt - repay, p.positionDebt - fewer, p.borrowPool);
  }

  /** A repay of 1 that keeps both sides makes the test defined at every larger repay. */
  lemma KeepsDefinedAbove(p: LiquidationPair, repay: int, collateral: int, lifted: bool)
    requires Live(p, collateral, lifted) && repay >= 1
    requires Keeps(p, 1, collateral, lifted)
    requires p.Buys(Min(repay, p.positionDebt), lifted).Ok?
    ensures KeepsBothSides(p, repay, p.positionDebt, collateral, lifted, p.DustFloor().value).Ok?
  {
    hide LiquidationPair.Buys, ValueFloor, ValueCeil, LiquidationPair.DustFloor,
         LiquidationPair.PositionCollateral, LiquidationPair.LiftsCloseFactor;
    var repaid := Min(repay, p.positionDebt);
    BuysMonotone(p, 1, repaid, lifted);
    var (few, many) := (p.Buys(1, lifted).value, p.Buys(repaid, lifted).value);
    if many < collateral && repaid < p.positionDebt {
      ValueFloorMonotone(collateral - many, collateral - few, p.collateralPool);
      ValueCeilMonotone(p.positionDebt - repaid, p.positionDebt - 1, p.borrowPool);
    }
  }
}
