/** What a quote is worth: no accepted offer pays out more than the incentive allows, LTV never
    worsens, the planner's caps agree with the market's checks, and sweeps keep their floor. */
module ValueTheorems {
  import opened Arithmetic
  import opened Liquidation
  import opened LiquidationLaws
  import opened SizingTheorems

  // ----- Exact values behind the roundings

  /** Two bounds in a row: z * w <= x * c and x * y <= a * b give z * w * y <= a * b * c. */
  lemma RatioChain(x: int, y: int, a: int, b: int, z: int, w: int, c: int)
    requires x * y <= a * b
    requires z * w <= x * c
    requires y >= 0 && c >= 0
    ensures z * (w * y) <= a * (b * c)
  {
    MulLe(z * w, x * c, y);
    MulLe(x * y, a * b, c);
    assert z * w * y == z * (w * y);
    assert x * c * y == x * y * c;
    assert a * b * c == a * (b * c);
  }

  /** What a pair's tokens are worth, over a common denominator: an amount of borrow tokens is
      worth `amount * BorrowUnit / (borrow factor * collateral factor)`, collateral likewise. */
  function BorrowUnit(p: LiquidationPair): int {
    p.borrowPool.oracleAssetPrice * Pow10(p.collateralPool.tokenDecimals)
  }

  function CollateralUnit(p: LiquidationPair): int {
    p.collateralPool.oracleAssetPrice * Pow10(p.borrowPool.tokenDecimals)
  }

  /** Seized collateral is worth at most the repaid debt and the incentive on it. */
  predicate WithinIncentive(p: LiquidationPair, seized: int, repaid: int) {
    seized * CollateralUnit(p) * BPS_FACTOR <= repaid * BorrowUnit(p) * (BPS_FACTOR + p.IncentiveBps())
  }

  lemma IncentiveWithinValue(p: LiquidationPair, repaidValue: int)
    requires p.WellFormed() && repaidValue >= 0 && p.BuysAtIncentive(repaidValue).Ok?
    ensures p.BuysAtIncentive(repaidValue).value >= 0
    ensures p.BuysAtIncentive(repaidValue).value * BPS_FACTOR * p.collateralPool.oracleAssetPrice
         <= repaidValue * Pow10(p.collateralPool.tokenDecimals) * (BPS_FACTOR + p.IncentiveBps())
  {
    hide MulDiv;
    var (price, factor, incentive) := (p.collateralPool.oracleAssetPrice, Pow10(p.collateralPool.tokenDecimals), BPS_FACTOR + p.IncentiveBps());
    MulDivSpec(repaidValue, factor, price);
    var amount := AmountFloor(repaidValue, p.collateralPool).value;
    MulDivSpec(amount, incentive, BPS_FACTOR);
    var bought := MulDiv(amount, incentive, BPS_FACTOR).value;
    RatioChain(amount, price, repaidValue, factor, bought, BPS_FACTOR, incentive);
    assert bought * BPS_FACTOR * price == bought * (BPS_FACTOR * price);
    assert repaidValue * factor * incentive == repaidValue * (factor * incentive);
  }

  /** Collateral bought before the position caps it is within the incentive. */
  lemma BuysWithinIncentive(p: LiquidationPair, repaid: int, lifted: bool)
    requires p.WellFormed() && repaid >= 0 && p.Buys(repaid, lifted).Ok?
    ensures p.Buys(repaid, lifted).value >= 0
    ensures WithinIncentive(p, p.Buys(repaid, lifted).value, repaid)
  {
    hide MulDiv, LiquidationPair.BuysAtIncentive, LiquidationPair.LtvCap;
    var borrowFactor := Pow10(p.borrowPool.tokenDecimals);
    MulDivSpec(repaid, p.borrowPool.oracleAssetPrice, borrowFactor);
    var value := ValueFloor(repaid, p.borrowPool).value;
    IncentiveWithinValue(p, value);
    if !lifted {
      LtvCapMonotone(p, value, value);
    }
    var bought := p.BuysAtIncentive(value).value;
    var collateralFactor, incentive := Pow10(p.collateralPool.tokenDecimals), BPS_FACTOR + p.IncentiveBps();
    ExactWorth(bought, p.collateralPool.oracleAssetPrice, borrowFactor, value, collateralFactor, incentive, repaid, p.borrowPool.oracleAssetPrice);
    SmallerWithin(p, p.Buys(repaid, lifted).value, bought, repaid);
  }

  lemma ExactWorth(bought: int, cp: int, bf: int, value: int, cf: int, incentive: int, repaid: int, bp: int)
    requires bought * BPS_FACTOR * cp <= value * cf * incentive
    requires value * bf <= repaid * bp
    requires bf >= 0 && cf >= 0 && incentive >= 0
    ensures bought * (cp * bf) * BPS_FACTOR <= repaid * (bp * cf) * incentive
  {
    MulLe(bought * BPS_FACTOR * cp, value * cf * incentive, bf);
    assert bought * BPS_FACTOR * cp * bf == bought * (cp * bf) * BPS_FACTOR;
    MulNonNegative(cf, incentive);
    MulLe(value * bf, repaid * bp, cf * incentive);
    assert value * cf * incentive * bf == value * bf * (cf * incentive);
    assert repaid * (bp * cf) * incentive == repaid * bp * (cf * incentive);
  }

  lemma SmallerWithin(p: LiquidationPair, fewer: int, seized: int, repaid: int)
    requires p.WellFormed() && fewer <= seized && WithinIncentive(p, seized, repaid)
    ensures WithinIncentive(p, fewer, repaid)
  {
    MulNonNegative(p.collateralPool.oracleAssetPrice, Pow10(p.borrowPool.tokenDecimals));
    MulLe(fewer, seized, CollateralUnit(p));
  }

  /** The price of a whole small position covers it at the incentive. */
  lemma WholePositionCoversCollateral(p: LiquidationPair, collateral: int)
    requires p.WellFormed() && collateral >= 0 && p.WholePositionRepay(collateral).Ok?
    ensures p.WholePositionRepay(collateral).value >= 0
    ensures WithinIncentive(p, collateral, p.WholePositionRepay(collateral).value)
  {
    hide MulDivCeil;
    var (bp, cp) := (p.borrowPool.oracleAssetPrice, p.collateralPool.oracleAssetPrice);
    var (bf, cf, incentive) := (Pow10(p.borrowPool.tokenDecimals), Pow10(p.collateralPool.tokenDecimals), BPS_FACTOR + p.IncentiveBps());
    MulDivCeilSpec(collateral, cp, cf);
    var worth := ValueCeil(collateral, p.collateralPool).value;
    MulDivCeilSpec(worth, BPS_FACTOR, incentive);
    var value := MulDivCeil(worth, BPS_FACTOR, incentive).value;
    MulDivCeilSpec(value, bf, bp);
    var whole := p.WholePositionRepay(collateral).value;
    // collateral * cp <= worth * cf, worth * BPS <= value * incentive, value * bf <= whole * bp
    RatioChain(worth, BPS_FACTOR, value, incentive, collateral, cp, cf);
    CoverChain(collateral, cp, value, incentive, cf, bf, whole, bp);
  }

  lemma CoverChain(collateral: int, cp: int, value: int, incentive: int, cf: int, bf: int, whole: int, bp: int)
    requires collateral * (cp * BPS_FACTOR) <= value * (incentive * cf)
    requires value * bf <= whole * bp
    requires bf >= 0 && incentive >= 0 && cf >= 0
    ensures collateral * (cp * bf) * BPS_FACTOR <= whole * (bp * cf) * incentive
  {
    MulLe(collateral * (cp * BPS_FACTOR), value * (incentive * cf), bf);
    assert collateral * (cp * BPS_FACTOR) * bf == collateral * (cp * bf) * BPS_FACTOR;
    MulNonNegative(incentive, cf);
    MulLe(value * bf, whole * bp, incentive * cf);
    assert value * (incentive * cf) * bf == value * bf * (incentive * cf);
    assert whole * (bp * cf) * incentive == whole * bp * (incentive * cf);
  }

  /** No accepted no-dust quote overpays: it stays within the position, the debt and the offer,
      and what it seizes is worth at most what it repays and the incentive, refunds included. */
  lemma NoOverpay(p: LiquidationPair, offer: int)
    requires p.WellFormed() && p.rules.NoDust? && p.Accepts(offer)
    ensures var Accepted(seized, repaid) := p.Quote(offer).value;
            && p.PositionCollateral().Ok?
            && 0 <= seized <= p.PositionCollateral().value
            && 0 <= repaid <= Min(Max(offer, 0), p.positionDebt)
            && WithinIncentive(p, seized, repaid)
            && seized * CollateralUnit(p) * BPS_FACTOR
                 <= repaid * BorrowUnit(p) * (BPS_FACTOR + p.borrowPool.maxLiquidationIncentiveBps)
            && seized * CollateralUnit(p) * BPS_FACTOR
                 <= repaid * BorrowUnit(p) * (BPS_FACTOR + p.collateralPool.maxLiquidationIncentiveBps)
  {
    hide LiquidationPair.Quote, LiquidationPair.PositionCollateral, LiquidationPair.WellFormed, WithinIncentive, CollateralUnit, BorrowUnit;
    AcceptedWithinIncentive(p, offer);
    WithinEachPoolsIncentive(p, p.Quote(offer).value.seized, p.Quote(offer).value.repaid);
  }

  lemma WithinEachPoolsIncentive(p: LiquidationPair, seized: int, repaid: int)
    requires p.WellFormed() && repaid >= 0 && WithinIncentive(p, seized, repaid)
    ensures seized * CollateralUnit(p) * BPS_FACTOR <= repaid * BorrowUnit(p) * (BPS_FACTOR + p.borrowPool.maxLiquidationIncentiveBps)
    ensures seized * CollateralUnit(p) * BPS_FACTOR <= repaid * BorrowUnit(p) * (BPS_FACTOR + p.collateralPool.maxLiquidationIncentiveBps)
  {
    hide CollateralUnit;
    MulNonNegative(p.borrowPool.oracleAssetPrice, Pow10(p.collateralPool.tokenDecimals));
    MulNonNegative(repaid, BorrowUnit(p));
    var (paid, incentive) := (repaid * BorrowUnit(p), BPS_FACTOR + p.IncentiveBps());
    MulLe(incentive, BPS_FACTOR + p.borrowPool.maxLiquidationIncentiveBps, paid);
    MulLe(incentive, BPS_FACTOR + p.collateralPool.maxLiquidationIncentiveBps, paid);
  }

  lemma AcceptedWithinIncentive(p: LiquidationPair, offer: int)
    requires p.WellFormed() && p.rules.NoDust? && p.Accepts(offer)
    ensures var Accepted(seized, repaid) := p.Quote(offer).value;
            && p.PositionCollateral().Ok?
            && 0 <= seized <= p.PositionCollateral().value
            && 0 <= repaid <= Min(Max(offer, 0), p.positionDebt)
            && WithinIncentive(p, seized, repaid)
  {
    hide LiquidationPair.Buys, LiquidationPair.LiftsCloseFactor, LiquidationPair.ExceedsCloseFactor,
         LiquidationPair.IsSmallPosition, LiquidationPair.SuppliedTokens, LiquidationPair.LeavesDustBehind,
         LiquidationPair.WholePositionRepay, WithinIncentive;
    var Accepted(seized, repaid) := p.Quote(offer).value;
    SuppliedNonNegative(p);
    var collateral := p.PositionCollateral().value;
    if p.Idle(offer, collateral) {
      assert WithinIncentive(p, 0, 0) by { NothingWithinIncentive(p); }
    } else {
      var lifted := p.LiftsCloseFactor().value;
      var paid := Min(offer, p.positionDebt);
      BuysWithinIncentive(p, paid, lifted);
      SmallerWithin(p, seized, p.Buys(paid, lifted).value, paid);
      if repaid != paid {
        WholePositionCoversCollateral(p, collateral);
      } else if p.WholePositionRepay(collateral).Ok? {
        WholePositionCoversCollateral(p, collateral);
      }
    }
  }

  /** What an accepted offer leaves: nothing on one side, or both sides at or above the floor.
      The market keeps less than the offer and the debt only when it sells a small position whole. */
  lemma AcceptedLeavesNoDust(p: LiquidationPair, offer: int, collateral: int, lifted: bool)
    requires Live(p, collateral, lifted) && offer >= 1 && p.Accepts(offer)
    ensures var Accepted(seized, repaid) := p.Quote(offer).value;
            && (|| seized == collateral
                || repaid == p.positionDebt
                || (&& p.DustFloor().Ok?
                    && ValueFloor(collateral - seized, p.collateralPool).Ok?
                    && ValueCeil(p.positionDebt - repaid, p.borrowPool).Ok?
                    && ValueFloor(collateral - seized, p.collateralPool).value >= p.DustFloor().value
                    && ValueCeil(p.positionDebt - repaid, p.borrowPool).value >= p.DustFloor().value))
            && (repaid < Min(offer, p.positionDebt) ==> seized == collateral && p.IsSmallPosition() == Ok(true))
  {
    hide LiquidationPair.Buys, LiquidationPair.LiftsCloseFactor, LiquidationPair.ExceedsCloseFactor,
         LiquidationPair.IsSmallPosition, LiquidationPair.PositionCollateral, LiquidationPair.DustFloor, ValueFloor, ValueCeil,
         LiquidationPair.WholePositionRepay;
    AcceptedWithinIncentive(p, offer);
    var small := p.IsSmallPosition();
    assert small.Ok? ==> small == Ok(small.value);
  }

  lemma NothingWithinIncentive(p: LiquidationPair)
    ensures WithinIncentive(p, 0, 0)
  {
  }

  /** While the LTV cap binds, what is seized takes at most 99.9% of its share of the obligation's
      collateral: seized / collateral value <= 0.999 * repaid / debt value, so LTV never worsens. */
  lemma LtvNeverWorsens(p: LiquidationPair, offer: int)
    requires p.WellFormed() && p.rules.NoDust? && p.Accepts(offer)
    requires p.LiftsCloseFactor() == Ok(false)
    requires p.obligationDebtValue >= 0 && p.obligationCollateralValue >= 0
    ensures var Accepted(seized, repaid) := p.Quote(offer).value;
            seized * CollateralUnit(p) * (p.obligationDebtValue * 1000)
              <= repaid * BorrowUnit(p) * (p.obligationCollateralValue * 999)
  {
    hide LiquidationPair.Buys, LiquidationPair.ExceedsCloseFactor, LiquidationPair.IsSmallPosition,
         LiquidationPair.SuppliedTokens, LiquidationPair.LeavesDustBehind, LiquidationPair.WholePositionRepay,
         CollateralUnit, BorrowUnit;
    var Accepted(seized, repaid) := p.Quote(offer).value;
    SuppliedNonNegative(p);
    if !p.Idle(offer, p.PositionCollateral().value) {
      BoundBySmallness(p, offer);
      CapWithinLtv(p, repaid);
      SmallerSideLe(p, seized, p.Buys(repaid, false).value, repaid);
    }
  }

  /** A pair that is not lifted is not small, so nothing is refunded. */
  lemma BoundBySmallness(p: LiquidationPair, offer: int)
    requires p.WellFormed() && p.rules.NoDust? && p.Accepts(offer)
    requires p.LiftsCloseFactor() == Ok(false)
    requires p.PositionCollateral().Ok? && !p.Idle(offer, p.PositionCollateral().value)
    ensures var Accepted(seized, repaid) := p.Quote(offer).value;
            && repaid == Min(offer, p.positionDebt)
            && p.Buys(repaid, false).Ok?
            && seized == Min(p.PositionCollateral().value, p.Buys(repaid, false).value)
  {
    hide LiquidationPair.Buys, LiquidationPair.ExceedsCloseFactor, LiquidationPair.IsSmallPosition,
         LiquidationPair.SuppliedTokens, LiquidationPair.LeavesDustBehind, LiquidationPair.WholePositionRepay;
  }

  lemma SmallerSideLe(p: LiquidationPair, fewer: int, seized: int, repaid: int)
    requires p.WellFormed() && fewer <= seized && p.obligationDebtValue >= 0
    requires seized * CollateralUnit(p) * (p.obligationDebtValue * 1000)
          <= repaid * BorrowUnit(p) * (p.obligationCollateralValue * 999)
    ensures fewer * CollateralUnit(p) * (p.obligationDebtValue * 1000)
         <= repaid * BorrowUnit(p) * (p.obligationCollateralValue * 999)
  {
    MulNonNegative(p.collateralPool.oracleAssetPrice, Pow10(p.borrowPool.tokenDecimals));
    MulLe(fewer, seized, CollateralUnit(p));
    MulLe(fewer * CollateralUnit(p), seized * CollateralUnit(p), p.obligationDebtValue * 1000);
  }

  lemma CapWithinLtv(p: LiquidationPair, repaid: int)
    requires p.WellFormed() && repaid >= 0 && p.Buys(repaid, false).Ok?
    requires p.obligationDebtValue >= 0 && p.obligationCollateralValue >= 0
    ensures p.Buys(repaid, false).value * CollateralUnit(p) * (p.obligationDebtValue * 1000)
         <= repaid * BorrowUnit(p) * (p.obligationCollateralValue * 999)
  {
    hide MulDiv, LiquidationPair.BuysAtIncentive;
    var (bp, cp) := (p.borrowPool.oracleAssetPrice, p.collateralPool.oracleAssetPrice);
    var (bf, cf) := (Pow10(p.borrowPool.tokenDecimals), Pow10(p.collateralPool.tokenDecimals));
    var (debt, held) := (p.obligationDebtValue, p.obligationCollateralValue);
    MulDivSpec(repaid, bp, bf);
    var value := ValueFloor(repaid, p.borrowPool).value;
    BuysMonotone(p, repaid, repaid, false);
    if debt > 0 && held > 0 {
      MulDivSpec(value, held, debt);
      var share := MulDiv(value, held, debt).value;
      MulDivSpec(share, 999, 1000);
      var strict := MulDiv(share, 999, 1000).value;
      MulDivSpec(strict, cf, cp);
      var cap := p.LtvCap(value).value;
      LtvChain(cap, cp, strict, cf, share, value, held, debt, bf, repaid, bp);
      SmallerSideLe(p, p.Buys(repaid, false).value, cap, repaid);
    } else {
      ZeroCapFits(p, repaid, value);
    }
  }

  lemma ZeroCapFits(p: LiquidationPair, repaid: int, value: int)
    requires p.WellFormed() && repaid >= 0
    requires ValueFloor(repaid, p.borrowPool) == Ok(value) && value >= 0 && p.Buys(repaid, false).Ok?
    requires p.obligationDebtValue >= 0 && p.obligationCollateralValue >= 0
    requires p.obligationDebtValue == 0 || p.obligationCollateralValue == 0
    ensures p.Buys(repaid, false).value * CollateralUnit(p) * (p.obligationDebtValue * 1000)
         <= repaid * BorrowUnit(p) * (p.obligationCollateralValue * 999)
  {
    hide MulDiv, LiquidationPair.BuysAtIncentive, ValueFloor;
    BuysAtIncentiveMonotone(p, value, value);
    assert p.Buys(repaid, false).value == 0;
    MulNonNegative(p.borrowPool.oracleAssetPrice, Pow10(p.collateralPool.tokenDecimals));
    MulNonNegative(repaid, BorrowUnit(p));
    MulNonNegative(repaid * BorrowUnit(p), p.obligationCollateralValue * 999);
  }

  lemma LtvChain(cap: int, cp: int, strict: int, cf: int, share: int, value: int, held: int, debt: int, bf: int, repaid: int, bp: int)
    requires cap * cp <= strict * cf
    requires strict * 1000 <= share * 999
    requires share * debt <= value * held
    requires value * bf <= repaid * bp
    requires cf >= 0 && debt >= 0 && held >= 0 && bf >= 0
    ensures cap * (cp * bf) * (debt * 1000) <= repaid * (bp * cf) * (held * 999)
  {
    RatioChain(share, debt, value, held, strict, 1000, 999);  // strict * (1000 * debt) <= value * (held * 999)
    RatioChain(strict, 1000 * debt, value, held * 999, cap, cp, cf);  // cap * (cp * (1000 * debt)) <= value * (held * 999 * cf)
    MulLe(cap * (cp * (1000 * debt)), value * (held * 999 * cf), bf);
    MulNonNegative(held * 999, cf);
    MulLe(value * bf, repaid * bp, held * 999 * cf);
    assert cap * (cp * bf) * (debt * 1000) == cap * (cp * (1000 * debt)) * bf;
    assert value * (held * 999 * cf) * bf == value * bf * (held * 999 * cf);
    assert repaid * (bp * cf) * (held * 999) == repaid * bp * (held * 999 * cf);
  }
}
