/** What the no-dust quote and the padding of a clearing offer come to, exactly, in terms of the
    amounts that go in and out. */
module QuoteTheorems {
  import opened Arithmetic
  import opened Liquidation
  import opened LiquidationLaws
  import opened RepaySizing
  import opened SizingTheorems

  // ----- Small positions

  /** Either side of the pair is worth less than twice the floor. */
  predicate SmallSide(p: LiquidationPair, collateral: int) {
    && p.DustFloor().Ok?
    && ValueFloor(collateral, p.collateralPool).Ok?
    && (|| ValueFloor(collateral, p.collateralPool).value < 2 * p.DustFloor().value
        || (ValueCeil(p.positionDebt, p.borrowPool).Ok? && ValueCeil(p.positionDebt, p.borrowPool).value < 2 * p.DustFloor().value))
  }

  /** The dust floor is the market's cents in whole oracle units. */
  lemma FloorOfCents(p: LiquidationPair)
    requires p.minCollateralValueCents >= 0 && p.DustFloor().Ok?
    ensures Floors(p.DustFloor().value, p.minCollateralValueCents * Pow10(p.oraclePriceDecimals), 100)
  {
    hide MulDiv;
    MulDivSpec(p.minCollateralValueCents, Pow10(p.oraclePriceDecimals), 100);
  }

  lemma SmallMeansSmallSide(p: LiquidationPair, collateral: int)
    requires p.PositionCollateral() == Ok(collateral) && p.IsSmallPosition().Ok?
    ensures p.IsSmallPosition().value <==> SmallSide(p, collateral)
  {
    hide ValueFloor, ValueCeil, LiquidationPair.DustFloor, LiquidationPair.PositionCollateral;
  }

  /** The close factor and the LTV cap are lifted for an insolvent obligation and, on a no-dust
      market, for a pair with a small side. */
  lemma LiftedIff(p: LiquidationPair, collateral: int)
    requires p.PositionCollateral() == Ok(collateral) && p.LiftsCloseFactor().Ok?
    ensures p.LiftsCloseFactor().value <==> p.isInsolvent || (p.rules.NoDust? && SmallSide(p, collateral))
  {
    hide SmallSide, LiquidationPair.IsSmallPosition, LiquidationPair.PositionCollateral;
    if p.IsSmallPosition().Ok? {
      SmallMeansSmallSide(p, collateral);
    }
  }

  // ----- What a repay buys

  /** The collateral `bought` for `repaid` at the incentive, through the values in between. */
  predicate AtIncentive(p: LiquidationPair, repaid: int, value: int, amount: int, bought: int) {
    && Floors(value, repaid * p.borrowPool.oracleAssetPrice, Pow10(p.borrowPool.tokenDecimals))
    && Floors(amount, value * Pow10(p.collateralPool.tokenDecimals), p.collateralPool.oracleAssetPrice)
    && Floors(bought, amount * (BPS_FACTOR + p.IncentiveBps()), BPS_FACTOR)
  }

  /** The collateral `cap` whose value is 99.9% of the repaid value's share of the obligation's. */
  predicate AtLtvCap(p: LiquidationPair, value: int, share: int, strict: int, cap: int) {
    && Floors(share, value * p.obligationCollateralValue, p.obligationDebtValue)
    && Floors(strict, share * 999, 1000)
    && Floors(cap, strict * Pow10(p.collateralPool.tokenDecimals), p.collateralPool.oracleAssetPrice)
  }

  lemma IncentiveExactly(p: LiquidationPair, repaid: int) returns (amount: int)
    requires p.WellFormed() && repaid >= 0
    requires ValueFloor(repaid, p.borrowPool).Ok? && p.BuysAtIncentive(ValueFloor(repaid, p.borrowPool).value).Ok?
    ensures var value := ValueFloor(repaid, p.borrowPool).value;
            AtIncentive(p, repaid, value, amount, p.BuysAtIncentive(value).value)
  {
    hide MulDiv, Floors;
    MulDivFloors(repaid, p.borrowPool.oracleAssetPrice, Pow10(p.borrowPool.tokenDecimals));
    var value := ValueFloor(repaid, p.borrowPool).value;
    amount := AmountFloor(value, p.collateralPool).value;
    MulDivFloors(value, Pow10(p.collateralPool.tokenDecimals), p.collateralPool.oracleAssetPrice);
    MulDivFloors(amount, BPS_FACTOR + p.IncentiveBps(), BPS_FACTOR);
  }

  /** A lifted repay buys its value's collateral and the incentive on it; otherwise the LTV cap
      bounds that, and nothing is bought against an obligation without debt or collateral. */
  lemma BuysExactly(p: LiquidationPair, repaid: int, lifted: bool) returns (value: int, amount: int, bought: int, share: int, strict: int, cap: int)
    requires p.WellFormed() && repaid >= 0 && p.Buys(repaid, lifted).Ok?
    ensures AtIncentive(p, repaid, value, amount, bought)
    ensures lifted ==> p.Buys(repaid, lifted).value == bought
    ensures !lifted && p.obligationDebtValue > 0 && p.obligationCollateralValue > 0 ==>
              AtLtvCap(p, value, share, strict, cap) && p.Buys(repaid, lifted).value == Min(bought, cap)
    ensures !lifted && (p.obligationDebtValue <= 0 || p.obligationCollateralValue <= 0) ==> p.Buys(repaid, lifted).value == 0
  {
    hide MulDiv, Floors;
    var (cp, cf) := (p.collateralPool.oracleAssetPrice, Pow10(p.collateralPool.tokenDecimals));
    value := ValueFloor(repaid, p.borrowPool).value;
    MulDivFloors(repaid, p.borrowPool.oracleAssetPrice, Pow10(p.borrowPool.tokenDecimals));
    bought := p.BuysAtIncentive(value).value;
    amount := IncentiveExactly(p, repaid);
    BuysAtIncentiveMonotone(p, value, value);
    share, strict, cap := 0, 0, 0;
    if !lifted && p.obligationDebtValue > 0 && p.obligationCollateralValue > 0 {
      share := MulDiv(value, p.obligationCollateralValue, p.obligationDebtValue).value;
      MulDivFloors(value, p.obligationCollateralValue, p.obligationDebtValue);
      strict := MulDiv(share, 999, 1000).value;
      MulDivFloors(share, 999, 1000);
      cap := AmountFloor(strict, p.collateralPool).value;
      MulDivFloors(strict, cf, cp);
    }
  }

  // ----- What an accepted offer takes and keeps

  /** At the incentive, `repaid` carries the whole collateral. */
  predicate PaysForAll(p: LiquidationPair, collateral: int, repaid: int) {
    && ValueFloor(repaid, p.borrowPool).Ok? && ValueCeil(collateral, p.collateralPool).Ok?
    && ValueFloor(repaid, p.borrowPool).value * (BPS_FACTOR + p.IncentiveBps()) >= ValueCeil(collateral, p.collateralPool).value * BPS_FACTOR
  }

  /** The price of the whole position is the least repay that pays for it. */
  lemma WholePositionIsLeast(p: LiquidationPair, collateral: int, x: int)
    requires p.WellFormed() && collateral >= 0 && p.WholePositionRepay(collateral).Ok?
    requires x >= 0 && ValueFloor(x, p.borrowPool).Ok?
    ensures p.WholePositionRepay(collateral).value <= x <==> PaysForAll(p, collateral, x)
  {
    hide MulDiv, MulDivCeil;
    var (bp, bf, incentive) := (p.borrowPool.oracleAssetPrice, Pow10(p.borrowPool.tokenDecimals), BPS_FACTOR + p.IncentiveBps());
    MulDivCeilSpec(collateral, p.collateralPool.oracleAssetPrice, Pow10(p.collateralPool.tokenDecimals));
    var worth := ValueCeil(collateral, p.collateralPool).value;
    MulDivCeilSpec(worth, BPS_FACTOR, incentive);
    var value := MulDivCeil(worth, BPS_FACTOR, incentive).value;
    MulDivCeilSpec(value, bf, bp);
    MulDivSpec(x, bp, bf);
    var got := ValueFloor(x, p.borrowPool).value;
    CeilGalois(value * bf, bp, x);           // whole <= x  <==>  value * bf <= x * bp
    FloorGalois(x * bp, bf, value);          //             <==>  value <= got
    CeilGalois(worth * BPS_FACTOR, incentive, got);  //     <==>  worth * BPS <= got * incentive
  }

  /** What an accepted offer takes and keeps, exactly. It takes what the repay buys, up to the
      position. It keeps the whole repay, except for a small position sold whole: of that it keeps the
      least part that pays for the position, and refunds the rest. */
  lemma AcceptedExactly(p: LiquidationPair, offer: int, collateral: int, lifted: bool)
    requires Live(p, collateral, lifted) && offer >= 1 && p.Accepts(offer)
    ensures var (paid, Accepted(seized, repaid)) := (Min(offer, p.positionDebt), p.Quote(offer).value);
            && p.Buys(paid, lifted).Ok?
            && seized == Min(collateral, p.Buys(paid, lifted).value)
            && 0 <= repaid <= paid
            && (seized != collateral || !SmallSide(p, collateral) ==> repaid == paid)
            && (seized == collateral && SmallSide(p, collateral) ==>
                  && (forall x :: 0 <= x < repaid ==> !PaysForAll(p, collateral, x))
                  && (repaid < paid ==> PaysForAll(p, collateral, repaid)))
  {
    hide LiquidationPair.Buys, LiquidationPair.LiftsCloseFactor, LiquidationPair.ExceedsCloseFactor, LiquidationPair.IsSmallPosition,
         LiquidationPair.PositionCollateral, LiquidationPair.LeavesDustBehind, LiquidationPair.WholePositionRepay, PaysForAll, SmallSide,
         ValueFloor;
    var (paid, Accepted(seized, repaid)) := (Min(offer, p.positionDebt), p.Quote(offer).value);
    if seized == collateral {
      SmallMeansSmallSide(p, collateral);
      if p.IsSmallPosition().value {
        PaidHasValue(p, paid, lifted);
        PriceIsNonNegative(p, collateral);
        forall x | 0 <= x <= paid
          ensures p.WholePositionRepay(collateral).value <= x <==> PaysForAll(p, collateral, x)
        {
          ValueFloorMonotone(x, paid, p.borrowPool);
          WholePositionIsLeast(p, collateral, x);
        }
      }
    }
  }

  lemma PaidHasValue(p: LiquidationPair, paid: int, lifted: bool)
    requires p.Buys(paid, lifted).Ok?
    ensures ValueFloor(paid, p.borrowPool).Ok?
  {
    hide ValueFloor;
  }

  lemma PriceIsNonNegative(p: LiquidationPair, collateral: int)
    requires p.WellFormed() && collateral >= 0 && p.WholePositionRepay(collateral).Ok?
    ensures p.WholePositionRepay(collateral).value >= 0
  {
    hide MulDivCeil;
    MulDivCeilSpec(collateral, p.collateralPool.oracleAssetPrice, Pow10(p.collateralPool.tokenDecimals));
    var worth := ValueCeil(collateral, p.collateralPool).value;
    MulDivCeilSpec(worth, BPS_FACTOR, BPS_FACTOR + p.IncentiveBps());
    MulDivCeilSpec(MulDivCeil(worth, BPS_FACTOR, BPS_FACTOR + p.IncentiveBps()).value, Pow10(p.borrowPool.tokenDecimals), p.borrowPool.oracleAssetPrice);
  }

  // ----- Which margin a clearing offer gets

  /** `padded` is `amount` and the least addition that makes up `bps` of it, short of saturation. */
  predicate PaddedBy(amount: int, bps: int, padded: int) {
    amount * bps + (BPS_FACTOR - 1) <= I128_MAX ==>
      amount * bps <= (padded - amount) * BPS_FACTOR < amount * bps + BPS_FACTOR
  }

  lemma GrownIsPadded(amount: int, bps: int)
    requires amount >= 0 && bps >= 0 && Grown(amount, bps).Ok?
    ensures PaddedBy(amount, bps, Grown(amount, bps).value)
  {
    hide FixedMulCeil;
    FixedMulCeilSpec(amount, bps);
    var added := FixedMulCeil(amount, bps);
    CeilGalois(amount * bps, BPS_FACTOR, added);
    CeilGalois(amount * bps, BPS_FACTOR, added - 1);
    assert (added - 1) * BPS_FACTOR == added * BPS_FACTOR - BPS_FACTOR;
  }

  /** `repay` is the least, up to `debt`, that buys the target. */
  predicate LeastThatBuys(p: LiquidationPair, lifted: bool, target: int, debt: int, repay: int) {
    && 1 <= repay <= debt
    && p.Buys(repay, lifted).Ok? && p.Buys(repay, lifted).value >= target
    && forall x :: 1 <= x < repay ==> p.Buys(x, lifted).Ok? && p.Buys(x, lifted).value < target
  }

  /** The clearing offer, exactly. Debt and supply grow by their accrual estimates; the offer pads the
      least repay that buys the grown collateral, or the grown debt where that falls short. It gets
      the margin for refunded excess where the market refunds: past the debt, or past the collateral of
      a pair with a small side; and the other margin otherwise. */
  lemma ClearingOfferExactly(p: LiquidationPair, collateral: int, lifted: bool)
    returns (grownDebt: int, grownSupply: int, repay: int)
    requires Live(p, collateral, lifted)
    requires ClearingOf(p).Ok?
    ensures ClearingOf(p).value.Some? && p.SuppliedTokens().Ok?
    ensures PaddedBy(p.positionDebt, p.debtAccrualBps, grownDebt)
    ensures PaddedBy(p.SuppliedTokens().value, p.supplyAccrualBps, grownSupply)
    ensures p.Buys(grownDebt, lifted).Ok?
    ensures var target := p.deposit.collateral + grownSupply;
            var buysAll := p.Buys(grownDebt, lifted).value >= target;
            && (if buysAll then LeastThatBuys(p, lifted, target, grownDebt, repay) else repay == grownDebt)
            && PaddedBy(repay, if buysAll && !SmallSide(p, collateral) then p.margin.unrefundedBps else p.margin.refundedBps,
                        ClearingOf(p).value.value.offer)
  {
    hide LiquidationPair.Buys, LiquidationPair.LiftsCloseFactor, LiquidationPair.IsSmallPosition, LiquidationPair.SuppliedTokens,
         FixedMulCeil, SmallSide, PaddedBy;
    ClearingDefined(p);
    SuppliedNonNegative(p);
    GrowthOnlyAdds(p);
    grownDebt, grownSupply := Grown(p.positionDebt, p.debtAccrualBps).value, Grown(p.SuppliedTokens().value, p.supplyAccrualBps).value;
    GrownIsPadded(p.positionDebt, p.debtAccrualBps);
    GrownIsPadded(p.SuppliedTokens().value, p.supplyAccrualBps);
    var target := GrownCollateral(p).value;
    repay := grownDebt;
    if p.Buys(grownDebt, lifted).value >= target {
      LeastBuyingIsLeast(p, lifted, target, 1, grownDebt);
      repay := LeastBuying(p, lifted, target, 1, grownDebt);
      SmallMeansSmallSide(p, collateral);
      GrownIsPadded(repay, if SmallSide(p, collateral) then p.margin.refundedBps else p.margin.unrefundedBps);
    } else {
      GrownIsPadded(repay, p.margin.refundedBps);
    }
  }

  // ----- The sweep quote

  /** The LTV cap of a sweep market, through a health factor scaled by 1e9. */
  predicate AtTwoStepCap(p: LiquidationPair, value: int, health: int, maxValue: int, strict: int, cap: int) {
    && Floors(health, p.obligationCollateralValue * SCALAR_9, p.obligationDebtValue)
    && Floors(maxValue, value * health, SCALAR_9)
    && Floors(strict, maxValue * 999, 1000)
    && Floors(cap, strict * Pow10(p.collateralPool.tokenDecimals), p.collateralPool.oracleAssetPrice)
  }

  lemma SweepCapExactly(p: LiquidationPair, value: int) returns (health: int, maxValue: int, strict: int)
    requires p.WellFormed() && value >= 0 && p.obligationDebtValue > 0 && p.obligationCollateralValue > 0
    requires p.SweepLtvCap(value).Ok?
    ensures AtTwoStepCap(p, value, health, maxValue, strict, p.SweepLtvCap(value).value)
  {
    hide MulDiv, Floors;
    health := MulDiv(p.obligationCollateralValue, SCALAR_9, p.obligationDebtValue).value;
    MulDivFloors(p.obligationCollateralValue, SCALAR_9, p.obligationDebtValue);
    maxValue := MulDiv(value, health, SCALAR_9).value;
    MulDivFloors(value, health, SCALAR_9);
    strict := MulDiv(maxValue, 999, 1000).value;
    MulDivFloors(maxValue, 999, 1000);
    MulDivFloors(strict, Pow10(p.collateralPool.tokenDecimals), p.collateralPool.oracleAssetPrice);
  }

  /** What a sweep market does, exactly. It keeps the whole repay and hands out what that buys, bounded
      by the position and on a solvent obligation by the LTV cap; or the whole position, where what
      that leaves is worth less than the floor. */
  lemma SweepExactly(p: LiquidationPair, repay: int)
    returns (value: int, amount: int, bought: int, health: int, maxValue: int, strict: int, cap: int)
    requires p.WellFormed() && p.rules.Sweep? && repay > 0 && p.Quote(repay).Ok?
    requires p.SweepPosition().Ok? && p.SweepPosition().value > 0
    ensures AtIncentive(p, repay, value, amount, bought)
    ensures var (position, Accepted(seized, repaid)) := (p.SweepPosition().value, p.Quote(repay).value);
            var capped := !p.isInsolvent;
            && repaid == repay
            && (capped && (p.obligationDebtValue <= 0 || p.obligationCollateralValue <= 0) ==> seized == 0)
            && (!capped || (p.obligationDebtValue > 0 && p.obligationCollateralValue > 0) ==>
                  && (capped ==> AtTwoStepCap(p, value, health, maxValue, strict, cap))
                  && var wanted := Min(position, if capped then Min(bought, cap) else bought);
                  && p.DustFloor().Ok? && ValueFloor(position - wanted, p.collateralPool).Ok?
                  && seized == if ValueFloor(position - wanted, p.collateralPool).value < p.DustFloor().value then position else wanted)
  {
    hide LiquidationPair.Buys, LiquidationPair.SweepLtvCap, LiquidationPair.BuysAtIncentive, AtTwoStepCap, AtIncentive, LiquidationPair.DustFloor,
         ValueFloor, LiquidationPair.SweepPosition;
    value := ValueFloor(repay, p.borrowPool).value;
    bought := p.BuysAtIncentive(value).value;
    amount := IncentiveExactly(p, repay);
    ValueFloorMonotone(repay, repay, p.borrowPool);
    health, maxValue, strict, cap := 0, 0, 0, 0;
    if !p.isInsolvent && p.obligationDebtValue > 0 && p.obligationCollateralValue > 0 {
      cap := p.SweepLtvCap(value).value;
      health, maxValue, strict := SweepCapExactly(p, value);
      TwoStepCapNonNegative(p, value, health, maxValue, strict, cap);
    }
    BuysAtIncentiveMonotone(p, value, value);
  }

  lemma TwoStepCapNonNegative(p: LiquidationPair, value: int, health: int, maxValue: int, strict: int, cap: int)
    requires p.WellFormed() && value >= 0 && p.obligationDebtValue > 0 && p.obligationCollateralValue > 0
    requires AtTwoStepCap(p, value, health, maxValue, strict, cap)
    ensures cap >= 0
  {
    FloorsNonNegative(health, p.obligationCollateralValue * SCALAR_9, p.obligationDebtValue);
    MulNonNegative(value, health);
    FloorsNonNegative(maxValue, value * health, SCALAR_9);
    FloorsNonNegative(strict, maxValue * 999, 1000);
    MulNonNegative(strict, Pow10(p.collateralPool.tokenDecimals));
    FloorsNonNegative(cap, strict * Pow10(p.collateralPool.tokenDecimals), p.collateralPool.oracleAssetPrice);
  }

  lemma FloorsNonNegative(q: int, n: int, d: int)
    requires n >= 0 && d > 0 && Floors(q, n, d)
    ensures q >= 0
  {
    if q < 0 {
      MulLe(q + 1, 0, d);
    }
  }

  /** What a sweep market counts as the position: supply at the rounded-down rate, and plain collateral. */
  lemma SweepPositionExactly(p: LiquidationPair)
    requires p.deposit.jTokens >= 0 && p.collateralPool.jTokenRateFloorBps >= 0
    requires p.deposit.jTokens * p.collateralPool.jTokenRateFloorBps <= I128_MAX && p.SweepPosition().Ok?
    ensures Floors(p.SweepPosition().value - p.deposit.collateral, p.deposit.jTokens * p.collateralPool.jTokenRateFloorBps, BPS_FACTOR)
  {
    FixedMulFloors(p.deposit.jTokens, p.collateralPool.jTokenRateFloorBps);
  }

  /** An offer of nothing, or against nothing, moves nothing in either market. */
  lemma IdleOffersMoveNothing(p: LiquidationPair, repay: int)
    requires || repay <= 0 || p.collateralPool.oracleAssetPrice <= 0
             || (p.rules.NoDust? && (p.positionDebt <= 0 || p.borrowPool.oracleAssetPrice <= 0))
             || (p.rules.NoDust? && p.PositionCollateral().Ok? && p.PositionCollateral().value <= 0)
             || (p.rules.Sweep? && p.SweepPosition().Ok? && p.SweepPosition().value <= 0)
    requires p.rules.NoDust? ==> p.PositionCollateral().Ok?
    ensures p.Quote(repay) == Ok(Accepted(0, if p.rules.Sweep? then repay else 0))
  {
  }
}
