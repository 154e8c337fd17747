/** What the profit arithmetic of the planner and the initiator means, in the amounts themselves. */
module ProfitTheorems {
  import opened Arithmetic
  import opened Pool
  import opened Market
  import opened Profitability
  import opened Liquidation
  import opened RepaySizing
  import opened Insolvency
  import opened BadDebt
  import opened Planner
  import opened PlannerTheorems

  // ----- Values, margins and fees

  /** A value with saturating intermediates is the floor value wherever that can be computed. */
  lemma SaturatingExactly(amount: int, pool: PoolData)
    requires amount >= 0 && pool.oracleAssetPrice > 0 && ValueFloor(amount, pool).Ok?
    ensures SaturatingValue(amount, pool) == ValueFloor(amount, pool).value
    ensures Floors(SaturatingValue(amount, pool), amount * pool.oracleAssetPrice, Pow10(pool.tokenDecimals))
  {
    MulDivFloors(amount, pool.oracleAssetPrice, Pow10(pool.tokenDecimals));
    MulNonNegative(amount, pool.oracleAssetPrice);
    hide Pow10;
    QuotFloors(amount * pool.oracleAssetPrice, Pow10(pool.tokenDecimals));
  }

  /** The minimum margin is that many cents in oracle units, rounded toward zero. */
  lemma MinMarginExactly(cents: int, oraclePriceDecimals: nat)
    requires Fits(Pow10(oraclePriceDecimals)) && Fits(cents * Pow10(oraclePriceDecimals))
    ensures var margin := MinProfitMarginValue(cents, oraclePriceDecimals);
            && (cents >= 0 ==> Floors(margin, cents * Pow10(oraclePriceDecimals), 100))
            && (cents < 0 ==> Floors(-margin, -cents * Pow10(oraclePriceDecimals), 100))
  {
    hide Pow10;
    var scaled := cents * Pow10(oraclePriceDecimals);
    if cents >= 0 {
      MulNonNegative(cents, Pow10(oraclePriceDecimals));
      QuotFloors(scaled, 100);
    } else {
      assert -scaled == -cents * Pow10(oraclePriceDecimals);
      MulNonNegative(-cents, Pow10(oraclePriceDecimals));
      QuotFloors(-scaled, 100);
    }
  }

  lemma FlashFeeExactly(amount: int, feeBps: int)
    requires amount >= 0 && feeBps >= 0 && FlashFee(amount, feeBps).Ok?
    ensures Ceils(FlashFee(amount, feeBps).value, amount * feeBps, BPS_FACTOR)
  {
    MulDivCeils(amount, feeBps, BPS_FACTOR);
  }

  /** The margin in borrow tokens is the fewest tokens worth at least the margin's cents, themselves
      rounded up to oracle units. A negative margin is a loss budget of that size. */
  lemma ProfitMarginExactly(cents: int, oraclePriceDecimals: nat, pool: PoolData) returns (value: int)
    requires ProfitMarginInBorrowToken(cents, oraclePriceDecimals, pool).Ok?
    ensures pool.oracleAssetPrice > 0
    ensures var (margin, size) := (ProfitMarginInBorrowToken(cents, oraclePriceDecimals, pool).value, if cents < 0 then -cents else cents);
            && Ceils(value, size * Pow10(oraclePriceDecimals), 100)
            && Ceils(if cents < 0 then -margin else margin, value * Pow10(pool.tokenDecimals), pool.oracleAssetPrice)
  {
    hide MulDivCeil;
    value := 0;
    if cents != 0 {
      var size := if cents < 0 then -cents else cents;
      MulDivCeils(size, Pow10(oraclePriceDecimals), 100);
      value := CentsToOracleValueCeil(size, oraclePriceDecimals).value;
      MulDivCeils(value, Pow10(pool.tokenDecimals), pool.oracleAssetPrice);
    }
  }

  /** The margin is computed exactly when the pool is priced and, for a margin other than nothing, no
      step of the conversion leaves 128 bits. */
  lemma ProfitMarginDefinedIff(cents: int, oraclePriceDecimals: nat, pool: PoolData)
    ensures var size := if cents < 0 then -cents else cents;
            ProfitMarginInBorrowToken(cents, oraclePriceDecimals, pool).Ok? <==>
              && pool.oracleAssetPrice > 0
              && (cents != 0 ==>
                    && Fits(size) && Fits(Pow10(oraclePriceDecimals)) && Fits(Pow10(pool.tokenDecimals))
                    && size * Pow10(oraclePriceDecimals) + 99 <= I128_MAX
                    && exists value :: Ceils(value, size * Pow10(oraclePriceDecimals), 100)
                         && value * Pow10(pool.tokenDecimals) + (pool.oracleAssetPrice - 1) <= I128_MAX)
  {
    hide MulDivCeil, Pow10;
    var (size, oracle, factor) := (if cents < 0 then -cents else cents, Pow10(oraclePriceDecimals), Pow10(pool.tokenDecimals));
    if cents != 0 && pool.oracleAssetPrice > 0 {
      MulDivCeilSpec(size, oracle, 100);
      if MulDivCeil(size, oracle, 100).Ok? {
        var value := MulDivCeil(size, oracle, 100).value;
        MulDivCeils(size, oracle, 100);
        MulDivCeilSpec(value, factor, pool.oracleAssetPrice);
        if MulDivCeil(value, factor, pool.oracleAssetPrice).Ok? {
          MulDivCeilFits(value, factor, pool.oracleAssetPrice);
        }
      }
    }
  }

  lemma MulDivCeilFits(a: int, k: int, d: int)
    requires a >= 0 && k >= 0 && d > 0 && MulDivCeil(a, k, d).Ok?
    ensures 0 <= MulDivCeil(a, k, d).value <= I128_MAX
  {
    MulNonNegative(a, k);
    QuotientAtMost(a * k + (d - 1), d);
  }

  // ----- The repay cap

  /** The effective incentive is the largest within the pools' that, on a solvent obligation, still
      takes at most 99.9% of the collateral's share. */
  lemma EffectiveIncentiveIff(isSolvent: bool, poolIncentive: int, debtValue: int, collateralValue: int, x: int)
    requires debtValue > 0 && collateralValue >= 0
    requires EffectiveIncentive(isSolvent, poolIncentive, debtValue, collateralValue).Ok?
    ensures x <= EffectiveIncentive(isSolvent, poolIncentive, debtValue, collateralValue).value <==>
              x <= poolIncentive && (isSolvent ==> (BPS_FACTOR + x) * debtValue <= collateralValue * 9990)
  {
    hide MulDiv;
    if isSolvent {
      MulDivSpec(collateralValue, 9990, debtValue);
      FloorGalois(collateralValue * 9990, debtValue, BPS_FACTOR + x);
    }
  }

  /** The value backing a borrow token is its price and the effective incentive on it. */
  lemma BackingExactly(p: LiquidationPair, lifted: bool)
    requires p.borrowPool.oracleAssetPrice > 0 && BackingPrice(p, lifted).Ok?
    requires BPS_FACTOR + EffectiveIncentive(!lifted, p.IncentiveBps(), p.obligationDebtValue, p.obligationCollateralValue).value >= 0
    ensures Floors(BackingPrice(p, lifted).value,
                   p.borrowPool.oracleAssetPrice *
                     (BPS_FACTOR + EffectiveIncentive(!lifted, p.IncentiveBps(), p.obligationDebtValue, p.obligationCollateralValue).value),
                   BPS_FACTOR)
  {
    hide EffectiveIncentive, MulDiv;
    MulDivFloors(p.borrowPool.oracleAssetPrice,
                 BPS_FACTOR + EffectiveIncentive(!lifted, p.IncentiveBps(), p.obligationDebtValue, p.obligationCollateralValue).value, BPS_FACTOR);
  }

  /** The effective incentive is computed unless a solvent obligation owes nothing or holds too much. */
  lemma EffectiveIncentiveDefinedIff(isSolvent: bool, poolIncentive: int, debtValue: int, collateralValue: int)
    requires debtValue >= 0 && collateralValue >= 0
    ensures EffectiveIncentive(isSolvent, poolIncentive, debtValue, collateralValue).Ok? <==>
              (isSolvent ==> debtValue > 0 && collateralValue * 9990 <= I128_MAX)
  {
    hide MulDiv;
    if debtValue > 0 {
      MulDivSpec(collateralValue, 9990, debtValue);
    } else {
      assert MulDiv(collateralValue, 9990, debtValue).Err? by { OverNothing(collateralValue); }
    }
  }

  lemma OverNothing(collateralValue: int)
    ensures MulDiv(collateralValue, 9990, 0).Err?
  {
  }

  /** The cap is computed exactly when something is available, both pools are priced, the incentive
      leaves a positive factor, and neither the collateral's value, scaled, nor the value backing a
      token leaves 128 bits or vanishes. */
  lemma RepayCapDefinedIff(p: LiquidationPair, lifted: bool, maxFeasible: int, collateral: int, marginTokens: int)
    ensures RepayCapFromCollateral(!lifted, p.borrowPool, maxFeasible, p.collateralPool, collateral, p.obligationDebtValue,
                                   marginTokens, p.obligationCollateralValue).Ok? <==>
              && collateral > 0 && p.borrowPool.oracleAssetPrice > 0 && p.collateralPool.oracleAssetPrice > 0
              && BackingPrice(p, lifted).Ok? && BackingPrice(p, lifted).value > 0
              && BPS_FACTOR + EffectiveIncentive(!lifted, p.IncentiveBps(), p.obligationDebtValue, p.obligationCollateralValue).value > 0
              && Fits(Pow10(p.borrowPool.tokenDecimals))
              && ValueFloor(collateral, p.collateralPool).Ok?
              && Fits(ValueFloor(collateral, p.collateralPool).value * Pow10(p.borrowPool.tokenDecimals))
  {
    hide MulDiv, EffectiveIncentive, Pow10;
    var (price, factor, borrowFactor) := (p.collateralPool.oracleAssetPrice, Pow10(p.collateralPool.tokenDecimals), Pow10(p.borrowPool.tokenDecimals));
    if collateral > 0 && p.borrowPool.oracleAssetPrice > 0 && price > 0 && BackingPrice(p, lifted).Ok? && ValueFloor(collateral, p.collateralPool).Ok?
       && BPS_FACTOR + EffectiveIncentive(!lifted, p.IncentiveBps(), p.obligationDebtValue, p.obligationCollateralValue).value > 0 {
      MulDivFloors(p.borrowPool.oracleAssetPrice,
                   BPS_FACTOR + EffectiveIncentive(!lifted, p.IncentiveBps(), p.obligationDebtValue, p.obligationCollateralValue).value, BPS_FACTOR);
      MulDivFloors(collateral, price, factor);
      var value := MulDiv(collateral, price, factor).value;
      MulNonNegative(value, borrowFactor);
      if BackingPrice(p, lifted).value > 0 {
        QuotientAtMost(value * borrowFactor, BackingPrice(p, lifted).value);
      }
    }
  }

  /** A repay is within the cap exactly when it is feasible and the collateral backs it together with
      the profit margin. */
  lemma RepayCapIff(p: LiquidationPair, lifted: bool, maxFeasible: int, collateral: int, marginTokens: int, x: int)
    requires maxFeasible <= I128_MAX && marginTokens <= I128_MAX
    requires RepayCapFromCollateral(!lifted, p.borrowPool, maxFeasible, p.collateralPool, collateral, p.obligationDebtValue,
                                    marginTokens, p.obligationCollateralValue).Ok?
    ensures ValueFloor(collateral, p.collateralPool).Ok? && BackingPrice(p, lifted).Ok?
    ensures x <= RepayCapFromCollateral(!lifted, p.borrowPool, maxFeasible, p.collateralPool, collateral, p.obligationDebtValue,
                                        marginTokens, p.obligationCollateralValue).value <==>
              && x <= maxFeasible
              && (x + marginTokens) * BackingPrice(p, lifted).value
                   <= ValueFloor(collateral, p.collateralPool).value * Pow10(p.borrowPool.tokenDecimals)
  {
    hide MulDiv, EffectiveIncentive, Pow10;
    var (price, factor) := (p.collateralPool.oracleAssetPrice, Pow10(p.collateralPool.tokenDecimals));
    MulDivSpec(collateral, price, factor);
    var (value, borrowFactor, backing) := (MulDiv(collateral, price, factor).value, Pow10(p.borrowPool.tokenDecimals), BackingPrice(p, lifted).value);
    MulNonNegative(value, borrowFactor);
    BackingIsPositive(p, lifted);
    QuotientAtMost(value * borrowFactor, backing);
    FloorGalois(value * borrowFactor, backing, x + marginTokens);
  }

  /** The planned repay is the largest within the debt, the close factor where it binds, and what the
      whole collateral backs beside the margin. */
  lemma PlannedRepayIsGreatest(p: LiquidationPair, minProfitMarginCents: int, x: int)
    requires InRange(p) && p.positionDebt * p.borrowPool.liquidationCloseFactorBps <= I128_MAX
    requires PlannedRepay(p, minProfitMarginCents).Ok? && PlannedRepay(p, minProfitMarginCents).value.Some?
    requires MarginTokens(p, minProfitMarginCents) <= I128_MAX
    ensures p.LiftsCloseFactor().Ok? && p.PositionCollateral().Ok?
    ensures var (lifted, collateral) := (p.LiftsCloseFactor().value, p.PositionCollateral().value);
            && PlannedRepay(p, minProfitMarginCents).value.value > 0
            && ValueFloor(collateral, p.collateralPool).Ok? && BackingPrice(p, lifted).Ok?
            && (x <= PlannedRepay(p, minProfitMarginCents).value.value <==>
                  && x <= p.positionDebt
                  && (lifted || x * BPS_FACTOR <= p.positionDebt * p.borrowPool.liquidationCloseFactorBps)
                  && (x + MarginTokens(p, minProfitMarginCents)) * BackingPrice(p, lifted).value
                       <= ValueFloor(collateral, p.collateralPool).value * Pow10(p.borrowPool.tokenDecimals))
  {
    hide LiquidationPair.LiftsCloseFactor, LiquidationPair.PositionCollateral, RepayCapFromCollateral, ProfitMarginInBorrowToken, BackingPrice,
         ValueFloor, FixedMulFloor;
    var lifted := p.LiftsCloseFactor().value;
    RepayCapIff(p, lifted, MaxFeasible(p, lifted), p.PositionCollateral().value, MarginTokens(p, minProfitMarginCents), x);
    FixedMulFloorSpec(p.positionDebt, p.borrowPool.liquidationCloseFactorBps);
    FloorGalois(p.positionDebt * p.borrowPool.liquidationCloseFactorBps, BPS_FACTOR, x);
  }

  // ----- The initiator's verdict on a pair

  /** Repaying part of a debt burns a share exactly when the part is worth one. */
  lemma BurnsShareIff(p: LiquidationPair, repaid: int)
    requires repaid >= 0 && p.borrowPool.totalBorrowed > 0 && p.borrowPool.totalDTokens >= 0
    requires BurnsShare(p, repaid).Ok?
    ensures BurnsShare(p, repaid).value <==> repaid == p.positionDebt || repaid * p.borrowPool.totalDTokens >= p.borrowPool.totalBorrowed
  {
    MulNonNegative(repaid, p.borrowPool.totalDTokens);
    FloorGalois(repaid * p.borrowPool.totalDTokens, p.borrowPool.totalBorrowed, 1);
  }

  /** A pair is acceptable exactly when its planned repay, fitted with unlimited capital, is accepted,
      seizes something, burns a share, and nets more than the minimum margin. */
  lemma AcceptablePairIff(p: LiquidationPair, minProfitMarginCents: int)
    ensures IsAcceptablePair(p, minProfitMarginCents) == Ok(true) <==>
              && PlannedRepay(p, minProfitMarginCents).Ok? && PlannedRepay(p, minProfitMarginCents).value.Some?
              && var fitted := FittedRepay(p, PlannedRepay(p, minProfitMarginCents).value.value, I128_MAX);
              && fitted.Ok? && fitted.value.Some?
              && p.Accepts(fitted.value.value)
              && var Accepted(seized, repaid) := p.Quote(fitted.value.value).value;
              && seized > 0
              && BurnsShare(p, repaid) == Ok(true)
              && var (gain, cost) := (SaturatingValue(seized, p.collateralPool), SaturatingValue(repaid, p.borrowPool));
              && gain > 0 && cost > 0 && gain - cost > MinProfitMarginValue(minProfitMarginCents, p.oraclePriceDecimals)
  {
    hide PlannedRepay, FittedRepay, LiquidationPair.Quote, BurnsShare, MinProfitMarginValue;
    if PlannedRepay(p, minProfitMarginCents).Ok? && PlannedRepay(p, minProfitMarginCents).value.Some? {
      var fitted := FittedRepay(p, PlannedRepay(p, minProfitMarginCents).value.value, I128_MAX);
      if fitted.Ok? && fitted.value.Some? && p.Accepts(fitted.value.value) {
        var burns := BurnsShare(p, p.Quote(fitted.value.value).value.repaid);
        assert burns.Ok? ==> burns == Ok(burns.value);
        ValuesFit(p.Quote(fitted.value.value).value.seized, p.collateralPool);
        ValuesFit(p.Quote(fitted.value.value).value.repaid, p.borrowPool);
      }
    }
  }

  // ----- Balances and slippage

  /** What may be spent of a balance leaves the safety margin of XLM whole. */
  lemma UsableLeavesMargin(k: Keeper, token: string, raw: int, spent: int)
    requires Fits(raw) && spent > 0 && spent <= k.Usable(token, raw)
    ensures spent + (if token == k.xlmAddress then k.xlmSafetyMargin else 0) <= raw
  {
  }

  /** And no less may be: any amount that leaves it is usable. */
  lemma UsableIsAll(k: Keeper, token: string, raw: int, spent: int)
    requires Fits(raw) && 0 < spent <= I128_MAX
    requires spent + (if token == k.xlmAddress then k.xlmSafetyMargin else 0) <= raw
    ensures spent <= k.Usable(token, raw)
    ensures k.balance(token) == Ok(raw) ==> spent <= k.UsableBalance(token)
  {
  }

  /** The slippage allowance comes off what a swap yields and on what it costs. */
  lemma SlippageExactly(k: Keeper, amount: int)
    requires amount >= 0 && 0 <= k.maxAllowedSwapSlippageBps <= BPS_FACTOR
    requires amount * (BPS_FACTOR + k.maxAllowedSwapSlippageBps) <= I128_MAX
    ensures Floors(k.LessSlippage(amount), amount * (BPS_FACTOR - k.maxAllowedSwapSlippageBps), BPS_FACTOR)
    ensures Floors(k.PlusSlippage(amount), amount * (BPS_FACTOR + k.maxAllowedSwapSlippageBps), BPS_FACTOR)
  {
    MulNonNegative(amount, BPS_FACTOR - k.maxAllowedSwapSlippageBps);
    MulNonNegative(amount, BPS_FACTOR + k.maxAllowedSwapSlippageBps);
    MulLe(BPS_FACTOR - k.maxAllowedSwapSlippageBps, BPS_FACTOR + k.maxAllowedSwapSlippageBps, amount);
    QuotFloors(amount * (BPS_FACTOR - k.maxAllowedSwapSlippageBps), BPS_FACTOR);
    QuotFloors(amount * (BPS_FACTOR + k.maxAllowedSwapSlippageBps), BPS_FACTOR);
  }

  // ----- The pair and its planned repay

  /** A fresh pair is the debt of the obligation's borrow in the pool, rounded up, against the deposit,
      with the obligation's rated values, no accrual and the initial margin. */
  lemma PairExactly(
    rules: DustRules, obligation: Obligation, market: MarketData, borrowPool: PoolData, collateralPool: PoolData, deposit: DepositPosition,
    isInsolvent: bool) returns (borrow: BorrowPosition)
    requires PairOf(rules, obligation, market, borrowPool, collateralPool, deposit, isInsolvent).Ok?
    ensures borrow in obligation.borrows && borrow.poolAddress == borrowPool.poolAddress
    ensures var p := PairOf(rules, obligation, market, borrowPool, collateralPool, deposit, isInsolvent).value;
            && p.rules == rules && p.borrowPool == borrowPool && p.collateralPool == collateralPool && p.deposit == deposit
            && p.isInsolvent == isInsolvent
            && Ok(p.positionDebt) == borrowPool.DTokensToTokensCeil(borrow.dTokens)
            && Ok(p.obligationDebtValue) == ObligationDebtValue(obligation, market)
            && Ok(p.obligationCollateralValue) == ObligationCollateralValue(obligation, market)
            && p.minCollateralValueCents == market.minCollateralValueCents && p.oraclePriceDecimals == market.oraclePriceDecimals
            && p.debtAccrualBps == 0 && p.supplyAccrualBps == 0
            && p.margin == ClearingMargin(100, 0)
  {
    hide ObligationDebtValue, ObligationCollateralValue, SharesToTokensCeil;
    borrow := FindBorrow(obligation.borrows, borrowPool.poolAddress).value;
  }

  /** The planned repay is the repay cap of the whole collateral, wherever that is computed and
      positive; its guards against an empty side lose nothing. */
  lemma PlannedRepayIsTheCap(p: LiquidationPair, minProfitMarginCents: int)
    requires p.LiftsCloseFactor().Ok? && p.PositionCollateral().Ok?
    ensures var lifted := p.LiftsCloseFactor().value;
            var cap := RepayCapFromCollateral(!lifted, p.borrowPool, MaxFeasible(p, lifted), p.collateralPool, p.PositionCollateral().value,
                                              p.obligationDebtValue, MarginTokens(p, minProfitMarginCents), p.obligationCollateralValue);
            PlannedRepay(p, minProfitMarginCents) == Ok(if cap.Ok? && cap.value > 0 then Some(cap.value) else None)
  {
    hide LiquidationPair.LiftsCloseFactor, LiquidationPair.PositionCollateral, RepayCapFromCollateral, ProfitMarginInBorrowToken, CloseFactorRepayCap;
  }

  /** A balance that cannot be read lends nothing, with a margin that is not negative. */
  lemma UnreadableLendsNothing(k: Keeper, token: string)
    requires k.balance(token).Err? && k.xlmSafetyMargin >= 0
    ensures k.UsableBalance(token) <= 0
  {
  }

  /** Whatever a plan spends of the wallet, a repay or a swap, leaves the XLM safety margin whole. */
  lemma PlansLeaveTheMargin(k: Keeper, p: LiquidationPair, plan: LiquidationPlan)
    requires Funded(k, p, plan) && k.xlmSafetyMargin >= 0
    requires forall token :: k.balance(token).Ok? ==> Fits(k.balance(token).value)
    ensures plan.liquidationType.Direct? && plan.repayAmount > 0 ==>
              var token := p.borrowPool.tokenAddress;
              k.balance(token).Ok? && plan.repayAmount + (if token == k.xlmAddress then k.xlmSafetyMargin else 0) <= k.balance(token).value
    ensures plan.liquidationType.PreSwap? && plan.liquidationType.sourceAmountIn > 0 ==>
              var token := plan.liquidationType.sourceAsset;
              k.balance(token).Ok?
              && plan.liquidationType.sourceAmountIn + (if token == k.xlmAddress then k.xlmSafetyMargin else 0) <= k.balance(token).value
  {
    hide Honoured, FlashFunded;
  }

  /** The planner sizes the fresh pair for the accrual of both its pools until `now`, with the margin
      it is asked for. */
  lemma PlanningPairExactly(
    k: Keeper, isInsolvent: bool, market: MarketData, obligation: Obligation,
    borrowPool: PoolData, collateralPool: PoolData, deposit: DepositPosition, margin: ClearingMargin, now: nat)
    ensures var made := PairOf(k.dustRules, obligation, market, borrowPool, collateralPool, deposit, isInsolvent);
            var p := PlanningPair(k, isInsolvent, market, obligation, borrowPool, collateralPool, deposit, margin, now);
            && (p.Ok? <==> made.Ok?)
            && (p.Ok? ==>
                  && p.value.margin == margin
                  && p.value.debtAccrualBps == borrowPool.AccrualSinceUpdateBps(now).0
                  && p.value.supplyAccrualBps == collateralPool.AccrualSinceUpdateBps(now).1
                  && Unaccrued(p.value) == Unaccrued(made.value))
  {
    hide ObligationDebtValue, ObligationCollateralValue, SharesToTokensCeil, FindBorrow, Accrued;
  }
}
