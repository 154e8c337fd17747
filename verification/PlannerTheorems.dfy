/** The initiator's predicate against the liquidator's planner. */
module PlannerTheorems {
  import opened Arithmetic
  import opened Pool
  import opened Market
  import opened Profitability
  import opened Liquidation
  import opened RepaySizing
  import opened CapTheorems
  import opened Insolvency
  import opened BadDebt
  import opened Planner

  /** A wallet that can pay the fitted repay and the clearing offer. */
  predicate CanPay(p: LiquidationPair, minProfitMarginCents: int, usable: int) {
    && usable <= I128_MAX
    && (DirectRepay(p, minProfitMarginCents).Ok? && DirectRepay(p, minProfitMarginCents).value.Some? ==>
          usable >= DirectRepay(p, minProfitMarginCents).value.value)
    && (ClearingOf(p).Ok? && ClearingOf(p).value.Some? ==> usable >= ClearingOf(p).value.value.offer)
  }

  /** Ranges every snapshot keeps: a debt and decimals that fit, a close factor that is not negative. */
  predicate InRange(p: LiquidationPair) {
    && p.WellFormed()
    && p.positionDebt <= I128_MAX
    && p.borrowPool.liquidationCloseFactorBps >= 0
    && CheckedPow10(p.oraclePriceDecimals).Ok?
  }

  /** Whatever pair the initiator calls acceptable, the liquidator's Direct candidate for it
      exists, with the same repay, the same seizure and the same net value. */
  lemma AcceptableIsPlanned(k: Keeper, p: LiquidationPair, usable: int)
    requires p.rules.NoDust? && InRange(p)
    requires IsAcceptablePair(p, k.minProfitMarginCents) == Ok(true)
    requires CanPay(p, k.minProfitMarginCents, usable)
    ensures PlannedRepay(p, k.minProfitMarginCents).value.Some?
    ensures var planned := PlannedRepay(p, k.minProfitMarginCents).value.value;
            var repay := DirectRepay(p, k.minProfitMarginCents).value.value;
            var direct := DirectCandidate(p, planned, usable, MinProfitMarginValue(k.minProfitMarginCents, p.oraclePriceDecimals));
            && direct.Some?
            && direct.value.repayAmount == repay
            && p.Accepts(repay)
            && var Accepted(seized, repaid) := p.Quote(repay).value;
            && direct.value.expectedSeizedCollateral == seized > 0
            && direct.value.netProfitValue == SaturatingValue(seized, p.collateralPool) - SaturatingValue(repaid, p.borrowPool)
            && direct.value.netProfitValue > MinProfitMarginValue(k.minProfitMarginCents, p.oraclePriceDecimals)
  {
    hide LiquidationPair.Quote, FittedRepay, BurnsShare, LiquidationPair.LiftsCloseFactor, LiquidationPair.PositionCollateral,
         RepayCapFromCollateral, ProfitMarginInBorrowToken, CloseFactorRepayCap, ClearingOf, SaturatingValue, PlanValue, Pow10;
    var planned := PlannedRepay(p, k.minProfitMarginCents).value.value;
    var repay := DirectRepay(p, k.minProfitMarginCents).value.value;
    WalletFitsUnlimited(p, p.PositionCollateral().value, p.LiftsCloseFactor().value, planned, usable);
    QuoteIgnoresAccrual(p, repay);
    FactorsFit(p, k.minProfitMarginCents);
    var Accepted(seized, repaid) := p.Quote(repay).value;
    PlanValueSaturates(seized, p.collateralPool);
    PlanValueSaturates(repaid, p.borrowPool);
  }

  lemma DirectExists(k: Keeper, p: LiquidationPair, usable: int)
    requires p.rules.NoDust? && InRange(p)
    requires IsAcceptablePair(p, k.minProfitMarginCents) == Ok(true)
    requires CanPay(p, k.minProfitMarginCents, usable)
    ensures HasDirect(p, k.minProfitMarginCents, usable)
  {
    hide IsAcceptablePair, DirectCandidate, InRange, CanPay;
    AcceptableIsPlanned(k, p, usable);
  }

  /** The planner has a Direct candidate for the pair. */
  predicate HasDirect(p: LiquidationPair, minProfitMarginCents: int, usable: int) {
    var planned := PlannedRepay(p, minProfitMarginCents);
    && planned.Ok? && planned.value.Some?
    && DirectCandidate(p, planned.value.value, usable, MinProfitMarginValue(minProfitMarginCents, p.oraclePriceDecimals)).Some?
  }

  /** The pair behind a borrow and a deposit of an obligation, as the initiator judges it. */
  predicate AcceptableAt(
    obligation: Obligation, market: MarketData, isInsolvent: bool, borrow: BorrowPosition, deposit: DepositPosition,
    p: LiquidationPair, minProfitMarginCents: int, now: nat)
  {
    && borrow in obligation.borrows && deposit in obligation.deposits
    && market.PoolOf(borrow.poolAddress).Some? && market.PoolOf(deposit.poolAddress).Some?
    && var (borrowPool, collateralPool) := (market.PoolOf(borrow.poolAddress).value, market.PoolOf(deposit.poolAddress).value);
    && borrowPool.poolAddress != collateralPool.poolAddress
    && collateralPool.closeLtvBps > 0
    && var pair := PairOf(NoDust, obligation, market, borrowPool, collateralPool, deposit, isInsolvent);
    && pair.Ok?
    && p == pair.value.AccruingUntil(now)
    && IsAcceptablePair(p, minProfitMarginCents) == Ok(true)
  }

  /** A borrow and deposit of the obligation are acceptable exactly when the scan takes them. */
  lemma AcceptableIffTaken(
    obligation: Obligation, market: MarketData, isInsolvent: bool, borrow: BorrowPosition, deposit: DepositPosition,
    minProfitMarginCents: int, now: nat)
    requires borrow in obligation.borrows && deposit in obligation.deposits && market.PoolOf(borrow.poolAddress).Some?
    ensures PairVerdict(obligation, market, isInsolvent, market.PoolOf(borrow.poolAddress).value, deposit, minProfitMarginCents, now) == Ok(true)
       <==> exists p :: AcceptableAt(obligation, market, isInsolvent, borrow, deposit, p, minProfitMarginCents, now)
  {
    hide IsAcceptablePair, PairOf, FindPool;
    var borrowPool := market.PoolOf(borrow.poolAddress).value;
    if market.PoolOf(deposit.poolAddress).Some? {
      var pair := PairOf(NoDust, obligation, market, borrowPool, market.PoolOf(deposit.poolAddress).value, deposit, isInsolvent);
      if pair.Ok? {
        var p := pair.value.AccruingUntil(now);
        assert AcceptableAt(obligation, market, isInsolvent, borrow, deposit, p, minProfitMarginCents, now) <==>
               PairVerdict(obligation, market, isInsolvent, borrowPool, deposit, minProfitMarginCents, now) == Ok(true);
      }
    }
  }

  lemma {:induction false} AcceptableDeposit(
    obligation: Obligation, market: MarketData, isInsolvent: bool, borrow: BorrowPosition,
    deposits: seq<DepositPosition>, minProfitMarginCents: int, now: nat) returns (deposit: DepositPosition, p: LiquidationPair)
    requires borrow in obligation.borrows && market.PoolOf(borrow.poolAddress).Some?
    requires forall d :: d in deposits ==> d in obligation.deposits
    requires DepositsAcceptable(obligation, market, isInsolvent, market.PoolOf(borrow.poolAddress).value, deposits, minProfitMarginCents, now) == Ok(true)
    ensures AcceptableAt(obligation, market, isInsolvent, borrow, deposit, p, minProfitMarginCents, now)
  {
    hide PairVerdict, AcceptableAt, FindPool;
    deposit := deposits[0];
    var verdict := PairVerdict(obligation, market, isInsolvent, market.PoolOf(borrow.poolAddress).value, deposit, minProfitMarginCents, now);
    assert verdict == Ok(verdict.value);
    if verdict.value {
      AcceptableIffTaken(obligation, market, isInsolvent, borrow, deposit, minProfitMarginCents, now);
      p :| AcceptableAt(obligation, market, isInsolvent, borrow, deposit, p, minProfitMarginCents, now);
    } else {
      deposit, p := AcceptableDeposit(obligation, market, isInsolvent, borrow, deposits[1..], minProfitMarginCents, now);
    }
  }

  lemma {:induction false} AcceptableBorrow(
    obligation: Obligation, market: MarketData, isInsolvent: bool, borrows: seq<BorrowPosition>,
    minProfitMarginCents: int, now: nat) returns (borrow: BorrowPosition, deposit: DepositPosition, p: LiquidationPair)
    requires forall b :: b in borrows ==> b in obligation.borrows
    requires BorrowsAcceptable(obligation, market, isInsolvent, borrows, minProfitMarginCents, now) == Ok(true)
    ensures AcceptableAt(obligation, market, isInsolvent, borrow, deposit, p, minProfitMarginCents, now)
  {
    hide DepositsAcceptable, AcceptableAt;
    borrow := borrows[0];
    var pool := market.PoolOf(borrow.poolAddress).value;
    var verdict := DepositsAcceptable(obligation, market, isInsolvent, pool, obligation.deposits, minProfitMarginCents, now);
    if verdict == Ok(true) {
      deposit, p := AcceptableDeposit(obligation, market, isInsolvent, borrow, obligation.deposits, minProfitMarginCents, now);
    } else {
      assert verdict == Ok(verdict.value);
      borrow, deposit, p := AcceptableBorrow(obligation, market, isInsolvent, borrows[1..], minProfitMarginCents, now);
    }
  }

  /** Nothing the liquidator would take is put up for cover: an obligation with deposits that a
      no-dust initiator finds eligible is uncovered and has no acceptable pair at all. */
  lemma EligibleLeavesNothing(
    obligation: Obligation, market: MarketData, minProfitMarginCents: int, now: nat,
    borrow: BorrowPosition, deposit: DepositPosition, p: LiquidationPair)
    requires obligation.deposits != [] && FullyPriced(obligation, market)
    requires IsEligibleForCover(NoDust, obligation, market, minProfitMarginCents, now) == Ok(true)
    ensures SeizableCollateralCoversDebt(obligation, market) == Ok(false)
    ensures IsInsolvent(obligation, market).Ok?
    ensures !AcceptableAt(obligation, market, IsInsolvent(obligation, market).value, borrow, deposit, p, minProfitMarginCents, now)
  {
    hide AllUnderFloor, SeizableCollateralCoversDebt, BorrowsAcceptable, IsInsolvent, FindPool, CentsToOracleValueCeil, PairVerdict,
         IsAcceptablePair, PairOf;
    var covered, acceptable := SeizableCollateralCoversDebt(obligation, market), HasAcceptableLiquidation(obligation, market, minProfitMarginCents, now);
    assert covered == Ok(covered.value) && acceptable == Ok(acceptable.value);
    var isInsolvent := IsInsolvent(obligation, market).value;
    NoBorrowAcceptableIff(obligation, market, isInsolvent, obligation.borrows, minProfitMarginCents, now);
    if borrow in obligation.borrows && deposit in obligation.deposits {
      AcceptableIffTaken(obligation, market, isInsolvent, borrow, deposit, minProfitMarginCents, now);
    }
  }

  /** The initiator judges the very pair the planner would size with the initial margin. */
  lemma PlanningPairIsJudged(
    k: Keeper, obligation: Obligation, market: MarketData, isInsolvent: bool, borrow: BorrowPosition, deposit: DepositPosition,
    p: LiquidationPair, now: nat)
    requires k.dustRules.NoDust?
    requires AcceptableAt(obligation, market, isInsolvent, borrow, deposit, p, k.minProfitMarginCents, now)
    ensures p.rules.NoDust?
    ensures PlanningPair(k, isInsolvent, market, obligation, market.PoolOf(borrow.poolAddress).value,
                         market.PoolOf(deposit.poolAddress).value, deposit, INITIAL_MARGIN, now) == Ok(p)
  {
    hide IsAcceptablePair, ObligationDebtValue, ObligationCollateralValue, FindPool, FindBorrow, SharesToTokensCeil, Accrued;
  }

  /** The initiator stands back only for a reason: when it sees an acceptable liquidation, some
      seizable pair of the obligation is one the liquidator, planning at the same time with the
      initial margin, has a Direct candidate for with any wallet that can pay it. */
  lemma InitiatorWitnessedByPlanner(k: Keeper, obligation: Obligation, market: MarketData, now: nat)
    returns (borrow: BorrowPosition, deposit: DepositPosition, p: LiquidationPair)
    requires k.dustRules.NoDust?
    requires HasAcceptableLiquidation(obligation, market, k.minProfitMarginCents, now) == Ok(true)
    ensures IsInsolvent(obligation, market).Ok?
    ensures AcceptableAt(obligation, market, IsInsolvent(obligation, market).value, borrow, deposit, p, k.minProfitMarginCents, now)
    ensures PlanningPair(k, IsInsolvent(obligation, market).value, market, obligation,
                         market.PoolOf(borrow.poolAddress).value, market.PoolOf(deposit.poolAddress).value,
                         deposit, INITIAL_MARGIN, now) == Ok(p)
    ensures InRange(p) ==>
              forall usable :: CanPay(p, k.minProfitMarginCents, usable) ==> HasDirect(p, k.minProfitMarginCents, usable)
  {
    hide BorrowsAcceptable, IsInsolvent, IsAcceptablePair, HasDirect, CanPay, InRange, PlanningPair, PairOf, FindPool;
    var isInsolvent := IsInsolvent(obligation, market).value;
    borrow, deposit, p := AcceptableBorrow(obligation, market, isInsolvent, obligation.borrows, k.minProfitMarginCents, now);
    PlanningPairIsJudged(k, obligation, market, isInsolvent, borrow, deposit, p, now);
    if InRange(p) {
      forall usable | CanPay(p, k.minProfitMarginCents, usable)
        ensures HasDirect(p, k.minProfitMarginCents, usable)
      {
        DirectExists(k, p, usable);
      }
    }
  }

  // ----- When the planner throws its Direct candidate away

  /** What the planner counts on receiving at once: the plain collateral, and the supply that can be
      withdrawn without a scarcity fee. */
  function Instant(p: LiquidationPair): Result<int> {
    var supplied :- p.SuppliedTokens();
    var withdrawable :- p.collateralPool.AvailableForBorrow();
    Ok(p.deposit.collateral + Min(supplied, withdrawable))
  }

  /** The value that backs a whole borrow token at the effective incentive. */
  function BackingPrice(p: LiquidationPair, lifted: bool): Result<int> {
    var incentive :- EffectiveIncentive(!lifted, p.IncentiveBps(), p.obligationDebtValue, p.obligationCollateralValue);
    var factor :- Checked(BPS_FACTOR + incentive);
    MulDiv(p.borrowPool.oracleAssetPrice, factor, BPS_FACTOR)
  }

  /** The collateral backs less than one borrow token more than the profit margin. */
  predicate BacksOnlyTheMargin(p: LiquidationPair, lifted: bool, collateral: int, marginTokens: int) {
    && ValueFloor(collateral, p.collateralPool).Ok? && BackingPrice(p, lifted).Ok?
    && ValueFloor(collateral, p.collateralPool).value * Pow10(p.borrowPool.tokenDecimals)
         < (marginTokens + 1) * BackingPrice(p, lifted).value
  }

  /** Where the cap is computed for some collateral it is computed for any smaller amount, and is
      positive exactly when that backs more than the margin. */
  lemma CapPositiveIff(p: LiquidationPair, lifted: bool, maxFeasible: int, collateral: int, less: int, marginTokens: int)
    requires maxFeasible > 0 && 0 < less <= collateral
    requires RepayCapFromCollateral(!lifted, p.borrowPool, maxFeasible, p.collateralPool, collateral, p.obligationDebtValue,
                                    marginTokens, p.obligationCollateralValue).Ok?
    ensures var cap := RepayCapFromCollateral(!lifted, p.borrowPool, maxFeasible, p.collateralPool, less, p.obligationDebtValue,
                                              marginTokens, p.obligationCollateralValue);
            cap.Ok? && (cap.value <= 0 <==> BacksOnlyTheMargin(p, lifted, less, marginTokens))
  {
    hide MulDiv, EffectiveIncentive, Pow10;
    var (price, factor) := (p.collateralPool.oracleAssetPrice, Pow10(p.collateralPool.tokenDecimals));
    var (backing, borrowFactor) := (BackingPrice(p, lifted).value, Pow10(p.borrowPool.tokenDecimals));
    MulDivMonotone(less, collateral, price, factor);
    var value, most := MulDiv(less, price, factor).value, MulDiv(collateral, price, factor).value;
    MulLe(value, most, borrowFactor);
    MulNonNegative(value, borrowFactor);
    BackingIsPositive(p, lifted);
    QuotientAtMost(value * borrowFactor, backing);
    FloorGalois(value * borrowFactor, backing, marginTokens + 1);
  }

  lemma BackingIsPositive(p: LiquidationPair, lifted: bool)
    requires p.borrowPool.oracleAssetPrice > 0 && BackingPrice(p, lifted).Ok? && BackingPrice(p, lifted).value != 0
    requires BPS_FACTOR + EffectiveIncentive(!lifted, p.IncentiveBps(), p.obligationDebtValue, p.obligationCollateralValue).value > 0
    ensures BackingPrice(p, lifted).value > 0
  {
    hide MulDiv, EffectiveIncentive;
    var incentive := EffectiveIncentive(!lifted, p.IncentiveBps(), p.obligationDebtValue, p.obligationCollateralValue).value;
    MulDivSpec(p.borrowPool.oracleAssetPrice, BPS_FACTOR + incentive, BPS_FACTOR);
  }

  /** A Direct candidate may still be thrown away: by `BuildPlan`'s contract a pair that has one gets no
      plan at all exactly when flash sizing gives up. That is exactly when flash loans are on and what
      the planner counts on receiving at once cannot be computed, is nothing, or backs no more than
      the profit margin. */
  lemma FlashSizingGivesUp(p: LiquidationPair, minProfitMarginCents: int)
    requires p.WellFormed()
    requires PlannedRepay(p, minProfitMarginCents).Ok? && PlannedRepay(p, minProfitMarginCents).value.Some?
    ensures var lifted := p.LiftsCloseFactor().value;
            var margin := MarginTokens(p, minProfitMarginCents);
            FlashSizing(p, lifted, MaxFeasible(p, lifted), margin).None? <==>
              && p.borrowPool.IsFlashLoanEnabled()
              && (p.collateralPool.AvailableForBorrow().Err?
                  || Instant(p).value <= 0
                  || BacksOnlyTheMargin(p, lifted, Instant(p).value, margin))
  {
    hide LiquidationPair.LiftsCloseFactor, ProfitMarginInBorrowToken, RepayCapFromCollateral, CloseFactorRepayCap, SharesToTokensFloor,
         BacksOnlyTheMargin, PoolData.AvailableForBorrow;
    var lifted, margin := p.LiftsCloseFactor().value, MarginTokens(p, minProfitMarginCents);
    if Instant(p).Ok? && Instant(p).value > 0 {
      CapPositiveIff(p, lifted, MaxFeasible(p, lifted), p.PositionCollateral().value, Instant(p).value, margin);
    }
  }
}
