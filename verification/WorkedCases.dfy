/** Cases the repository's own tests pin, proved of the model. They also show that the
    hypotheses of the theorems are met by ordinary obligations. */
module WorkedCases {
  import opened Arithmetic
  import opened Pool
  import opened Market
  import opened Profitability
  import opened Liquidation
  import opened LiquidationLaws
  import opened RepaySizing
  import opened SizingTheorems
  import opened ValueTheorems
  import opened CapTheorems
  import opened Insolvency
  import opened BadDebt
  import opened Liquidatable
  import opened Planner
  import opened PlannerTheorems

  const UNIT := 10_000_000
  const USD := 100_000_000_000_000
  const FLOOR := 500_000_000_000_000

  /** A pool at market defaults: 10% incentive, 50% close factor, 80% close LTV, $1 a token. */
  function TestPool(address: string): PoolData {
    PoolData(address, address, 7, USD, 1_000_000 * UNIT, 1_000_000 * UNIT, 1_000_000 * UNIT, 1_000_000 * UNIT, 0,
             10_000, 10_000, 8_000, 10_000, 9_000, 5_000, 1_000, 5, 8, 0, 0, 0)
  }

  /** The fixture market, with the two pools the cases use: 98.5% insolvency LTV, a $5 floor. */
  function TestMarket(): MarketData {
    MarketData(9_850, [TestPool("U"), TestPool("G")], 14, 500)
  }

  function Borrower(debt: int, gold: int): Obligation {
    Obligation([BorrowPosition(debt, "U")], [DepositPosition(0, gold, "G")], 0)
  }

  /** The (U, G) pair of a borrower, worth its tokens in dollars. */
  function GoldPair(debt: int, gold: int): LiquidationPair {
    LiquidationPair(NoDust, TestPool("U"), TestPool("G"), DepositPosition(0, gold, "G"), debt,
                    debt * UNIT, gold * UNIT, false, 500, 14, 0, 0, INITIAL_MARGIN)
  }

  lemma Powers()
    ensures Pow10(7) == UNIT && Pow10(14) == USD
  {
  }

  /** A pool at a dollar a token of seven decimals, whatever its totals. */
  predicate AtADollar(pool: PoolData) {
    pool.tokenDecimals == 7 && pool.oracleAssetPrice == USD
  }

  lemma AtPar(amount: int, pool: PoolData)
    requires AtADollar(pool) && 0 <= amount <= 1_000 * UNIT
    ensures ValueFloor(amount, pool) == ValueCeil(amount, pool) == Ok(amount * UNIT)
    ensures AmountFloor(amount * UNIT, pool) == Ok(amount)
  {
    Powers();
  }

  /** A pair of the fixture pools, whatever they hold. */
  predicate Fixture(p: LiquidationPair) {
    && p.rules.NoDust?
    && AtADollar(p.borrowPool) && AtADollar(p.collateralPool)
    && p.IncentiveBps() == 1_000
    && p.minCollateralValueCents == 500 && p.oraclePriceDecimals == 14
  }

  /** What a fixture pair buys: the repay and a tenth when the LTV cap is lifted. */
  lemma LiftedBuys(p: LiquidationPair, repaid: int)
    requires Fixture(p) && 0 <= repaid <= 1_000 * UNIT
    ensures p.Buys(repaid, true) == Ok(repaid * 11_000 / 10_000)
  {
    hide ValueFloor, AmountFloor;
    AtPar(repaid, p.borrowPool);
    AtPar(repaid, p.collateralPool);
  }

  lemma FixtureFloor(p: LiquidationPair)
    requires Fixture(p)
    ensures p.DustFloor() == Ok(FLOOR)
  {
    Powers();
  }

  lemma FixtureCollateral(p: LiquidationPair)
    requires p.collateralPool == TestPool("G")
    requires 0 <= p.deposit.collateral <= 1_000 * UNIT && 0 <= p.deposit.jTokens <= 1_000 * UNIT
    ensures p.SuppliedTokens() == Ok(p.deposit.jTokens)
    ensures p.PositionCollateral() == Ok(p.deposit.jTokens + p.deposit.collateral)
  {
  }

  /** $4.50 of gold against a dollar of debt: a small position, so the close factor is lifted. */
  const SMALL := GoldPair(UNIT, 45_000_000)

  /** The same gold, all of it supplied to the pool instead of held as plain collateral. */
  const SUPPLIED := SMALL.(deposit := DepositPosition(45_000_000, 0, "G"))

  /** $4.50 of gold, plain or supplied, against a debt of about a dollar. */
  predicate FourFifty(p: LiquidationPair) {
    p == SMALL || p == SUPPLIED || p == STALE || p == GROWN
  }

  lemma FourFiftyIsLive(p: LiquidationPair)
    requires FourFifty(p)
    ensures Fixture(p) && Live(p, 45_000_000, true) && p.IsSmallPosition() == Ok(true)
  {
    hide ValueFloor, LiquidationPair.DustFloor, LiquidationPair.PositionCollateral, Accrued;
    ThirtyDaysAtTwentyPercent();
    FixtureFloor(p);
    FixtureCollateral(p);
    AtPar(45_000_000, p.collateralPool);
  }

  /** The snapshot clearing is the whole dollar, and a clearing offer pads it by 1%. */
  lemma SmallClearing(p: LiquidationPair)
    requires p == SMALL || p == SUPPLIED
    ensures ClearingOf(p) == Ok(Some(Clearing(UNIT, 10_100_000)))
  {
    hide LiquidationPair.Buys, LiquidationPair.IsSmallPosition, LiquidationPair.LiftsCloseFactor, LiquidationPair.PositionCollateral,
         LiquidationPair.SuppliedTokens;
    FourFiftyIsLive(p);
    FixtureCollateral(p);
    LiftedBuys(p, UNIT);
  }

  lemma SmallQuotes(p: LiquidationPair)
    requires p == SMALL || p == SUPPLIED
    ensures p.Quote(UNIT / 2) == Ok(LeavesDust)
    ensures p.Quote(UNIT) == p.Quote(10_100_000) == Ok(Accepted(11_000_000, UNIT))
  {
    hide LiquidationPair.Buys, LiquidationPair.IsSmallPosition, LiquidationPair.LiftsCloseFactor, LiquidationPair.PositionCollateral,
         LiquidationPair.DustFloor, ValueFloor, ValueCeil;
    FourFiftyIsLive(p);
    FixtureFloor(p);
    LiftedBuys(p, UNIT);
    LiftedBuys(p, UNIT / 2);
    AtPar(45_000_000 - 5_500_000, p.collateralPool);
    AtPar(UNIT / 2, p.borrowPool);
  }

  /** Half the debt of a small position leaves dust; the keeper offers 1% over the whole of it,
      pays the dollar and receives $1.10. The planned repay is fitted by the closed form. */
  lemma SmallPositionNeedsItsWholeDebt(p: LiquidationPair)
    requires p == SMALL || p == SUPPLIED
    ensures p.Quote(UNIT / 2) == Ok(LeavesDust)
    ensures FittedRepay(p, UNIT, I128_MAX) == Ok(Some(10_100_000))
    ensures p.Quote(10_100_000) == Ok(Accepted(11_000_000, UNIT))
  {
    hide LiquidationPair.Quote, ClearingOf, LiquidationPair.WellFormed;
    FourFiftyIsLive(p);
    SmallClearing(p);
    SmallQuotes(p);
    FittedRepayClosedForm(p, 45_000_000, UNIT, I128_MAX);
  }

  // ----- A small position sold whole

  /** $1.05 of gold against a dollar: the keeper's collateral cap is a unit short of the position. */
  const COVERED := GoldPair(UNIT, 10_500_000)

  lemma CoveredIsLive()
    ensures Fixture(COVERED) && Live(COVERED, 10_500_000, true) && COVERED.IsSmallPosition() == Ok(true)
    ensures COVERED.SuppliedTokens() == Ok(0)
  {
    hide ValueFloor, LiquidationPair.DustFloor, LiquidationPair.PositionCollateral;
    FixtureFloor(COVERED);
    FixtureCollateral(COVERED);
    AtPar(10_500_000, COVERED.collateralPool);
  }

  lemma CoveredClearing()
    ensures ClearingOf(COVERED) == Ok(Some(Clearing(9_545_455, 9_640_910)))
  {
    hide LiquidationPair.Buys, LiquidationPair.IsSmallPosition, LiquidationPair.LiftsCloseFactor, LiquidationPair.PositionCollateral,
         LiquidationPair.SuppliedTokens, LeastBuying;
    CoveredIsLive();
    LiftedBuys(COVERED, UNIT);
    CoveredLeast();
    assert Grown(UNIT, 0) == Ok(UNIT) && Grown(0, 0) == Ok(0) && Grown(9_545_455, 100) == Ok(9_640_910);
  }

  lemma CoveredLeast()
    ensures LeastBuying(COVERED, true, 10_500_000, 1, UNIT) == 9_545_455
  {
    hide LiquidationPair.Buys;
    LiftedBuys(COVERED, 9_545_455);
    LiftedBuys(COVERED, UNIT);
    forall x | 1 <= x < 9_545_455
      ensures COVERED.Buys(x, true).Ok? && COVERED.Buys(x, true).value < 10_500_000
    {
      LiftedBuys(COVERED, x);
    }
    LeastBuyingUnique(COVERED, true, 10_500_000, UNIT, 9_545_455);
  }

  lemma CoveredPrice()
    ensures COVERED.WholePositionRepay(10_500_000) == Ok(9_545_455)
  {
    Powers();
  }

  /** The cap's repay leaves dust; the keeper offers 1% over the least that takes the position, and the
      market refunds that offer, or twice the debt, down to what the position costs. */
  lemma RefundsDownToTheCollateral()
    ensures COVERED.Quote(9_545_454) == Ok(LeavesDust)
    ensures FittedRepay(COVERED, 9_545_454, I128_MAX) == Ok(Some(9_640_910))
    ensures COVERED.Quote(9_640_910) == COVERED.Quote(2 * UNIT) == Ok(Accepted(10_500_000, 9_545_455))
  {
    hide LiquidationPair.Buys, LiquidationPair.IsSmallPosition, LiquidationPair.LiftsCloseFactor, LiquidationPair.PositionCollateral,
         LiquidationPair.DustFloor, ValueFloor, ValueCeil, ClearingOf, LiquidationPair.WholePositionRepay;
    CoveredIsLive();
    CoveredClearing();
    CoveredPrice();
    FixtureFloor(COVERED);
    LiftedBuys(COVERED, 9_545_454);
    LiftedBuys(COVERED, 9_640_910);
    LiftedBuys(COVERED, UNIT);
    AtPar(1, COVERED.collateralPool);
  }

  // ----- A sweep market

  /** $4.50 against a dollar on a sweep market, worth what its tokens are. */
  const SWEPT := SMALL.(rules := Sweep)

  /** $90 against $95, insolvent. */
  const SWEPT_INSOLVENT := GoldPair(95 * UNIT, 90 * UNIT).(rules := Sweep, isInsolvent := true)

  lemma SweptBuys(p: LiquidationPair, repay: int)
    requires p == SWEPT || p == SWEPT_INSOLVENT
    requires 0 <= repay <= 1_000 * UNIT
    ensures ValueFloor(repay, p.borrowPool) == Ok(repay * UNIT)
    ensures p.BuysAtIncentive(repay * UNIT) == Ok(repay * 11_000 / 10_000)
    ensures p.SweepPosition() == Ok(p.deposit.collateral) && p.DustFloor() == Ok(FLOOR)
  {
    hide ValueFloor, AmountFloor;
    Powers();
    AtPar(repay, p.borrowPool);
    AtPar(repay, p.collateralPool);
  }

  lemma SweptCap()
    ensures SWEPT.SweepLtvCap(5_000_000 * UNIT) == Ok(22_477_500)
  {
    hide MulDiv, AmountFloor;
    SweptArithmetic();
    AtPar(22_477_500, TestPool("G"));
  }

  lemma SweptArithmetic()
    ensures MulDiv(450_000_000_000_000, SCALAR_9, USD) == Ok(4_500_000_000)
    ensures MulDiv(50_000_000_000_000, 4_500_000_000, SCALAR_9) == Ok(225_000_000_000_000)
    ensures MulDiv(225_000_000_000_000, 999, 1000) == Ok(224_775_000_000_000)
  {
  }

  /** Half the dollar takes the whole small position, without lifting the close factor; $78 buys $85.80
      of the insolvent one, and the $4.20 left goes with it. */
  lemma SweepTakesTheLeftover()
    ensures SWEPT.LiftsCloseFactor() == Ok(false)
    ensures SWEPT.Quote(5_000_000) == Ok(Accepted(45_000_000, 5_000_000))
    ensures FittedRepay(SWEPT, 5_000_000, I128_MAX) == Ok(Some(5_000_000))
    ensures SWEPT_INSOLVENT.Quote(78 * UNIT) == Ok(Accepted(90 * UNIT, 78 * UNIT))
  {
    hide ValueFloor, LiquidationPair.BuysAtIncentive, LiquidationPair.SweepLtvCap, LiquidationPair.SweepPosition, LiquidationPair.DustFloor;
    SweptBuys(SWEPT, 5_000_000);
    SweptBuys(SWEPT_INSOLVENT, 78 * UNIT);
    SweptCap();
    AtPar(45_000_000 - 5_500_000, TestPool("G"));
    AtPar(45_000_000 - 22_477_500, TestPool("G"));
    AtPar(90 * UNIT - 858_000_000, TestPool("G"));
  }

  // ----- Interest accrued since the pool update

  /** The small pair whose borrow pool idled 30 days at a 20% APY, sized for the accrual. */
  const STALE := SMALL.(borrowPool := TestPool("U").(borrowApyBps := 2_000)).AccruingUntil(30 * 86_400)

  /** The same pair on chain, the pool's debt 1.64% above the snapshot. */
  const GROWN := STALE.(borrowPool := STALE.borrowPool.(totalBorrowed := 1_016_400 * UNIT), positionDebt := 10_164_000)

  lemma ThirtyDaysAtTwentyPercent()
    ensures Accrued(2_000, 30 * 86_400) == 165 && Accrued(0, 30 * 86_400) == 0
    ensures STALE.debtAccrualBps == 165 && STALE.supplyAccrualBps == 0
  {
  }

  lemma StaleClearing()
    ensures ClearingOf(STALE) == Ok(Some(Clearing(UNIT, 10_266_650)))
  {
    hide LiquidationPair.Buys, LiquidationPair.IsSmallPosition, LiquidationPair.LiftsCloseFactor, LiquidationPair.PositionCollateral,
         LiquidationPair.SuppliedTokens, Accrued;
    ThirtyDaysAtTwentyPercent();
    FourFiftyIsLive(STALE);
    FixtureCollateral(STALE);
    LiftedBuys(STALE, UNIT);
    LiftedBuys(STALE, 10_165_000);
  }

  /** The padded offer still clears the debt on chain; the exact debt of the stale view does not. */
  lemma AccruedDebtIsCleared()
    ensures GROWN.Quote(10_266_650) == Ok(Accepted(11_180_400, 10_164_000))
    ensures GROWN.Quote(UNIT) == Ok(LeavesDust)
  {
    hide LiquidationPair.Buys, LiquidationPair.IsSmallPosition, LiquidationPair.LiftsCloseFactor, LiquidationPair.PositionCollateral,
         LiquidationPair.DustFloor, ValueFloor, ValueCeil, Accrued;
    FourFiftyIsLive(GROWN);
    FixtureFloor(GROWN);
    LiftedBuys(GROWN, UNIT);
    LiftedBuys(GROWN, 10_164_000);
    AtPar(45_000_000 - 11_000_000, GROWN.collateralPool);
    AtPar(164_000, GROWN.borrowPool);
  }

  /** A dollar's shares at the pool's totals then and now: the pool grew within its APY. */
  lemma StaleGrows()
    ensures GrownView(STALE, GROWN, UNIT, 30 * 86_400) && DebtInRange(STALE, GROWN, UNIT, 30 * 86_400)
    ensures STALE == STALE.AccruingUntil(30 * 86_400)
    ensures STALE.deposit.jTokens == 0 && STALE.collateralPool == TestPool("G")
  {
    ThirtyDaysAtTwentyPercent();
    hide Accrued;
    assert SharesToTokensCeil(UNIT, 1_000_000 * UNIT, 1_000_000 * UNIT) == Ok(UNIT);
    assert SharesToTokensCeil(UNIT, 1_016_400 * UNIT, 1_000_000 * UNIT) == Ok(10_164_000);
  }

  lemma StaleOfferSurvives()
    ensures ClearingOf(STALE) == Ok(Some(Clearing(UNIT, 10_266_650)))
    ensures GROWN.Accepts(10_266_650)
  {
    hide LiquidationPair.Quote, ClearingOf, LiquidationPair.LiftsCloseFactor, GrownView, DebtInRange, Accrued, SupplyEstimateHolds,
         LiquidationPair.AccruingUntil;
    StaleClearing();
    StaleGrows();
    AccruedDebtIsCleared();
    FourFiftyIsLive(STALE);
    FourFiftyIsLive(GROWN);
    PlainCollateralPasses(STALE.collateralPool, 30 * 86_400);
    ClearingSurvivesLinearGrowth(STALE, GROWN, UNIT, 30 * 86_400);
  }

  // ----- A supply that outgrows its estimate

  /** A gold pool one unit short of a token a share, a year behind at 2 basis points. */
  const LAGGING := TestPool("G").(totalSupply := 1_000_000 * UNIT - 1, jTokenRateFloorBps := 9_999, supplyApyBps := 2)

  /** The largest supply it can show after the year. */
  const CAUGHT_UP := LAGGING.(totalSupply := 10_001_999_999_998)

  const SHARES := 900_000_001

  /** An insolvent pair of $95 against those shares, sized for the year. */
  const LAGGED := GoldPair(950_000_000, 0).(collateralPool := LAGGING, deposit := DepositPosition(SHARES, 0, "G"),
                                            obligationCollateralValue := 8_999_100_000_000_000, isInsolvent := true)
                  .AccruingUntil(SECONDS_IN_YEAR)

  const LAGGED_MARKET := TestMarket().(poolsData := [TestPool("U"), LAGGING])
  const LAGGED_OBLIGATION := Obligation([BorrowPosition(950_000_000, "U")], [DepositPosition(SHARES, 0, "G")], 0)

  /** The pair on chain at the end of the year. */
  const OUTGROWN := LAGGED.(collateralPool := CAUGHT_UP)

  /** The supply side of the estimate does fall short: the shares are worth one token more than they
      were estimated to grow to, at a total the pool's own APY allows. */
  lemma SupplyEstimateFallsShort()
    ensures LAGGING.JTokensToTokensFloor(SHARES) == Ok(900_000_000)
    ensures LAGGING.AccrualSinceUpdateBps(SECONDS_IN_YEAR) == (0, 2)
    ensures SupplyEstimate(LAGGING, SHARES, SECONDS_IN_YEAR) == Ok(900_180_000)
    ensures GrownLinearly(LAGGING.totalSupply, CAUGHT_UP.totalSupply, LAGGING.supplyApyBps, Elapsed(LAGGING, SECONDS_IN_YEAR))
    ensures CAUGHT_UP.JTokensToTokensFloor(SHARES) == Ok(900_180_001)
    ensures !SupplyEstimateHolds(LAGGING, SHARES, SECONDS_IN_YEAR)
  {
    assert Accrued(0, SECONDS_IN_YEAR) == 0 && Accrued(2, SECONDS_IN_YEAR) == 2;
    assert MostGrown(LAGGING.totalSupply, 2, SECONDS_IN_YEAR) == 10_001_999_999_998;
  }

  lemma LaggedIsLive()
    ensures Fixture(LAGGED) && Live(LAGGED, 900_000_000, true) && LAGGED.IsSmallPosition() == Ok(false)
    ensures Fixture(OUTGROWN) && Live(OUTGROWN, 900_180_001, true)
    ensures LAGGED.debtAccrualBps == 0 && LAGGED.supplyAccrualBps == 2
    ensures LAGGED.SuppliedTokens() == Ok(900_000_000)
  {
    hide ValueFloor, ValueCeil, LiquidationPair.DustFloor, SharesToTokensFloor, PoolData.AccrualSinceUpdateBps;
    SupplyEstimateFallsShort();
    assert TestPool("U").AccrualSinceUpdateBps(SECONDS_IN_YEAR).0 == 0 by { NoApyNoAccrual(); }
    FixtureFloor(LAGGED);
    AtPar(900_000_000, LAGGED.collateralPool);
    AtPar(950_000_000, LAGGED.borrowPool);
  }

  lemma NoApyNoAccrual()
    ensures TestPool("U").AccrualSinceUpdateBps(SECONDS_IN_YEAR) == (0, 0)
  {
    assert Accrued(0, SECONDS_IN_YEAR) == 0;
  }

  lemma LaggedValues()
    ensures LAGGED_MARKET.PoolOf("U") == Some(TestPool("U")) && LAGGED_MARKET.PoolOf("G") == Some(LAGGING)
    ensures RateDebtValue(LAGGED_MARKET, LAGGED_OBLIGATION.borrows[0]) == Ok(950_000_000 * UNIT)
    ensures RateCollateralValue(LAGGED_MARKET, LAGGED_OBLIGATION.deposits[0]) == Ok(8_999_100_000_000_000)
  {
    hide ValueFloor, ValueCeil;
    assert LAGGED_MARKET.poolsData[1..] == [LAGGING];
    SharesAtOne(950_000_000);
    AtPar(950_000_000, TestPool("U"));
    AtPar(899_910_000, LAGGING);
  }

  /** It is the pair the planner builds for an obligation it finds insolvent. */
  lemma LaggedIsBuilt()
    ensures IsInsolvent(LAGGED_OBLIGATION, LAGGED_MARKET) == Ok(true)
    ensures var pair := PairOf(NoDust, LAGGED_OBLIGATION, LAGGED_MARKET, TestPool("U"), LAGGING, LAGGED_OBLIGATION.deposits[0], true);
            pair.Ok? && pair.value.AccruingUntil(SECONDS_IN_YEAR) == LAGGED
  {
    hide RateDebtValue, RateCollateralValue, FindPool, Total, PoolData.AccrualSinceUpdateBps, SharesToTokensCeil;
    var (market, obligation) := (LAGGED_MARKET, LAGGED_OBLIGATION);
    LaggedValues();
    SharesAtOne(950_000_000);
    TotalOfOne(obligation.borrows[0], b => RateDebtValue(market, b));
    TotalOfOne(obligation.deposits[0], d => RateCollateralValue(market, d));
  }

  /** The clearing offer buys exactly the estimated supply, and no less repaid does. */
  lemma LaggedClearing()
    ensures ClearingOf(LAGGED) == Ok(Some(Clearing(818_181_819, 818_345_455)))
  {
    hide LiquidationPair.Buys, LiquidationPair.IsSmallPosition, LiquidationPair.LiftsCloseFactor, LiquidationPair.PositionCollateral,
         LiquidationPair.SuppliedTokens, LeastBuying;
    LaggedIsLive();
    LiftedBuys(LAGGED, 950_000_000);
    LeastAt(818_181_819, 900_000_000);
    LeastAt(818_345_455, 900_180_000);
    assert FixedMulCeil(900_000_000, 2) == 180_000 && FixedMulCeil(818_345_455, 0) == 0 && FixedMulCeil(950_000_000, 0) == 0;
  }

  lemma LeastAt(repay: int, target: int)
    requires 1 <= repay <= 950_000_000
    requires (repay - 1) * 11_000 / 10_000 < target <= repay * 11_000 / 10_000
    ensures LeastBuying(LAGGED, true, target, 1, 950_000_000) == repay
  {
    hide LiquidationPair.Buys;
    LaggedIsLive();
    LiftedBuys(LAGGED, repay);
    LiftedBuys(LAGGED, 950_000_000);
    forall x | 1 <= x < repay
      ensures LAGGED.Buys(x, true).Ok? && LAGGED.Buys(x, true).value < target
    {
      LiftedBuys(LAGGED, x);
    }
    LeastBuyingUnique(LAGGED, true, target, 950_000_000, repay);
  }

  /** The missing token is enough for the market to refuse the clearing offer: it leaves one token
      of supply behind, and that is dust. */
  lemma OutgrownOfferIsRefused()
    ensures ClearingOf(LAGGED) == Ok(Some(Clearing(818_181_819, 818_345_455)))
    ensures GrownView(LAGGED, OUTGROWN, 950_000_000, SECONDS_IN_YEAR)
    ensures OUTGROWN.LiftsCloseFactor() == Ok(true)
    ensures OUTGROWN.Quote(818_345_455) == Ok(LeavesDust)
  {
    hide LiquidationPair.Buys, LiquidationPair.PositionCollateral, LiquidationPair.AfterRefund, LiquidationPair.DustFloor, ValueFloor, ValueCeil,
         ClearingOf, SharesToTokensFloor, Accrued;
    LaggedClearing();
    LaggedIsLive();
    SupplyEstimateFallsShort();
    FixtureFloor(OUTGROWN);
    LiftedBuys(OUTGROWN, 818_345_455);
    AtPar(1, CAUGHT_UP);
    RefundsNothing();
    assert SharesToTokensCeil(950_000_000, 1_000_000 * UNIT, 1_000_000 * UNIT) == Ok(950_000_000);
  }

  lemma RefundsNothing()
    ensures OUTGROWN.AfterRefund(900_180_000, 900_180_001, 818_345_455) == Ok(818_345_455)
  {
  }

  // ----- A repay the fit misses

  /** Debt at a hundred units a token; collateral at one, accruing a basis point. */
  function CoarseMarket(): MarketData {
    MarketData(9_850, [TestPool("U").(tokenDecimals := 0, oracleAssetPrice := 100),
                       TestPool("G").(tokenDecimals := 0, oracleAssetPrice := 1, supplyApyBps := 1)], 0, 5_500)
  }

  /** Three tokens of debt against 110 supplied and three plain ones, at a floor of 55. */
  function CoarseObligation(): Obligation {
    Obligation([BorrowPosition(3, "U")], [DepositPosition(110, 0, "G"), DepositPosition(0, 3, "U")], 0)
  }

  /** The pair of the debt with the supply: neither side is small, so the close factor of 50% binds. */
  const COARSE := LiquidationPair(NoDust, CoarseMarket().poolsData[0], CoarseMarket().poolsData[1], DepositPosition(110, 0, "G"), 3,
                                  300, 410, false, 5_500, 0, 0, 1, INITIAL_MARGIN)

  lemma CoarseValues()
    ensures var market := CoarseMarket();
            && market.PoolOf("U") == Some(COARSE.borrowPool) && market.PoolOf("G") == Some(COARSE.collateralPool)
            && RateDebtValue(market, CoarseObligation().borrows[0]) == Ok(300)
            && RateCollateralValue(market, CoarseObligation().deposits[0]) == Ok(110)
            && RateCollateralValue(market, CoarseObligation().deposits[1]) == Ok(300)
  {
    assert Pow10(0) == 1;
    assert CoarseMarket().poolsData[1..] == [COARSE.collateralPool];
  }

  /** It is the pair the planner builds a second after the pools' update. */
  lemma CoarseIsBuilt()
    ensures IsInsolvent(CoarseObligation(), CoarseMarket()) == Ok(false)
    ensures var pair := PairOf(NoDust, CoarseObligation(), CoarseMarket(), COARSE.borrowPool, COARSE.collateralPool, COARSE.deposit, false);
            pair.Ok? && pair.value.AccruingUntil(1) == COARSE
  {
    hide RateDebtValue, RateCollateralValue, FindPool;
    var (market, obligation) := (CoarseMarket(), CoarseObligation());
    CoarseValues();
    TotalOfOne(obligation.borrows[0], b => RateDebtValue(market, b));
    assert obligation.deposits[1..] == [obligation.deposits[1]] && obligation.deposits[1..][1..] == [];
    assert ObligationCollateralValue(obligation, market) == Ok(410);
    assert SharesToTokensCeil(3, 1_000_000 * UNIT, 1_000_000 * UNIT) == Ok(3);
    assert Accrued(1, 1) == 1 && Accrued(0, 1) == 0;
    assert MulDivCeil(300, BPS_FACTOR, 410) == Ok(7_318);
  }

  lemma CoarseIsLive()
    ensures Live(COARSE, 110, false) && COARSE.DustFloor() == Ok(55) && COARSE.IsSmallPosition() == Ok(false)
    ensures COARSE.SuppliedTokens() == Ok(110)
    ensures WithinCap(COARSE, 1, false)
  {
    assert Pow10(0) == 1;
  }

  lemma CoarseBuys()
    ensures COARSE.Buys(1, false) == Ok(110) && COARSE.Buys(2, false) == Ok(220) && COARSE.Buys(3, false) == Ok(330)
  {
    assert Pow10(0) == 1;
  }

  lemma CoarseClearing()
    ensures ClearingOf(COARSE) == Ok(Some(Clearing(1, 2)))
  {
    hide LiquidationPair.Buys, LiquidationPair.IsSmallPosition, LiquidationPair.LiftsCloseFactor, LiquidationPair.PositionCollateral,
         LiquidationPair.SuppliedTokens;
    CoarseIsLive();
    CoarseBuys();
    assert Grown(3, 0) == Ok(3) && Grown(110, 1) == Ok(111) && Grown(2, 0) == Ok(2);
    assert LeastBuying(COARSE, false, 110, 1, 3) == 1;
    assert LeastBuying(COARSE, false, 111, 2, 3) == 2;
  }

  lemma CoarseIsPlanned()
    ensures PlannedRepay(COARSE, 0) == Ok(Some(1))
  {
    hide LiquidationPair.LiftsCloseFactor, LiquidationPair.PositionCollateral;
    CoarseIsLive();
    assert Pow10(0) == 1;
  }

  /** When the close factor binds, the fit can miss an acceptable repay: the market would take the
      planned repay of 1 and hand out 110 units for 100, but it is padded to 2, over the close factor,
      and 1 does not keep both sides. So the initiator sees no acceptable pair there. */
  lemma PaddingMissesARepay()
    ensures PlannedRepay(COARSE, 0) == Ok(Some(1))
    ensures COARSE.Quote(1) == Ok(Accepted(110, 1))
    ensures COARSE.Quote(2) == Ok(OverCloseFactor)
    ensures DirectRepay(COARSE, 0) == Ok(None)
    ensures IsAcceptablePair(COARSE, 0) == Ok(false)
  {
    hide LiquidationPair.Buys, LiquidationPair.IsSmallPosition, LiquidationPair.LiftsCloseFactor, LiquidationPair.PositionCollateral,
         LiquidationPair.DustFloor, ClearingOf, PlannedRepay;
    CoarseIsLive();
    CoarseBuys();
    CoarseClearing();
    CoarseIsPlanned();
    assert KeepsBothSides(COARSE, 1, 3, 110, false, 55) == Ok(false);
  }

  // ----- The close factor at twice the floor

  /** $10.50 of gold against $10: neither side is small, so close factor and LTV cap bind. */
  const TWICE := GoldPair(10 * UNIT, 105_000_000)

  lemma TwiceIsLive()
    ensures Live(TWICE, 105_000_000, false) && TWICE.IsSmallPosition() == Ok(false)
  {
    hide ValueFloor, ValueCeil, LiquidationPair.DustFloor, LiquidationPair.PositionCollateral;
    FixtureFloor(TWICE);
    FixtureCollateral(TWICE);
    AtPar(105_000_000, TestPool("G"));
    AtPar(10 * UNIT, TestPool("U"));
  }

  lemma TwiceArithmetic()
    ensures MulDiv(5 * UNIT, 11_000, BPS_FACTOR) == Ok(55_000_000)
    ensures MulDiv(5 * UNIT * UNIT, 105_000_000 * UNIT, 10 * UNIT * UNIT) == Ok(52_500_000 * UNIT)
    ensures MulDiv(52_500_000 * UNIT, 999, 1000) == Ok(52_447_500 * UNIT)
  {
  }

  lemma TwiceBuysHalf()
    ensures TWICE.Buys(5 * UNIT, false) == Ok(52_447_500)
  {
    hide ValueFloor, AmountFloor, MulDiv;
    TwiceArithmetic();
    AtPar(5 * UNIT, TestPool("U"));
    AtPar(5 * UNIT, TestPool("G"));
    AtPar(52_447_500, TestPool("G"));
  }

  /** $5 repaid leaves both sides at the floor; one unit more is over the close factor. */
  lemma CloseFactorBindsAtTwiceTheFloor()
    ensures TWICE.Quote(5 * UNIT) == Ok(Accepted(52_447_500, 5 * UNIT))
    ensures TWICE.Quote(5 * UNIT + 1) == Ok(OverCloseFactor)
  {
    hide LiquidationPair.Buys, LiquidationPair.IsSmallPosition, LiquidationPair.LiftsCloseFactor, LiquidationPair.PositionCollateral,
         LiquidationPair.DustFloor, ValueFloor, ValueCeil;
    TwiceIsLive();
    TwiceBuysHalf();
    FixtureFloor(TWICE);
    AtPar(105_000_000 - 52_447_500, TestPool("G"));
    AtPar(5 * UNIT, TestPool("U"));
  }

  /** There the general results hold with these numbers: the seized share of the collateral is under
      0.999 of the repaid share of the debt, and $5 is the last repay within the cap. */
  lemma TwiceMeetsTheTheorems()
    ensures 52_447_500 * CollateralUnit(TWICE) * (TWICE.obligationDebtValue * 1000)
         <= 5 * UNIT * BorrowUnit(TWICE) * (TWICE.obligationCollateralValue * 999)
    ensures WithinCap(TWICE, 5 * UNIT, false) && !WithinCap(TWICE, 5 * UNIT + 1, false)
  {
    hide LiquidationPair.Quote, LiquidationPair.LiftsCloseFactor, LiquidationPair.PositionCollateral;
    TwiceIsLive();
    CloseFactorBindsAtTwiceTheFloor();
    LtvNeverWorsens(TWICE, 5 * UNIT);
    OverCloseFactorIff(TWICE, 5 * UNIT + 1, 105_000_000, false);
    CapNeverOverCloseFactor(TWICE, 5 * UNIT, 105_000_000, false);
  }

  // ----- Who deals with the small position

  const KEEPER := Keeper("X", 0, NoDust, 0, 50, [], [],
                         (token: string) => Ok(2 * UNIT),
                         (amount: int, assetIn: string, assetOut: string, provider: string) => Err(InternalError),
                         (amount: int, assetIn: string, assetOut: string, provider: string) => Err(InternalError))

  lemma SmallIsPlannedWhole(p: LiquidationPair)
    requires p == SMALL || p == SUPPLIED
    ensures PlannedRepay(p, 0) == Ok(Some(UNIT))
  {
    hide LiquidationPair.LiftsCloseFactor, LiquidationPair.PositionCollateral;
    FourFiftyIsLive(p);
    Powers();
  }

  lemma SmallIsAcceptable(p: LiquidationPair)
    requires p == SMALL || p == SUPPLIED
    ensures DirectRepay(p, 0) == Ok(Some(10_100_000))
    ensures IsAcceptablePair(p, 0) == Ok(true)
  {
    hide PlannedRepay, FittedRepay, LiquidationPair.Quote;
    SmallIsPlannedWhole(p);
    SmallPositionNeedsItsWholeDebt(p);
    Powers();
  }

  /** A wallet of $2 is enough for the Direct plan the initiator counts on: it nets ten cents. */
  lemma SmallIsPlannedByTheLiquidator(p: LiquidationPair)
    requires p == SMALL || p == SUPPLIED
    ensures IsAcceptablePair(p, 0) == Ok(true)
    ensures DirectCandidate(p, UNIT, 2 * UNIT, 0)
         == Some(LiquidationPlan(10_100_000, 1_000_000 * UNIT, 11_000_000, Direct, "U", "G"))
  {
    hide DirectRepay, PlannedRepay, IsAcceptablePair, LiquidationPair.Quote, FittedRepay, ClearingOf, ComputeSeized;
    SmallIsPlannedWhole(p);
    SmallIsAcceptable(p);
    SmallClearing(p);
    FourFiftyIsLive(p);
    SmallQuotes(p);
    Powers();
    AcceptableIsPlanned(KEEPER, p, 2 * UNIT);
    DirectPlanHonoured(p, 10_100_000, 0);
    assert SaturatingValue(11_000_000, TestPool("G")) - SaturatingValue(UNIT, TestPool("U")) == 1_000_000 * UNIT;
    assert MinProfitMarginValue(0, 14) == 0;
  }

  /** At a minimum margin of fifteen cents the same repay, which nets ten, is no plan. */
  lemma TenCentsAreNoPlanAtFifteen()
    ensures DirectPlan(SMALL, 10_100_000, MinProfitMarginValue(0, 14)).Some?
    ensures DirectPlan(SMALL, 10_100_000, MinProfitMarginValue(15, 14)).None?
  {
    hide LiquidationPair.Quote, ComputeSeized;
    SmallQuotes(SMALL);
    QuoteIgnoresAccrual(SMALL, 10_100_000);
    assert ComputeSeized(SMALL, 10_100_000) == Some((11_000_000, UNIT)) by { SmallSeized(); }
    Powers();
    assert MinProfitMarginValue(15, 14) == 15_000_000_000_000 && MinProfitMarginValue(0, 14) == 0;
    assert PlanValue(11_000_000, TestPool("G")) == Some(110_000_000_000_000);
    assert PlanValue(UNIT, TestPool("U")) == Some(100_000_000_000_000);
  }

  lemma SmallSeized()
    ensures ComputeSeized(SMALL, 10_100_000) == Some((11_000_000, UNIT))
  {
    hide LiquidationPair.Quote;
    SmallQuotes(SMALL);
    QuoteIgnoresAccrual(SMALL, 10_100_000);
  }

  /** The supplied pair is acceptable to the initiator and has a Direct candidate for a $2 wallet, yet
      its pool is past the utilization limit, so flash sizing gives the pair up and `BuildPlan`
      returns no plan: neither strategy acts. */
  lemma FlashSizingDropsADirectPlan()
    ensures IsAcceptablePair(SUPPLIED, 0) == Ok(true)
    ensures DirectCandidate(SUPPLIED, UNIT, 2 * UNIT, 0).Some?
    ensures Instant(SUPPLIED) == Ok(0)
    ensures FlashSizing(SUPPLIED, true, MaxFeasible(SUPPLIED, true), MarginTokens(SUPPLIED, 0)).None?
  {
    hide DirectCandidate, PlannedRepay, IsAcceptablePair, FlashSizing, LiquidationPair.LiftsCloseFactor, BacksOnlyTheMargin,
         MaxFeasible, MarginTokens, Instant;
    SmallIsPlannedWhole(SUPPLIED);
    SmallIsPlannedByTheLiquidator(SUPPLIED);
    FourFiftyIsLive(SUPPLIED);
    NothingInstant();
    FlashSizingGivesUp(SUPPLIED, 0);
  }

  lemma NothingInstant()
    ensures SUPPLIED.borrowPool.IsFlashLoanEnabled() && Instant(SUPPLIED) == Ok(0)
  {
    hide LiquidationPair.SuppliedTokens, LiquidationPair.PositionCollateral;
    FixtureCollateral(SUPPLIED);
  }

  lemma FixturePools()
    ensures TestMarket().PoolOf("U") == Some(TestPool("U")) && TestMarket().PoolOf("G") == Some(TestPool("G"))
  {
    assert TestMarket().poolsData[1..] == [TestPool("G")];
  }

  /** Shares of the fixture pools are worth one token each, through the rates and exactly. */
  lemma SharesAtOne(shares: int)
    requires 0 <= shares <= 1_000 * UNIT
    ensures FixedMulCeil(shares, 10_000) == shares && FixedMulFloor(0, 10_000) == 0
    ensures TestPool("U").DTokensToTokensCeil(shares) == Ok(shares)
  {
  }

  lemma FixturePositions(debt: int, gold: int)
    requires 0 <= debt <= 1_000 * UNIT && 0 <= gold <= 1_000 * UNIT
    ensures RateDebtValue(TestMarket(), BorrowPosition(debt, "U")) == Ok(debt * UNIT)
    ensures ExactDebtValue(TestMarket(), BorrowPosition(debt, "U")) == Ok(debt * UNIT)
    ensures RateCollateralValue(TestMarket(), DepositPosition(0, gold, "G")) == Ok(gold * UNIT)
    ensures SeizableValue(TestMarket(), DepositPosition(0, gold, "G")) == Ok(gold * UNIT)
  {
    hide ValueFloor, ValueCeil, FindPool, FixedMulCeil, FixedMulFloor, SharesToTokensCeil;
    FixturePools();
    SharesAtOne(debt);
    AtPar(debt, TestPool("U"));
    AtPar(gold, TestPool("G"));
  }

  lemma FixtureValues(debt: int, gold: int)
    requires 0 <= debt <= 1_000 * UNIT && 0 <= gold <= 1_000 * UNIT
    ensures ObligationDebtValue(Borrower(debt, gold), TestMarket()) == ExactDebtTotal(Borrower(debt, gold), TestMarket()) == Ok(debt * UNIT)
    ensures ObligationCollateralValue(Borrower(debt, gold), TestMarket()) == SeizableTotal(Borrower(debt, gold), TestMarket()) == Ok(gold * UNIT)
  {
    hide RateDebtValue, ExactDebtValue, RateCollateralValue, SeizableValue;
    FixturePositions(debt, gold);
    var borrow, deposit, market := BorrowPosition(debt, "U"), DepositPosition(0, gold, "G"), TestMarket();
    TotalOfOne(borrow, b => RateDebtValue(market, b));
    TotalOfOne(borrow, b => ExactDebtValue(market, b));
    TotalOfOne(deposit, d => RateCollateralValue(market, d));
    TotalOfOne(deposit, d => SeizableValue(market, d));
  }

  lemma FixtureBacked(debt: int, gold: int)
    requires 0 <= debt <= 1_000 * UNIT && 0 <= gold
    ensures Backed(Borrower(debt, gold), TestMarket()) && Unsaturated(Borrower(debt, gold), TestMarket())
    ensures forall pool :: pool in TestMarket().poolsData ==> Weighing(pool)
  {
    FixturePools();
  }

  /** $4.50 against a dollar is solvent dust: not eligible for cover, its collateral covering its
      debt, and the liquidator's gate is open to it. */
  lemma SolventDustIsLeftToLiquidation(now: nat)
    ensures IsInsolvent(Borrower(UNIT, 45_000_000), TestMarket()) == Ok(false)
    ensures IsEligibleForCover(NoDust, Borrower(UNIT, 45_000_000), TestMarket(), 0, now) == Ok(false)
    ensures IsLiquidatable(Borrower(UNIT, 45_000_000), TestMarket(), NoDust) == Ok(true)
  {
    hide ObligationDebtValue, ObligationCollateralValue, ExactDebtTotal, SeizableTotal, FindPool, Backed,
         SeizableCollateralCoversDebt, HasAcceptableLiquidation, AllUnderFloor, WeightedDebt, WeightedCollateral, HoldsCollateral;
    var obligation, market := Borrower(UNIT, 45_000_000), TestMarket();
    FixtureValues(UNIT, 45_000_000);
    FixtureBacked(UNIT, 45_000_000);
    SolventIsCovered(obligation, market);
    DustUnderFloor();
    DustWeights();
    Powers();
  }

  lemma DustUnderFloor()
    ensures AllUnderFloor(Borrower(UNIT, 45_000_000).deposits, TestMarket(), FLOOR) == Ok(true)
  {
    hide FindPool;
    FixturePools();
    Powers();
    assert Borrower(UNIT, 45_000_000).deposits[1..] == [];
  }

  lemma PlainIsHeld(amount: int)
    requires amount >= 0
    ensures HeldDeposit(DepositPosition(0, amount, "G"), TestMarket())
  {
    hide FindPool;
  }

  /** It meets the conditions under which the gate never shuts: the fixture floor is whole. */
  lemma DustMeetsTheGate()
    ensures SmallAndOwing(Borrower(UNIT, 45_000_000), TestMarket(), FLOOR) && WholeFloor(TestMarket())
    ensures CentsToOracleValueCeil(500, 14) == Ok(FLOOR)
    ensures forall pool :: pool in TestMarket().poolsData ==> Weighing(pool)
  {
    hide AllUnderFloor, FindPool, WholeFloor, HasAnyCollateral, Weighing, HeldDeposit, Total, Pow10;
    Powers();
    FixturePools();
    FixtureBacked(UNIT, 45_000_000);
    assert HeldDeposit(DepositPosition(0, 45_000_000, "G"), TestMarket()) by { PlainIsHeld(45_000_000); }
    DustUnderFloor();
    DustWeights();
    WholeFromTwoDecimals(TestMarket());
    assert Owed(Borrower(UNIT, 45_000_000).borrows[0], TestMarket());
  }

  /** A dollar of debt, and 80% of $4.50. */
  lemma DustWeights()
    ensures Total(Borrower(UNIT, 45_000_000).borrows, b => WeightedDebt(TestMarket(), b), 0) == Ok(USD)
    ensures Total(Borrower(UNIT, 45_000_000).deposits, d => WeightedCollateral(TestMarket(), d), 0) == Ok(360_000_000_000_000)
    ensures HasAnyCollateral(Borrower(UNIT, 45_000_000), TestMarket())
  {
    hide WeightedDebt, WeightedCollateral, HoldsCollateral, Total;
    var obligation, market := Borrower(UNIT, 45_000_000), TestMarket();
    DustPositions();
    TotalOfOne(obligation.borrows[0], b => WeightedDebt(market, b));
    TotalOfOne(obligation.deposits[0], d => WeightedCollateral(market, d));
  }

  lemma DustPositions()
    ensures WeightedDebt(TestMarket(), BorrowPosition(UNIT, "U")) == Ok(USD)
    ensures WeightedCollateral(TestMarket(), DepositPosition(0, 45_000_000, "G")) == Ok(360_000_000_000_000)
    ensures HoldsCollateral(TestMarket(), DepositPosition(0, 45_000_000, "G"))
  {
    hide FindPool, ValueFloor, ValueCeil;
    FixturePools();
    AtPar(UNIT, TestPool("U"));
    AtPar(45_000_000, TestPool("G"));
  }
}
