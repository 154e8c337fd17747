/** Whether an obligation is left to liquidation or put up for bad-debt cover. */
module BadDebt {
  import opened Arithmetic
  import opened Pool
  import opened Market
  import opened Profitability
  import opened Liquidation
  import opened RepaySizing
  import opened Insolvency

  /** The pair the keeper builds for a borrow and a deposit of an obligation. */
  function PairOf(
    rules: DustRules,
    obligation: Obligation,
    market: MarketData,
    borrowPool: PoolData,
    collateralPool: PoolData,
    deposit: DepositPosition,
    isInsolvent: bool): Result<LiquidationPair>
  {
    var borrow := FindBorrow(obligation.borrows, borrowPool.poolAddress);
    if borrow.None? then Err(InternalError)
    else
      var debt :- borrowPool.DTokensToTokensCeil(borrow.value.dTokens);
      var debtValue :- ObligationDebtValue(obligation, market);
      var collateralValue :- ObligationCollateralValue(obligation, market);
      Ok(LiquidationPair(
           rules, borrowPool, collateralPool, deposit, debt, debtValue, collateralValue, isInsolvent,
           market.minCollateralValueCents, market.oraclePriceDecimals, 0, 0, INITIAL_MARGIN))
  }

  // ----- The Direct plan with unlimited capital

  /** The repay the keeper plans before fitting it: feasible, profitable and positive, or none. */
  function PlannedRepay(p: LiquidationPair, minProfitMarginCents: int): Result<Option<int>> {
    var lifted :- p.LiftsCloseFactor();
    var maxFeasible := Min(p.positionDebt, CloseFactorRepayCap(lifted, p.positionDebt, p.borrowPool.liquidationCloseFactorBps));
    var collateral :- p.PositionCollateral();
    if maxFeasible <= 0 || collateral <= 0 then Ok(None)
    else
      var margin := ProfitMarginInBorrowToken(minProfitMarginCents, p.oraclePriceDecimals, p.borrowPool);
      var cap := RepayCapFromCollateral(
        !lifted, p.borrowPool, maxFeasible, p.collateralPool, collateral, p.obligationDebtValue,
        if margin.Ok? then margin.value else 0, p.obligationCollateralValue);
      Ok(if cap.Ok? && cap.value > 0 then Some(cap.value) else None)
  }

  function DirectRepay(p: LiquidationPair, minProfitMarginCents: int): Result<Option<int>> {
    var planned :- PlannedRepay(p, minProfitMarginCents);
    if planned.None? then Ok(None) else FittedRepay(p, planned.value, I128_MAX)
  }

  /** A token amount's value with saturating intermediates. */
  function SaturatingValue(amount: int, pool: PoolData): int {
    Clamp(Quot(Clamp(amount * pool.oracleAssetPrice), Clamp(Pow10(pool.tokenDecimals))))
  }

  function MinProfitMarginValue(minProfitMarginCents: int, oraclePriceDecimals: nat): int {
    Quot(Clamp(minProfitMarginCents * Clamp(Pow10(oraclePriceDecimals))), 100)
  }

  function NetsMoreThan(p: LiquidationPair, seized: int, repaid: int, minProfitMarginCents: int): bool {
    var profit := LiquidationProfit(SaturatingValue(seized, p.collateralPool), SaturatingValue(repaid, p.borrowPool),
                                    MinProfitMarginValue(minProfitMarginCents, p.oraclePriceDecimals));
    profit.Ok? && profit.value.isAcceptable
  }

  /** The pair has a plan that seizes something, burns a debt share and nets enough. */
  function IsAcceptablePair(p: LiquidationPair, minProfitMarginCents: int): Result<bool> {
    var repay :- DirectRepay(p, minProfitMarginCents);
    if repay.None? then Ok(false)
    else
      var verdict :- p.Quote(repay.value);
      match verdict
      case Accepted(seized, repaid) =>
        if seized <= 0 then Ok(false)
        else
          var burns :- BurnsShare(p, repaid);
          Ok(burns && NetsMoreThan(p, seized, repaid, minProfitMarginCents))
      case _ => Ok(false)
  }

  function BurnsShare(p: LiquidationPair, repaid: int): Result<bool> {
    if repaid == p.positionDebt then Ok(true)
    else
      var shares :- p.borrowPool.TokensToDTokensFloor(repaid);
      Ok(shares > 0)
  }

  /** Whether the liquidator would take this deposit for this borrow; a pair in one pool, or whose
      collateral is not seizable, is passed over. */
  function PairVerdict(
    obligation: Obligation, market: MarketData, isInsolvent: bool, borrowPool: PoolData, deposit: DepositPosition,
    minProfitMarginCents: int, now: nat): Result<bool>
  {
    var collateralPool :- PoolOrError(market, deposit.poolAddress);
    if collateralPool.poolAddress == borrowPool.poolAddress || collateralPool.closeLtvBps <= 0 then Ok(false)
    else
      var pair :- PairOf(NoDust, obligation, market, borrowPool, collateralPool, deposit, isInsolvent);
      IsAcceptablePair(pair.AccruingUntil(now), minProfitMarginCents)
  }

  function DepositsAcceptable(
    obligation: Obligation, market: MarketData, isInsolvent: bool, borrowPool: PoolData,
    deposits: seq<DepositPosition>, minProfitMarginCents: int, now: nat): Result<bool>
  {
    if deposits == [] then Ok(false)
    else
      var acceptable :- PairVerdict(obligation, market, isInsolvent, borrowPool, deposits[0], minProfitMarginCents, now);
      if acceptable then Ok(true)
      else DepositsAcceptable(obligation, market, isInsolvent, borrowPool, deposits[1..], minProfitMarginCents, now)
  }

  function BorrowsAcceptable(
    obligation: Obligation, market: MarketData, isInsolvent: bool,
    borrows: seq<BorrowPosition>, minProfitMarginCents: int, now: nat): Result<bool>
  {
    if borrows == [] then Ok(false)
    else
      var borrowPool :- PoolOrError(market, borrows[0].poolAddress);
      var acceptable :- DepositsAcceptable(obligation, market, isInsolvent, borrowPool, obligation.deposits, minProfitMarginCents, now);
      if acceptable then Ok(true)
      else BorrowsAcceptable(obligation, market, isInsolvent, borrows[1..], minProfitMarginCents, now)
  }

  /** Every pool the obligation touches is in the snapshot. */
  predicate FullyPriced(obligation: Obligation, market: MarketData) {
    && (forall b :: b in obligation.borrows ==> market.PoolOf(b.poolAddress).Some?)
    && (forall d :: d in obligation.deposits ==> market.PoolOf(d.poolAddress).Some?)
  }

  /** Some pair of a fully priced obligation has an acceptable Direct plan. */
  function HasAcceptableLiquidation(obligation: Obligation, market: MarketData, minProfitMarginCents: int, now: nat): Result<bool> {
    if !FullyPriced(obligation, market) then Ok(false)
    else
      var isInsolvent :- IsInsolvent(obligation, market);
      BorrowsAcceptable(obligation, market, isInsolvent, obligation.borrows, minProfitMarginCents, now)
  }

  // ----- Eligibility for cover

  /** Every deposit is priced and worth at most the floor. */
  function AllUnderFloor(deposits: seq<DepositPosition>, market: MarketData, floor: int): Result<bool> {
    if deposits == [] then Ok(true)
    else
      var pool := market.PoolOf(deposits[0].poolAddress);
      if pool.None? then Ok(false)
      else
        var supplied :- pool.value.JTokensToTokensCeil(deposits[0].jTokens);
        var tokens :- Checked(supplied + deposits[0].collateral);
        var product :- Checked(tokens * pool.value.oracleAssetPrice);
        var factor :- CheckedPow10(pool.value.tokenDecimals);
        if Clamp(Quot(product, factor)) > floor then Ok(false)
        else AllUnderFloor(deposits[1..], market, floor)
  }

  function IsEligibleForCover(
    rules: DustRules, obligation: Obligation, market: MarketData, minProfitMarginCents: int, now: nat): Result<bool>
  {
    if obligation.borrows == [] || obligation.openBadDebtRequests > 0 then Ok(false)
    else if obligation.deposits == [] then Ok(true)
    else
      var floor :- CentsToOracleValueCeil(market.minCollateralValueCents, market.oraclePriceDecimals);
      var under :- AllUnderFloor(obligation.deposits, market, floor);
      if !under then Ok(false)
      else if rules.Sweep? then Ok(true)
      else
        var covered :- SeizableCollateralCoversDebt(obligation, market);
        if covered then Ok(false)
        else
          var acceptable :- HasAcceptableLiquidation(obligation, market, minProfitMarginCents, now);
          Ok(!acceptable)
  }

  // ----- What the scan over pairs decides

  lemma {:induction false} NoDepositAcceptableIff(
    obligation: Obligation, market: MarketData, isInsolvent: bool, borrowPool: PoolData,
    deposits: seq<DepositPosition>, minProfitMarginCents: int, now: nat)
    ensures DepositsAcceptable(obligation, market, isInsolvent, borrowPool, deposits, minProfitMarginCents, now) == Ok(false) <==>
              forall d :: d in deposits ==>
                PairVerdict(obligation, market, isInsolvent, borrowPool, d, minProfitMarginCents, now) == Ok(false)
  {
    hide PairVerdict;
    if deposits != [] {
      var verdict := PairVerdict(obligation, market, isInsolvent, borrowPool, deposits[0], minProfitMarginCents, now);
      assert verdict.Ok? ==> verdict == Ok(verdict.value);
      assert deposits == [deposits[0]] + deposits[1..];
      NoDepositAcceptableIff(obligation, market, isInsolvent, borrowPool, deposits[1..], minProfitMarginCents, now);
    }
  }

  /** Every pair of the borrow with a deposit of the obligation is judged, and none taken. */
  predicate TakesNone(
    obligation: Obligation, market: MarketData, isInsolvent: bool, borrow: BorrowPosition, minProfitMarginCents: int, now: nat)
  {
    && market.PoolOf(borrow.poolAddress).Some?
    && forall d :: d in obligation.deposits ==>
         PairVerdict(obligation, market, isInsolvent, market.PoolOf(borrow.poolAddress).value, d, minProfitMarginCents, now) == Ok(false)
  }

  lemma BorrowTakesNoneIff(
    obligation: Obligation, market: MarketData, isInsolvent: bool, borrow: BorrowPosition, minProfitMarginCents: int, now: nat)
    ensures var found := PoolOrError(market, borrow.poolAddress);
            && (TakesNone(obligation, market, isInsolvent, borrow, minProfitMarginCents, now) ==> found.Ok?)
            && (found.Ok? ==>
                  var verdict := DepositsAcceptable(obligation, market, isInsolvent, found.value, obligation.deposits, minProfitMarginCents, now);
                  && (verdict == Ok(false) <==> TakesNone(obligation, market, isInsolvent, borrow, minProfitMarginCents, now))
                  && (verdict.Ok? ==> verdict == Ok(verdict.value)))
  {
    hide PairVerdict, DepositsAcceptable, FindPool;
    if market.PoolOf(borrow.poolAddress).Some? {
      NoDepositAcceptableIff(obligation, market, isInsolvent, market.PoolOf(borrow.poolAddress).value, obligation.deposits, minProfitMarginCents, now);
    }
  }

  lemma {:induction false} NoBorrowAcceptableIff(
    obligation: Obligation, market: MarketData, isInsolvent: bool, borrows: seq<BorrowPosition>, minProfitMarginCents: int, now: nat)
    ensures BorrowsAcceptable(obligation, market, isInsolvent, borrows, minProfitMarginCents, now) == Ok(false) <==>
              forall b :: b in borrows ==> TakesNone(obligation, market, isInsolvent, b, minProfitMarginCents, now)
  {
    hide PairVerdict, DepositsAcceptable, FindPool, TakesNone;
    if borrows != [] {
      assert borrows == [borrows[0]] + borrows[1..];
      BorrowTakesNoneIff(obligation, market, isInsolvent, borrows[0], minProfitMarginCents, now);
      NoBorrowAcceptableIff(obligation, market, isInsolvent, borrows[1..], minProfitMarginCents, now);
    }
  }

  // ----- When a solvent obligation is eligible

  /** Nothing but the cover and pair tests stands between the obligation and eligibility. */
  predicate UnderFloorWithoutRequest(obligation: Obligation, market: MarketData) {
    && obligation.openBadDebtRequests == 0
    && var floor := CentsToOracleValueCeil(market.minCollateralValueCents, market.oraclePriceDecimals);
    && floor.Ok?
    && AllUnderFloor(obligation.deposits, market, floor.value) == Ok(true)
  }

  /** The cover test's `false`, for a solvent obligation: the exact debt cannot be computed, or exceeds
      the seizable collateral. */
  predicate FallsShort(obligation: Obligation, market: MarketData) {
    || ExactDebtTotal(obligation, market).Err?
    || (&& SeizableTotal(obligation, market).Ok?
        && SeizableTotal(obligation, market).value < ExactDebtTotal(obligation, market).value)
  }

  /** A solvent obligation with debt is eligible on a no-dust market exactly when it has no open
      request and every deposit under the floor, its collateral falls short of its exact debt or that
      debt cannot be computed, and every pair is judged without error and not taken. */
  lemma SolventEligibleIff(obligation: Obligation, market: MarketData, minProfitMarginCents: int, now: nat)
    requires Backed(obligation, market)
    requires IsInsolvent(obligation, market) == Ok(false)
    requires ObligationDebtValue(obligation, market).value > 0
    ensures IsEligibleForCover(NoDust, obligation, market, minProfitMarginCents, now) == Ok(true) <==>
              && UnderFloorWithoutRequest(obligation, market)
              && FallsShort(obligation, market)
              && forall b :: b in obligation.borrows ==> TakesNone(obligation, market, false, b, minProfitMarginCents, now)
  {
    hide SeizableCollateralCoversDebt, AllUnderFloor, ExactDebtTotal, SeizableTotal, ObligationDebtValue, Backed, TakesNone,
         CentsToOracleValueCeil, BorrowsAcceptable, IsInsolvent, FindPool;
    SolventUncoveredIff(obligation, market);
    NoBorrowAcceptableIff(obligation, market, false, obligation.borrows, minProfitMarginCents, now);
    SolventHoldsDeposits(obligation, market);
    SolventIsPriced(obligation, market);
    ResultsAreTheirValues(obligation, market, minProfitMarginCents, now);
  }

  lemma SolventHoldsDeposits(obligation: Obligation, market: MarketData)
    requires IsInsolvent(obligation, market) == Ok(false)
    requires ObligationDebtValue(obligation, market).value > 0
    ensures obligation.deposits != [] && obligation.borrows != []
  {
    hide RateDebtValue, RateCollateralValue, MulDivCeil;
  }

  lemma SolventIsPriced(obligation: Obligation, market: MarketData)
    requires IsInsolvent(obligation, market) == Ok(false)
    requires ObligationDebtValue(obligation, market).value > 0
    ensures FullyPriced(obligation, market)
  {
    hide FindPool, MulDivCeil, ValueFloor, ValueCeil, FixedMulFloor, FixedMulCeil;
    forall b | b in obligation.borrows
      ensures market.PoolOf(b.poolAddress).Some?
    {
      TotalOkEach(obligation.borrows, x => RateDebtValue(market, x), 0, b);
    }
    forall d | d in obligation.deposits
      ensures market.PoolOf(d.poolAddress).Some?
    {
      TotalOkEach(obligation.deposits, x => RateCollateralValue(market, x), 0, d);
    }
  }

  lemma ResultsAreTheirValues(obligation: Obligation, market: MarketData, minProfitMarginCents: int, now: nat)
    ensures var covered := SeizableCollateralCoversDebt(obligation, market); covered.Ok? ==> covered == Ok(covered.value)
    ensures var taken := HasAcceptableLiquidation(obligation, market, minProfitMarginCents, now); taken.Ok? ==> taken == Ok(taken.value)
    ensures var floor := CentsToOracleValueCeil(market.minCollateralValueCents, market.oraclePriceDecimals);
            floor.Ok? ==>
              var under := AllUnderFloor(obligation.deposits, market, floor.value);
              under.Ok? ==> under == Ok(under.value)
  {
    hide SeizableCollateralCoversDebt, HasAcceptableLiquidation, AllUnderFloor, CentsToOracleValueCeil;
  }

  /** A pair of a borrow whose debt cannot be computed is an error unless both are in one pool. */
  lemma UncomputablePairErrs(
    obligation: Obligation, market: MarketData, isInsolvent: bool, borrow: BorrowPosition, d: DepositPosition, minProfitMarginCents: int, now: nat)
    requires FindBorrow(obligation.borrows, borrow.poolAddress) == Some(borrow) && Uncomputable(borrow, market)
    requires market.PoolOf(d.poolAddress).Some? && market.PoolOf(d.poolAddress).value.closeLtvBps > 0
    ensures PairVerdict(obligation, market, isInsolvent, market.PoolOf(borrow.poolAddress).value, d, minProfitMarginCents, now) == Ok(false)
       <==> d.poolAddress == borrow.poolAddress
  {
    hide IsAcceptablePair, FindPool, FindBorrow, SharesToTokensCeil;
  }

  /** On a no-dust market the initiator never finds a solvent obligation with debt eligible when no
      rate saturates and its exact debt can be computed. Nor does it, whatever saturates, when a borrow
      whose debt cannot be computed has a deposit in another pool: judging that pair fails, and a
      failure is not eligibility. */
  lemma SolventNeverEligible(obligation: Obligation, market: MarketData, minProfitMarginCents: int, now: nat)
    requires Backed(obligation, market) && market.insolvencyLtvBps <= BPS_FACTOR
    requires IsInsolvent(obligation, market) == Ok(false)
    requires ObligationDebtValue(obligation, market).value > 0
    requires (Unsaturated(obligation, market) && ExactDebtTotal(obligation, market).Ok?) ||
             exists b, d :: b in obligation.borrows && d in obligation.deposits
               && FindBorrow(obligation.borrows, b.poolAddress) == Some(b) && Uncomputable(b, market)
               && d.poolAddress != b.poolAddress
    ensures IsEligibleForCover(NoDust, obligation, market, minProfitMarginCents, now) != Ok(true)
  {
    hide IsEligibleForCover, UnderFloorWithoutRequest, PairVerdict, ExactDebtTotal, SeizableTotal, ObligationDebtValue, IsInsolvent,
         FindPool, FindBorrow, Uncomputable, Backed, Unsaturated;
    SolventEligibleIff(obligation, market, minProfitMarginCents, now);
    if Unsaturated(obligation, market) && ExactDebtTotal(obligation, market).Ok? {
      SolventIsCovered(obligation, market);
    } else {
      var b, d :| b in obligation.borrows && d in obligation.deposits
                  && FindBorrow(obligation.borrows, b.poolAddress) == Some(b) && Uncomputable(b, market)
                  && d.poolAddress != b.poolAddress;
      SolventIsPriced(obligation, market);
      BackedIsSeizable(obligation, market, d);
      UncomputablePairErrs(obligation, market, false, b, d, minProfitMarginCents, now);
    }
  }

  lemma BackedIsSeizable(obligation: Obligation, market: MarketData, d: DepositPosition)
    requires Backed(obligation, market) && d in obligation.deposits && market.PoolOf(d.poolAddress).Some?
    ensures market.PoolOf(d.poolAddress).value.closeLtvBps > 0
  {
    hide FindPool;
    assert BackedDeposit(d, market);
  }

  /** An uncomputable borrow makes the exact total fail. */
  lemma UncomputableFails(obligation: Obligation, market: MarketData, b: BorrowPosition)
    requires b in obligation.borrows && Uncomputable(b, market)
    ensures ExactDebtTotal(obligation, market).Err?
  {
    hide FindPool, SharesToTokensCeil, ValueCeil;
    if ExactDebtTotal(obligation, market).Ok? {
      TotalOkEach(obligation.borrows, x => ExactDebtValue(market, x), 0, b);
    }
  }

  /** With a single borrow whose debt cannot be computed the condition is read off the snapshot: every
      deposit has to be in the borrow's own pool. Otherwise it is that the collateral falls short, and
      that no pair of the borrow is an error or taken. */
  lemma OneBorrowSolventEligibleIff(obligation: Obligation, market: MarketData, minProfitMarginCents: int, now: nat)
    requires Backed(obligation, market)
    requires IsInsolvent(obligation, market) == Ok(false)
    requires ObligationDebtValue(obligation, market).value > 0
    requires |obligation.borrows| == 1
    ensures IsEligibleForCover(NoDust, obligation, market, minProfitMarginCents, now) == Ok(true) <==>
              && UnderFloorWithoutRequest(obligation, market)
              && var b := obligation.borrows[0];
              && if Uncomputable(b, market) then forall d :: d in obligation.deposits ==> d.poolAddress == b.poolAddress
                 else FallsShort(obligation, market) && TakesNone(obligation, market, false, b, minProfitMarginCents, now)
  {
    hide IsEligibleForCover, UnderFloorWithoutRequest, PairVerdict, ObligationDebtValue, IsInsolvent, FindPool, Uncomputable, Backed,
         ExactDebtTotal, SeizableTotal;
    var b := obligation.borrows[0];
    SolventEligibleIff(obligation, market, minProfitMarginCents, now);
    SolventIsPriced(obligation, market);
    assert FindBorrow(obligation.borrows, b.poolAddress) == Some(b);
    if Uncomputable(b, market) {
      UncomputableFails(obligation, market, b);
      forall d | d in obligation.deposits
        ensures PairVerdict(obligation, market, false, market.PoolOf(b.poolAddress).value, d, minProfitMarginCents, now) == Ok(false)
           <==> d.poolAddress == b.poolAddress
      {
        BackedIsSeizable(obligation, market, d);
        UncomputablePairErrs(obligation, market, false, b, d, minProfitMarginCents, now);
      }
    }
  }

  // ----- Inputs at which the tests do go wrong

  /** One pool of 20-decimal tokens at one oracle unit a whole token, 10^20 of each total. */
  function WidePool(): PoolData {
    var big := 100_000_000_000_000_000_000;
    PoolData("U", "U", 20, 1, big, big, big, big, 0, 10_000, 10_000, 8_000, 10_000, 9_000, 5_000, 1_000, 5, 0, 0, 0, 0)
  }

  function WideMarket(): MarketData {
    MarketData(9_850, [WidePool()], 0, 500)
  }

  /** A whole token of debt against two of plain collateral, in the same pool. */
  function WideObligation(): Obligation {
    var whole := 100_000_000_000_000_000_000;
    Obligation([BorrowPosition(whole, "U")], [DepositPosition(0, 2 * whole, "U")], 0)
  }

  lemma TwentyDecimals()
    ensures Pow10(20) == 100_000_000_000_000_000_000
  {
    Pow10Adds(10, 10);
  }

  /** Each position through the rates, and the exact conversion that overflows. */
  lemma WidePositions()
    ensures WideMarket().PoolOf("U") == Some(WidePool())
    ensures RateDebtValue(WideMarket(), WideObligation().borrows[0]) == Ok(1)
    ensures RateCollateralValue(WideMarket(), WideObligation().deposits[0]) == Ok(2)
    ensures Uncomputable(WideObligation().borrows[0], WideMarket())
  {
    assert WideMarket().PoolOf("U") == Some(WidePool());
    WideAmounts();
    hide FindPool, FixedMulCeil, FixedMulFloor, ValueCeil, ValueFloor, SharesToTokensCeil;
  }

  lemma WideAmounts()
    ensures var whole := 100_000_000_000_000_000_000;
            && FixedMulCeil(whole, 10_000) == whole && FixedMulFloor(0, 10_000) == 0
            && ValueCeil(whole, WidePool()) == Ok(1) && ValueFloor(2 * whole, WidePool()) == Ok(2)
            && SharesToTokensCeil(whole, whole, whole).Err?
  {
    TwentyDecimals();
  }

  lemma WideValues()
    ensures WideMarket().PoolOf("U") == Some(WidePool())
    ensures Backed(WideObligation(), WideMarket())
    ensures ObligationDebtValue(WideObligation(), WideMarket()) == Ok(1)
    ensures IsInsolvent(WideObligation(), WideMarket()) == Ok(false)
    ensures Uncomputable(WideObligation().borrows[0], WideMarket())
  {
    hide RateDebtValue, RateCollateralValue, Uncomputable, FindPool, Total;
    var (market, obligation) := (WideMarket(), WideObligation());
    WidePositions();
    TotalOfOne(obligation.borrows[0], b => RateDebtValue(market, b));
    TotalOfOne(obligation.deposits[0], d => RateCollateralValue(market, d));
    assert MulDivCeil(1, BPS_FACTOR, 2) == Ok(5_000);
  }

  /** It is solvent at 50%, yet the overflow of its exact debt makes the initiator put it up for
      cover. */
  lemma OverflowReadsAsUncovered(now: nat)
    ensures IsInsolvent(WideObligation(), WideMarket()) == Ok(false)
    ensures SeizableCollateralCoversDebt(WideObligation(), WideMarket()) == Ok(false)
    ensures IsEligibleForCover(NoDust, WideObligation(), WideMarket(), 0, now) == Ok(true)
  {
    hide IsEligibleForCover, IsInsolvent, SeizableCollateralCoversDebt, ObligationDebtValue, ExactDebtTotal, Backed, FindPool, Uncomputable;
    WideValues();
    WideUnderFloor();
    UncomputableFails(WideObligation(), WideMarket(), WideObligation().borrows[0]);
    SolventUncoveredIff(WideObligation(), WideMarket());
    OneBorrowSolventEligibleIff(WideObligation(), WideMarket(), 0, now);
  }

  lemma WideUnderFloor()
    ensures UnderFloorWithoutRequest(WideObligation(), WideMarket())
  {
    TwentyDecimals();
    assert CentsToOracleValueCeil(500, 0) == Ok(5);
    assert WideMarket().PoolOf("U") == Some(WidePool());
    assert WideObligation().deposits[1..] == [];
  }

  /** One pool of 34-decimal tokens with two debt shares for 3.4 whole tokens borrowed. */
  function SaturatingPool(): PoolData {
    WidePool().(tokenDecimals := 34, totalBorrowed := 34_000_000_000_000_000_000_000_000_000_000_000, totalDTokens := 2,
                dTokenRateCeilBps := 170_000_000_000_000_000_000_000_000_000_000_000_000)
  }

  function SaturatingMarket(): MarketData {
    WideMarket().(poolsData := [SaturatingPool()])
  }

  /** Both debt shares against three whole tokens of plain collateral, in the same pool. */
  function SaturatingObligation(): Obligation {
    Obligation([BorrowPosition(2, "U")], [DepositPosition(0, 30_000_000_000_000_000_000_000_000_000_000_000, "U")], 0)
  }

  lemma ThirtyFourDecimals()
    ensures Pow10(34) == 10_000_000_000_000_000_000_000_000_000_000_000
  {
    TwentyDecimals();
    Pow10Adds(20, 14);
  }

  /** The rate is the true one and the exact debt of four units is computed, but the rated debt
      saturates at half of it. */
  lemma SaturatingPositions()
    ensures SaturatingMarket().PoolOf("U") == Some(SaturatingPool())
    ensures RateDebtValue(SaturatingMarket(), SaturatingObligation().borrows[0]) == Ok(2)
    ensures ExactDebtValue(SaturatingMarket(), SaturatingObligation().borrows[0]) == Ok(4)
    ensures RateCollateralValue(SaturatingMarket(), SaturatingObligation().deposits[0]) == Ok(3)
    ensures SeizableValue(SaturatingMarket(), SaturatingObligation().deposits[0]) == Ok(3)
    ensures Saturates(SaturatingObligation().borrows[0], SaturatingMarket()) && !Uncomputable(SaturatingObligation().borrows[0], SaturatingMarket())
  {
    assert SaturatingMarket().PoolOf("U") == Some(SaturatingPool());
    SaturatingAmounts();
    hide FindPool, FixedMulCeil, FixedMulFloor, ValueCeil, ValueFloor, SharesToTokensCeil, SharesToTokensFloor;
  }

  lemma SaturatingAmounts()
    ensures var (pool, rated) := (SaturatingPool(), 17_014_118_346_046_923_173_168_730_371_588_410);
            && FixedMulCeil(2, pool.dTokenRateCeilBps) == rated && ValueCeil(rated, pool) == Ok(2)
            && SharesToTokensCeil(2, pool.totalBorrowed, 2) == Ok(pool.totalBorrowed) && ValueCeil(pool.totalBorrowed, pool) == Ok(4)
            && FixedMulFloor(0, 10_000) == 0 && SharesToTokensFloor(0, pool.totalSupply, pool.totalJTokens) == Ok(0)
            && ValueFloor(30_000_000_000_000_000_000_000_000_000_000_000, pool) == Ok(3)
  {
    ThirtyFourDecimals();
  }

  lemma SaturatingValues()
    ensures Backed(SaturatingObligation(), SaturatingMarket())
    ensures ObligationDebtValue(SaturatingObligation(), SaturatingMarket()) == Ok(2)
    ensures IsInsolvent(SaturatingObligation(), SaturatingMarket()) == Ok(false)
    ensures ExactDebtTotal(SaturatingObligation(), SaturatingMarket()) == Ok(4)
    ensures SeizableTotal(SaturatingObligation(), SaturatingMarket()) == Ok(3)
  {
    hide RateDebtValue, RateCollateralValue, ExactDebtValue, SeizableValue, Saturates, Uncomputable, FindPool, Total;
    var (market, obligation) := (SaturatingMarket(), SaturatingObligation());
    SaturatingPositions();
    TotalOfOne(obligation.borrows[0], b => RateDebtValue(market, b));
    TotalOfOne(obligation.borrows[0], b => ExactDebtValue(market, b));
    TotalOfOne(obligation.deposits[0], d => RateCollateralValue(market, d));
    TotalOfOne(obligation.deposits[0], d => SeizableValue(market, d));
    assert MulDivCeil(2, BPS_FACTOR, 3) == Ok(6_667);
  }

  lemma SaturatingUnderFloor()
    ensures UnderFloorWithoutRequest(SaturatingObligation(), SaturatingMarket())
  {
    ThirtyFourDecimals();
    assert CentsToOracleValueCeil(500, 0) == Ok(5);
    assert SaturatingMarket().PoolOf("U") == Some(SaturatingPool());
    assert SaturatingObligation().deposits[1..] == [];
  }

  /** Saturation is the other cause: the obligation passes for solvent at 66.67%, its exact debt is
      computed and exceeds its collateral, and the initiator puts it up for cover. */
  lemma SaturationReadsAsUncovered(now: nat)
    ensures Backed(SaturatingObligation(), SaturatingMarket())
    ensures Saturates(SaturatingObligation().borrows[0], SaturatingMarket())
    ensures IsInsolvent(SaturatingObligation(), SaturatingMarket()) == Ok(false)
    ensures ExactDebtTotal(SaturatingObligation(), SaturatingMarket()) == Ok(4)
    ensures SeizableTotal(SaturatingObligation(), SaturatingMarket()) == Ok(3)
    ensures SeizableCollateralCoversDebt(SaturatingObligation(), SaturatingMarket()) == Ok(false)
    ensures IsEligibleForCover(NoDust, SaturatingObligation(), SaturatingMarket(), 0, now) == Ok(true)
  {
    hide IsEligibleForCover, IsInsolvent, ObligationDebtValue, ExactDebtTotal, SeizableTotal, Backed, FindPool, Uncomputable,
         Saturates, UnderFloorWithoutRequest, PairOf, IsAcceptablePair;
    SaturatingPositions();
    SaturatingValues();
    SaturatingUnderFloor();
    OneBorrowSolventEligibleIff(SaturatingObligation(), SaturatingMarket(), 0, now);
  }

  lemma TotalOfOne<T>(x: T, value: T -> Result<int>)
    ensures value(x).Err? ==> Total([x], value, 0).Err?
    ensures value(x).Ok? && Fits(value(x).value) ==> Total([x], value, 0) == Ok(value(x).value)
  {
    assert [x][1..] == [];
  }
}
