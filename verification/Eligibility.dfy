/** Exactly which obligations the initiator puts up for bad-debt cover, solvent or not. */
module Eligibility {
  import opened Arithmetic
  import opened Pool
  import opened Market
  import opened Profitability
  import opened Liquidation
  import opened Insolvency
  import opened BadDebt

  // ----- Under the floor

  /** The floor in oracle units, rounded up. */
  predicate IsFloor(floor: int, market: MarketData) {
    var scaled := market.minCollateralValueCents * Pow10(market.oraclePriceDecimals);
    && market.minCollateralValueCents >= 0
    && Fits(Pow10(market.oraclePriceDecimals)) && scaled + 99 <= I128_MAX
    && scaled <= floor * 100 < scaled + 100
  }

  lemma FloorIff(market: MarketData, floor: int)
    ensures CentsToOracleValueCeil(market.minCollateralValueCents, market.oraclePriceDecimals) == Ok(floor) <==> IsFloor(floor, market)
  {
    hide MulDivCeil, Pow10;
    var (cents, factor) := (market.minCollateralValueCents, Pow10(market.oraclePriceDecimals));
    if cents >= 0 && Fits(factor) {
      MulDivCeilSpec(cents, factor, 100);
    }
  }

  /** The deposit is priced, and all of it, supply rounded up, is worth at most the floor. */
  predicate AtOrUnder(d: DepositPosition, market: MarketData, floor: int) {
    && market.PoolOf(d.poolAddress).Some?
    && var pool := market.PoolOf(d.poolAddress).value;
    && var supplied := pool.JTokensToTokensCeil(d.jTokens);
    && supplied.Ok?
    && var tokens := supplied.value + d.collateral;
    && Fits(tokens) && Fits(tokens * pool.oracleAssetPrice) && Fits(Pow10(pool.tokenDecimals))
    && tokens * pool.oracleAssetPrice < (floor + 1) * Pow10(pool.tokenDecimals)
  }

  lemma QuotAtMost(n: int, d: int, bound: int)
    requires d > 0 && bound >= 0 && Fits(n)
    ensures Clamp(Quot(n, d)) <= bound <==> n < (bound + 1) * d
  {
    if n >= 0 {
      FloorGalois(n, d, bound + 1);
      QuotientAtMost(n, d);
    } else {
      QuotientAtMost(-n, d);
      MulLe(1, bound + 1, d);
    }
  }

  lemma FirstUnderFloor(deposits: seq<DepositPosition>, market: MarketData, floor: int)
    requires floor >= 0 && deposits != []
    ensures AllUnderFloor(deposits, market, floor) == Ok(true) <==>
              AtOrUnder(deposits[0], market, floor) && AllUnderFloor(deposits[1..], market, floor) == Ok(true)
  {
    hide FindPool, SharesToTokensCeil, Quot, Clamp, Pow10;
    var d := deposits[0];
    var pool := market.PoolOf(d.poolAddress);
    if pool.Some? && pool.value.JTokensToTokensCeil(d.jTokens).Ok? {
      var product := (pool.value.JTokensToTokensCeil(d.jTokens).value + d.collateral) * pool.value.oracleAssetPrice;
      if Fits(product) {
        QuotAtMost(product, Pow10(pool.value.tokenDecimals), floor);
      }
    }
  }

  lemma {:induction false} AllUnderFloorIff(deposits: seq<DepositPosition>, market: MarketData, floor: int)
    requires floor >= 0
    ensures AllUnderFloor(deposits, market, floor) == Ok(true) <==> forall d :: d in deposits ==> AtOrUnder(d, market, floor)
  {
    hide AtOrUnder;
    if deposits != [] {
      assert deposits == [deposits[0]] + deposits[1..];
      FirstUnderFloor(deposits, market, floor);
      hide AllUnderFloor;
      AllUnderFloorIff(deposits[1..], market, floor);
    }
  }

  // ----- Uncovered, with nothing to take

  /** The debt's exact value cannot be computed, or the seizable collateral is worth less, or nothing. */
  predicate Uncovered(obligation: Obligation, market: MarketData) {
    var (debt, collateral) := (ExactDebtTotal(obligation, market), SeizableTotal(obligation, market));
    debt.Err? || (collateral.Ok? && (collateral.value <= 0 || collateral.value < debt.value))
  }

  /** The liquidator would not take the deposit for the borrow: both are priced, and they are in one
      pool, or the deposit is not seizable, or their pair is judged and found wanting. */
  predicate PairRefused(
    obligation: Obligation, market: MarketData, isInsolvent: bool, b: BorrowPosition, d: DepositPosition, minProfitMarginCents: int, now: nat)
  {
    && market.PoolOf(b.poolAddress).Some? && market.PoolOf(d.poolAddress).Some?
    && var (borrowPool, collateralPool) := (market.PoolOf(b.poolAddress).value, market.PoolOf(d.poolAddress).value);
    || b.poolAddress == d.poolAddress
    || collateralPool.closeLtvBps <= 0
    || (var pair := PairOf(NoDust, obligation, market, borrowPool, collateralPool, d, isInsolvent);
        pair.Ok? && IsAcceptablePair(pair.value.AccruingUntil(now), minProfitMarginCents) == Ok(false))
  }

  /** No pair of a priced obligation is an error or one the liquidator would take. */
  predicate NothingToTake(obligation: Obligation, market: MarketData, minProfitMarginCents: int, now: nat) {
    FullyPriced(obligation, market) ==>
      && IsInsolvent(obligation, market).Ok?
      && forall b, d :: b in obligation.borrows && d in obligation.deposits ==>
           PairRefused(obligation, market, IsInsolvent(obligation, market).value, b, d, minProfitMarginCents, now)
  }

  lemma NothingToTakeIff(obligation: Obligation, market: MarketData, minProfitMarginCents: int, now: nat)
    ensures HasAcceptableLiquidation(obligation, market, minProfitMarginCents, now) == Ok(false)
       <==> NothingToTake(obligation, market, minProfitMarginCents, now)
  {
    hide IsInsolvent, BorrowsAcceptable, PairVerdict, PairRefused, FindPool;
    if FullyPriced(obligation, market) && IsInsolvent(obligation, market).Ok? {
      var isInsolvent := IsInsolvent(obligation, market).value;
      NoBorrowAcceptableIff(obligation, market, isInsolvent, obligation.borrows, minProfitMarginCents, now);
      forall b, d | b in obligation.borrows && d in obligation.deposits
        ensures PairVerdict(obligation, market, isInsolvent, market.PoolOf(b.poolAddress).value, d, minProfitMarginCents, now) == Ok(false)
           <==> PairRefused(obligation, market, isInsolvent, b, d, minProfitMarginCents, now)
      {
        RefusedIff(obligation, market, isInsolvent, b, d, minProfitMarginCents, now);
      }
    }
  }

  lemma RefusedIff(
    obligation: Obligation, market: MarketData, isInsolvent: bool, b: BorrowPosition, d: DepositPosition, minProfitMarginCents: int, now: nat)
    requires market.PoolOf(b.poolAddress).Some? && market.PoolOf(d.poolAddress).Some?
    ensures PairVerdict(obligation, market, isInsolvent, market.PoolOf(b.poolAddress).value, d, minProfitMarginCents, now) == Ok(false)
       <==> PairRefused(obligation, market, isInsolvent, b, d, minProfitMarginCents, now)
  {
    hide IsAcceptablePair, PairOf, FindPool;
  }

  // ----- Eligible

  /** An obligation is put up for cover exactly when it owes something, has no open request, and holds
      no deposit or only deposits at or under the floor; on a no-dust market with deposits it must also
      be uncovered, with nothing the liquidator would take. */
  lemma EligibleForCoverIff(rules: DustRules, obligation: Obligation, market: MarketData, minProfitMarginCents: int, now: nat)
    ensures IsEligibleForCover(rules, obligation, market, minProfitMarginCents, now) == Ok(true) <==>
              && obligation.borrows != []
              && obligation.openBadDebtRequests == 0
              && (obligation.deposits != [] ==>
                    && (exists floor :: IsFloor(floor, market) && forall d :: d in obligation.deposits ==> AtOrUnder(d, market, floor))
                    && (rules.NoDust? ==> Uncovered(obligation, market) && NothingToTake(obligation, market, minProfitMarginCents, now)))
  {
    hide AllUnderFloor, CentsToOracleValueCeil, ExactDebtTotal, SeizableTotal, HasAcceptableLiquidation, IsFloor, AtOrUnder, NothingToTake;
    var floor := CentsToOracleValueCeil(market.minCollateralValueCents, market.oraclePriceDecimals);
    if floor.Ok? {
      FloorIff(market, floor.value);
      FloorNonNegative(market, floor.value);
      AllUnderFloorIff(obligation.deposits, market, floor.value);
      var under := AllUnderFloor(obligation.deposits, market, floor.value);
      assert under.Ok? ==> under == Ok(under.value);
    }
    forall other | IsFloor(other, market)
      ensures floor == Ok(other)
    {
      FloorIff(market, other);
    }
    CoverFailsIff(obligation, market);
    NothingToTakeIff(obligation, market, minProfitMarginCents, now);
    ResultsAreTheirValues(obligation, market, minProfitMarginCents, now);
  }

  lemma FloorNonNegative(market: MarketData, floor: int)
    requires IsFloor(floor, market)
    ensures floor >= 0
  {
    MulNonNegative(market.minCollateralValueCents, Pow10(market.oraclePriceDecimals));
  }

  lemma CoverFailsIff(obligation: Obligation, market: MarketData)
    ensures SeizableCollateralCoversDebt(obligation, market) == Ok(false) <==> Uncovered(obligation, market)
  {
    hide ExactDebtTotal, SeizableTotal;
  }

  /** Plain bad debt, with no collateral at all, is eligible in every market and under both rules. */
  lemma DebtWithoutCollateralIsEligible(
    rules: DustRules, borrows: seq<BorrowPosition>, market: MarketData, minProfitMarginCents: int, now: nat)
    requires borrows != []
    ensures IsEligibleForCover(rules, Obligation(borrows, [], 0), market, minProfitMarginCents, now) == Ok(true)
  {
    EligibleForCoverIff(rules, Obligation(borrows, [], 0), market, minProfitMarginCents, now);
  }
}
