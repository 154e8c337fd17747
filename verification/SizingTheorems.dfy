/** What the sized offers guarantee: the shape of the accepted offers, completeness of the
    fitted repay, and survival of a clearing offer through accrual. */
module SizingTheorems {
  import opened Arithmetic
  import opened Pool
  import opened Liquidation
  import opened LiquidationLaws
  import opened RepaySizing

  /** The largest repay up to `high` that keeps both sides above the floor; 0 when none does. */
  function PartialEdge(p: LiquidationPair, collateral: int, lifted: bool, high: int): int
    decreases high
  {
    if high <= 0 then 0
    else if Keeps(p, high, collateral, lifted) then high
    else PartialEdge(p, collateral, lifted, high - 1)
  }

  lemma {:induction false} PartialEdgeIsGreatest(p: LiquidationPair, collateral: int, lifted: bool, high: int)
    ensures var edge := PartialEdge(p, collateral, lifted, high);
            && 0 <= edge
            && (edge > 0 ==> edge <= high && Keeps(p, edge, collateral, lifted))
            && forall x :: edge < x <= high ==> !Keeps(p, x, collateral, lifted)
    decreases high
  {
    hide Keeps;
    if high > 0 && !Keeps(p, high, collateral, lifted) {
      PartialEdgeIsGreatest(p, collateral, lifted, high - 1);
    }
  }

  /** The snapshot clearing is the least repay that takes the collateral or pays the debt. */
  lemma ClearsFromSnapshot(p: LiquidationPair, collateral: int, lifted: bool, offer: int)
    requires Live(p, collateral, lifted) && offer >= 1
    requires ClearingOf(p).Ok?
    ensures ClearingOf(p).value.Some?
    ensures var s := ClearingOf(p).value.value.atSnapshot;
            && 1 <= s <= p.positionDebt
            && (Clears(p, offer, collateral, lifted) <==> offer >= s)
  {
    hide LiquidationPair.Buys, LiquidationPair.LiftsCloseFactor, LiquidationPair.PositionCollateral, GrownCollateral,
         PaddedOffer, Grown;
    ClearingDefined(p);
    var debt := p.positionDebt;
    BuysMonotone(p, Min(offer, debt), debt, lifted);
    if p.Buys(debt, lifted).value >= collateral {
      LeastBuyingIsLeast(p, lifted, collateral, 1, debt);
      var s := LeastBuying(p, lifted, collateral, 1, debt);
      if s <= offer < debt {
        BuysMonotone(p, s, offer, lifted);
      }
    }
  }

  /** The offers a lifted no-dust pair accepts are exactly [1, edge] and [snapshot, infinity):
      partial repays that keep both sides, then everything from the least clearing repay on.
      Everything in between is refused as dust, never for the close factor. */
  lemma AcceptedShape(p: LiquidationPair, collateral: int, offer: int)
    requires Live(p, collateral, true) && offer >= 1
    requires ClearingOf(p).Ok? && p.Quote(offer).Ok?
    ensures ClearingOf(p).value.Some?
    ensures var s := ClearingOf(p).value.value.atSnapshot;
            var edge := PartialEdge(p, collateral, true, p.positionDebt);
            && 0 <= edge < s <= p.positionDebt
            && (p.Accepts(offer) <==> offer <= edge || s <= offer)
            && (!p.Accepts(offer) ==> p.Quote(offer).value == LeavesDust)
  {
    hide LiquidationPair.Buys, LiquidationPair.LiftsCloseFactor, LiquidationPair.PositionCollateral,
         LiquidationPair.DustFloor, LiquidationPair.Quote, KeepsBothSides, ClearingOf;
    Verdict(p, offer, collateral, true);
    ClearsFromSnapshot(p, collateral, true, offer);
    EdgeBelowSnapshot(p, collateral, true);
    PartialEdgeIsGreatest(p, collateral, true, p.positionDebt);
    var edge := PartialEdge(p, collateral, true, p.positionDebt);
    if Keeps(p, offer, collateral, true) {
      KeepsDownward(p, offer, offer, collateral, true);
    }
    if offer <= edge {
      KeepsDownward(p, offer, edge, collateral, true);
    }
  }

  lemma EdgeBelowSnapshot(p: LiquidationPair, collateral: int, lifted: bool)
    requires Live(p, collateral, lifted) && ClearingOf(p).Ok?
    ensures ClearingOf(p).value.Some?
    ensures 0 <= PartialEdge(p, collateral, lifted, p.positionDebt) < ClearingOf(p).value.value.atSnapshot
  {
    hide LiquidationPair.Buys, LiquidationPair.LiftsCloseFactor, LiquidationPair.PositionCollateral,
         LiquidationPair.DustFloor, KeepsBothSides, ClearingOf;
    PartialEdgeIsGreatest(p, collateral, lifted, p.positionDebt);
    var edge := PartialEdge(p, collateral, lifted, p.positionDebt);
    ClearsFromSnapshot(p, collateral, lifted, Max(edge, 1));
    if edge > 0 {
      KeepsDownward(p, edge, edge, collateral, lifted);
    }
  }

  /** The padded offer never falls under the least clearing repay of the snapshot. */
  lemma PaddedOfferAtLeastSnapshot(p: LiquidationPair)
    requires p.WellFormed() && p.rules.NoDust?
    requires ClearingOf(p).Ok? && ClearingOf(p).value.Some?
    ensures ClearingOf(p).value.value.offer >= ClearingOf(p).value.value.atSnapshot >= 1
  {
    hide LiquidationPair.Buys, LiquidationPair.LiftsCloseFactor, LiquidationPair.IsSmallPosition, FixedMulCeil;
    ClearingDefined(p);
    var (collateral, lifted, debt) := (p.PositionCollateral().value, p.LiftsCloseFactor().value, p.positionDebt);
    var (grownDebt, target) := (Grown(debt, p.debtAccrualBps).value, GrownCollateral(p).value);
    GrowthOnlyAdds(p);
    ClearsFromSnapshot(p, collateral, lifted, 1);
    if p.Buys(grownDebt, lifted).value >= target {
      LeastBuyingIsLeast(p, lifted, target, 1, grownDebt);
      var repay := LeastBuying(p, lifted, target, 1, grownDebt);
      ClearsFromSnapshot(p, collateral, lifted, repay);
      FixedMulCeilSpec(repay, p.margin.refundedBps);
      FixedMulCeilSpec(repay, p.margin.unrefundedBps);
    } else {
      FixedMulCeilSpec(grownDebt, p.margin.refundedBps);
    }
  }

  lemma GrowthOnlyAdds(p: LiquidationPair)
    requires p.WellFormed() && ClearingOf(p).Ok? && ClearingOf(p).value.Some?
    ensures Grown(p.positionDebt, p.debtAccrualBps).value >= p.positionDebt
    ensures GrownCollateral(p).value >= p.PositionCollateral().value
    ensures p.SuppliedTokens().value >= 0
  {
    hide LiquidationPair.Buys, LiquidationPair.LiftsCloseFactor, FixedMulCeil, RepayBuying, PaddedOffer;
    SuppliedNonNegative(p);
    FixedMulCeilSpec(p.positionDebt, p.debtAccrualBps);
    FixedMulCeilSpec(p.SuppliedTokens().value, p.supplyAccrualBps);
  }

  lemma SuppliedNonNegative(p: LiquidationPair)
    requires p.WellFormed() && p.SuppliedTokens().Ok?
    ensures p.SuppliedTokens().value >= 0
  {
    MulNonNegative(p.deposit.jTokens, p.collateralPool.totalSupply);
    if p.collateralPool.totalJTokens > 0 {
      QuotientAtMost(p.deposit.jTokens * p.collateralPool.totalSupply, p.collateralPool.totalJTokens);
    }
  }

  // ----- The fitted repay

  /** The fitted repay of a lifted pair in closed form: a clearing repay is padded within the
      budget, an acceptable partial repay stands, a refused one clears a side when the budget
      allows and otherwise shrinks to the edge; only when there is no edge is there no offer. */
  lemma FittedRepayClosedForm(p: LiquidationPair, collateral: int, repay: int, maxOffer: int)
    requires Live(p, collateral, true) && 1 <= repay <= maxOffer
    requires FittedRepay(p, repay, maxOffer).Ok?
    ensures ClearingOf(p).Ok? && ClearingOf(p).value.Some?
    ensures var Clearing(s, padded) := ClearingOf(p).value.value;
            var edge := PartialEdge(p, collateral, true, p.positionDebt);
            FittedRepay(p, repay, maxOffer).value ==
              if repay >= s then Some(Min(Max(repay, padded), maxOffer))
              else if repay <= edge then Some(repay)
              else if padded <= maxOffer then Some(padded)
              else if edge >= 1 then Some(edge)
              else None
  {
    hide LiquidationPair.Buys, LiquidationPair.LiftsCloseFactor, LiquidationPair.PositionCollateral,
         LiquidationPair.DustFloor, LiquidationPair.Quote, KeepsBothSides, ClearingOf, LargestPartialRepay;
    ClearingDefined(p);
    var Clearing(s, padded) := ClearingOf(p).value.value;
    PaddedOfferAtLeastSnapshot(p);
    var edge := PartialEdge(p, collateral, true, p.positionDebt);
    if repay >= s {
      AcceptedShape(p, collateral, Min(Max(repay, padded), maxOffer));
    } else {
      AcceptedShape(p, collateral, repay);
      if repay > edge {
        if padded <= maxOffer {
          AcceptedShape(p, collateral, padded);
        } else {
          PartialReachesEdge(p, collateral, repay);
        }
      }
    }
  }

  /** Between the edge and the snapshot clearing, the largest partial repay is the edge. */
  lemma PartialReachesEdge(p: LiquidationPair, collateral: int, upper: int)
    requires Live(p, collateral, true) && ClearingOf(p).Ok?
    requires LargestPartialRepay(p, upper).Ok?
    requires 1 <= upper <= p.positionDebt && PartialEdge(p, collateral, true, p.positionDebt) <= upper
    ensures var edge := PartialEdge(p, collateral, true, p.positionDebt);
            LargestPartialRepay(p, upper).value == if edge >= 1 then Some(edge) else None
  {
    hide LiquidationPair.Buys, LiquidationPair.LiftsCloseFactor, LiquidationPair.PositionCollateral,
         LiquidationPair.DustFloor, LiquidationPair.Quote, KeepsBothSides, ClearingOf;
    var edge := PartialEdge(p, collateral, true, p.positionDebt);
    PartialEdgeIsGreatest(p, collateral, true, p.positionDebt);
    var floor := p.DustFloor().value;
    GreatestKeepingIsGreatest(p, collateral, true, floor, upper);
    var greatest := GreatestKeeping(p, collateral, true, floor, upper);
    assert greatest > 1 ==> Keeps(p, greatest, collateral, true);
    if edge >= 1 {
      KeepsDownward(p, 1, edge, collateral, true);
      assert greatest == edge;
      AcceptedShape(p, collateral, edge);
    } else {
      assert !Keeps(p, 1, collateral, true);
    }
  }

  /** No partial or planned repay is given up on: when the fitted repay of a lifted pair is `None`,
      the market accepts nothing in [1, repay], and the padded clearing is out of budget. */
  lemma FittedRepayComplete(p: LiquidationPair, collateral: int, repay: int, maxOffer: int)
    requires Live(p, collateral, true) && 1 <= repay <= maxOffer
    requires FittedRepay(p, repay, maxOffer) == Ok(None)
    ensures forall x :: 1 <= x <= repay ==> !p.Accepts(x)
    ensures ClearingOf(p).value.value.offer > maxOffer
  {
    hide LiquidationPair.Buys, LiquidationPair.LiftsCloseFactor, LiquidationPair.PositionCollateral,
         LiquidationPair.Quote, ClearingOf, FittedRepay, PartialEdge;
    FittedRepayClosedForm(p, collateral, repay, maxOffer);
    EdgeBelowSnapshot(p, collateral, true);
    forall x | 1 <= x <= repay
      ensures !p.Accepts(x)
    {
      if p.Quote(x).Ok? {
        AcceptedShape(p, collateral, x);
      }
    }
  }

  // ----- Accrual

  /** Two views of a pair with the same prices, decimals and incentives. */
  predicate SameTerms(p: LiquidationPair, q: LiquidationPair) {
    && p.borrowPool.oracleAssetPrice == q.borrowPool.oracleAssetPrice
    && p.borrowPool.tokenDecimals == q.borrowPool.tokenDecimals
    && p.collateralPool.oracleAssetPrice == q.collateralPool.oracleAssetPrice
    && p.collateralPool.tokenDecimals == q.collateralPool.tokenDecimals
    && p.IncentiveBps() == q.IncentiveBps()
  }

  /** The later view owes and holds at most what the earlier one grows to. */
  predicate WithinGrowth(p: LiquidationPair, q: LiquidationPair) {
    && q.deposit.collateral <= p.deposit.collateral
    && (Grown(p.positionDebt, p.debtAccrualBps).Ok? ==>
          q.positionDebt <= Grown(p.positionDebt, p.debtAccrualBps).value)
    && (q.SuppliedTokens().Ok? && GrownCollateral(p).Ok? ==>
          q.SuppliedTokens().value <= Grown(p.SuppliedTokens().value, p.supplyAccrualBps).value)
  }

  lemma LiftingOnlyAdds(p: LiquidationPair, q: LiquidationPair, repaid: int, lifted: bool)
    requires SameTerms(p, q)
    requires p.Buys(repaid, lifted).Ok? && q.Buys(repaid, true).Ok?
    ensures p.Buys(repaid, lifted).value <= q.Buys(repaid, true).value
  {
    hide MulDiv, LiquidationPair.LtvCap;
  }

  /** A clearing offer still clears once interest has accrued: the market accepts it at any later
      view of the pair, still lifted, whose debt and supply stayed within the estimate. */
  lemma ClearingSurvivesAccrual(p: LiquidationPair, q: LiquidationPair)
    requires p.WellFormed() && p.rules.NoDust?
    requires ClearingOf(p).Ok? && ClearingOf(p).value.Some?
    requires q.WellFormed() && q.rules.NoDust? && q.LiftsCloseFactor() == Ok(true)
    requires SameTerms(p, q) && WithinGrowth(p, q)
    requires q.Quote(ClearingOf(p).value.value.offer).Ok?
    ensures q.Accepts(ClearingOf(p).value.value.offer)
  {
    hide LiquidationPair.Buys, LiquidationPair.LiftsCloseFactor, LiquidationPair.ExceedsCloseFactor,
         LiquidationPair.IsSmallPosition, FixedMulCeil, LiquidationPair.SuppliedTokens, Keeps;
    var offer := ClearingOf(p).value.value.offer;
    PaddedOfferAtLeastSnapshot(p);
    ClearingDefined(p);
    var collateral := q.PositionCollateral().value;
    if q.positionDebt > 0 && collateral > 0 {
      LiftedNeverExceeds(q, Min(offer, q.positionDebt));
      ClearingOfferClears(p, q);
      Verdict(q, offer, collateral, true);
    }
  }

  lemma LiftedNeverExceeds(q: LiquidationPair, repaid: int)
    ensures q.ExceedsCloseFactor(repaid, true) == Ok(false)
  {
  }

  lemma ClearingOfferClears(p: LiquidationPair, q: LiquidationPair)
    requires p.WellFormed() && p.rules.NoDust?
    requires ClearingOf(p).Ok? && ClearingOf(p).value.Some?
    requires q.WellFormed() && q.PositionCollateral().Ok? && q.positionDebt > 0
    requires SameTerms(p, q) && WithinGrowth(p, q)
    requires q.Buys(Min(ClearingOf(p).value.value.offer, q.positionDebt), true).Ok?
    ensures Clears(q, ClearingOf(p).value.value.offer, q.PositionCollateral().value, true)
  {
    hide LiquidationPair.Buys, LiquidationPair.LiftsCloseFactor, LiquidationPair.IsSmallPosition, FixedMulCeil,
         LiquidationPair.SuppliedTokens;
    ClearingDefined(p);
    GrowthOnlyAdds(p);
    var offer, lifted := ClearingOf(p).value.value.offer, p.LiftsCloseFactor().value;
    var (grownDebt, target) := (Grown(p.positionDebt, p.debtAccrualBps).value, GrownCollateral(p).value);
    if p.Buys(grownDebt, lifted).value >= target {
      LeastBuyingIsLeast(p, lifted, target, 1, grownDebt);
      var repay := LeastBuying(p, lifted, target, 1, grownDebt);
      FixedMulCeilSpec(repay, p.margin.refundedBps);
      FixedMulCeilSpec(repay, p.margin.unrefundedBps);
      if offer < q.positionDebt {
        BuysMonotone(q, repay, offer, true);
        LiftingOnlyAdds(p, q, repay, lifted);
      }
    } else {
      FixedMulCeilSpec(grownDebt, p.margin.refundedBps);
    }
  }

  /** The growth the previous theorem allows for is the growth a pool can show: debt converted
      at a total grown linearly at the pool's APY stays within the accrual estimate. */
  lemma AccrualEstimateCoversDebt(pool: PoolData, later: int, dTokens: int, now: nat)
    requires dTokens >= 0 && pool.totalBorrowed >= 0 && pool.totalDTokens > 0 && pool.borrowApyBps >= 0
    requires pool.borrowApyBps * Max(0, now - pool.lastAccrualTimestamp) + (SECONDS_IN_YEAR - 1) <= I128_MAX
    requires later >= 0
    requires GrownLinearly(pool.totalBorrowed, later, pool.borrowApyBps, Max(0, now - pool.lastAccrualTimestamp))
    requires pool.DTokensToTokensCeil(dTokens).Ok?
    requires SharesToTokensCeil(dTokens, later, pool.totalDTokens).Ok?
    requires pool.DTokensToTokensCeil(dTokens).value * pool.AccrualSinceUpdateBps(now).0 + (BPS_FACTOR - 1) <= I128_MAX
    requires Grown(pool.DTokensToTokensCeil(dTokens).value, pool.AccrualSinceUpdateBps(now).0).Ok?
    ensures SharesToTokensCeil(dTokens, later, pool.totalDTokens).value
         <= Grown(pool.DTokensToTokensCeil(dTokens).value, pool.AccrualSinceUpdateBps(now).0).value
  {
    hide Accrued, MulDivCeil, SharesToTokensCeil, FixedMulCeil;
    var (elapsed, debt) := (Max(0, now - pool.lastAccrualTimestamp), pool.DTokensToTokensCeil(dTokens).value);
    var bps := Accrued(pool.borrowApyBps, elapsed);
    AccruedCoversGrowth(pool.totalBorrowed, later, pool.borrowApyBps, elapsed);
    ConversionIsScaling(dTokens, pool.totalBorrowed, pool.totalDTokens);
    ConversionIsScaling(dTokens, later, pool.totalDTokens);
    MulDivCeilSpec(dTokens, pool.totalBorrowed, pool.totalDTokens);
    MulDivCeilSpec(dTokens, later, pool.totalDTokens);
    DebtWithinAccrualEstimate(dTokens, pool.totalBorrowed, later, pool.totalDTokens, bps);
    FixedMulCeilSpec(debt, bps);
  }

  // ----- The supply side of the accrual estimate

  function Elapsed(pool: PoolData, now: nat): nat {
    Max(0, now - pool.lastAccrualTimestamp)
  }

  /** What the keeper estimates a supply to grow to by `now`. */
  function SupplyEstimate(pool: PoolData, jTokens: int, now: nat): Result<int> {
    var supplied :- pool.JTokensToTokensFloor(jTokens);
    Grown(supplied, pool.AccrualSinceUpdateBps(now).1)
  }

  /** The shares' part of the largest supply the pool can show at `now` stays under the next token
      after the estimate: a test on the snapshot. */
  predicate SupplyEstimateHolds(pool: PoolData, jTokens: int, now: nat) {
    && SupplyEstimate(pool, jTokens, now).Ok?
    && (pool.totalJTokens == 0 ||
        jTokens * MostGrown(pool.totalSupply, pool.supplyApyBps, Elapsed(pool, now))
          < (SupplyEstimate(pool, jTokens, now).value + 1) * pool.totalJTokens)
  }

  /** The estimate covers the supply at every total grown linearly at the pool's APY exactly when
      that test holds. */
  lemma SupplyEstimateCoversIff(pool: PoolData, jTokens: int, now: nat)
    requires jTokens >= 0 && pool.totalSupply >= 0 && pool.totalJTokens > 0 && pool.supplyApyBps >= 0
    requires jTokens * MostGrown(pool.totalSupply, pool.supplyApyBps, Elapsed(pool, now)) <= I128_MAX
    requires SupplyEstimate(pool, jTokens, now).Ok?
    ensures (forall later :: later >= 0 && GrownLinearly(pool.totalSupply, later, pool.supplyApyBps, Elapsed(pool, now)) ==>
               var supplied := SharesToTokensFloor(jTokens, later, pool.totalJTokens);
               supplied.Ok? && supplied.value <= SupplyEstimate(pool, jTokens, now).value)
            <==> SupplyEstimateHolds(pool, jTokens, now)
  {
    hide SupplyEstimate, SharesToTokensFloor, GrownLinearly, MostGrown;
    FloorWithinBoundIff(jTokens, pool.totalSupply, pool.totalJTokens, pool.supplyApyBps, Elapsed(pool, now),
                        SupplyEstimate(pool, jTokens, now).value);
  }

  /** Where the test fails the estimate is one token short, no more, while accrual is at most a
      doubling. */
  lemma SupplyShortByAtMostOne(pool: PoolData, later: int, jTokens: int, now: nat)
    requires jTokens >= 0 && pool.totalSupply >= 0 && pool.totalJTokens > 0 && pool.supplyApyBps >= 0 && later >= 0
    requires pool.supplyApyBps * Elapsed(pool, now) + (SECONDS_IN_YEAR - 1) <= I128_MAX
    requires pool.AccrualSinceUpdateBps(now).1 <= BPS_FACTOR
    requires GrownLinearly(pool.totalSupply, later, pool.supplyApyBps, Elapsed(pool, now))
    requires SharesToTokensFloor(jTokens, later, pool.totalJTokens).Ok?
    requires SupplyEstimate(pool, jTokens, now).Ok?
    requires pool.JTokensToTokensFloor(jTokens).value * pool.AccrualSinceUpdateBps(now).1 + (BPS_FACTOR - 1) <= I128_MAX
    ensures SharesToTokensFloor(jTokens, later, pool.totalJTokens).value <= SupplyEstimate(pool, jTokens, now).value + 1
  {
    hide Accrued, MulDiv, SharesToTokensFloor, FixedMulCeil, GrownLinearly;
    var (supplied, bps) := (pool.JTokensToTokensFloor(jTokens).value, Accrued(pool.supplyApyBps, Elapsed(pool, now)));
    AccruedCoversGrowth(pool.totalSupply, later, pool.supplyApyBps, Elapsed(pool, now));
    ConversionIsScaling(jTokens, pool.totalSupply, pool.totalJTokens);
    ConversionIsScaling(jTokens, later, pool.totalJTokens);
    MulDivSpec(jTokens, pool.totalSupply, pool.totalJTokens);
    MulDivSpec(jTokens, later, pool.totalJTokens);
    SupplyWithinAccrualEstimate(jTokens, pool.totalSupply, later, pool.totalJTokens, bps);
    FixedMulCeilSpec(supplied, bps);
  }

  // ----- Survival of linear growth

  /** `q` is `p` on chain at `now`: the same positions in pools whose borrowed and supplied totals
      grew at most linearly at their APYs since the snapshot. */
  predicate GrownView(p: LiquidationPair, q: LiquidationPair, dTokens: int, now: nat) {
    && p.borrowPool.DTokensToTokensCeil(dTokens) == Ok(p.positionDebt)
    && q.borrowPool.DTokensToTokensCeil(dTokens) == Ok(q.positionDebt)
    && q.deposit == p.deposit
    && q.borrowPool == p.borrowPool.(totalBorrowed := q.borrowPool.totalBorrowed)
    && q.collateralPool == p.collateralPool.(totalSupply := q.collateralPool.totalSupply)
    && GrownLinearly(p.borrowPool.totalBorrowed, q.borrowPool.totalBorrowed, p.borrowPool.borrowApyBps, Elapsed(p.borrowPool, now))
    && GrownLinearly(p.collateralPool.totalSupply, q.collateralPool.totalSupply, p.collateralPool.supplyApyBps, Elapsed(p.collateralPool, now))
  }

  /** The debt side's ranges: non-negative, and nothing in the estimate saturates. */
  predicate DebtInRange(p: LiquidationPair, q: LiquidationPair, dTokens: int, now: nat) {
    && dTokens >= 0
    && p.borrowPool.totalDTokens > 0
    && p.borrowPool.totalBorrowed >= 0 && q.borrowPool.totalBorrowed >= 0
    && p.borrowPool.borrowApyBps >= 0
    && p.borrowPool.borrowApyBps * Elapsed(p.borrowPool, now) + (SECONDS_IN_YEAR - 1) <= I128_MAX
    && p.positionDebt * p.borrowPool.AccrualSinceUpdateBps(now).0 + (BPS_FACTOR - 1) <= I128_MAX
  }

  /** A supply that passes the snapshot test stays within its estimate. */
  lemma SupplyStaysWithin(pool: PoolData, later: int, jTokens: int, now: nat)
    requires jTokens >= 0 && pool.totalSupply >= 0 && pool.totalJTokens >= 0 && pool.supplyApyBps >= 0 && later >= 0
    requires GrownLinearly(pool.totalSupply, later, pool.supplyApyBps, Elapsed(pool, now))
    requires SupplyEstimateHolds(pool, jTokens, now)
    requires SharesToTokensFloor(jTokens, later, pool.totalJTokens).Ok?
    ensures SharesToTokensFloor(jTokens, later, pool.totalJTokens).value <= SupplyEstimate(pool, jTokens, now).value
  {
    hide MostGrown, FixedMulCeil, Accrued, GrownLinearly;
    var most := MostGrown(pool.totalSupply, pool.supplyApyBps, Elapsed(pool, now));
    if pool.totalJTokens > 0 {
      GrownUpToMost(pool.totalSupply, later, pool.supplyApyBps, Elapsed(pool, now));
      MulLe(later, most, jTokens);
      FloorAtMost(jTokens, later, pool.totalJTokens, SupplyEstimate(pool, jTokens, now).value);
    } else {
      NothingGrows(pool, jTokens, now);
    }
  }

  lemma NothingGrows(pool: PoolData, jTokens: int, now: nat)
    requires pool.totalJTokens == 0 || jTokens == 0
    requires pool.totalJTokens >= 0 && pool.totalSupply >= 0
    ensures SupplyEstimate(pool, jTokens, now) == Ok(0)
  {
    assert FixedMulCeil(0, pool.AccrualSinceUpdateBps(now).1) == 0;
  }

  /** A clearing offer sized for accrual until `now` is accepted on chain at `now`, still lifted,
      whenever the supply passes the snapshot test. */
  lemma ClearingSurvivesLinearGrowth(p: LiquidationPair, q: LiquidationPair, dTokens: int, now: nat)
    requires p.WellFormed() && p.rules.NoDust? && p == p.AccruingUntil(now)
    requires ClearingOf(p).Ok? && ClearingOf(p).value.Some?
    requires q.WellFormed() && q.rules.NoDust? && q.LiftsCloseFactor() == Ok(true)
    requires GrownView(p, q, dTokens, now) && DebtInRange(p, q, dTokens, now)
    requires p.collateralPool.supplyApyBps >= 0
    requires SupplyEstimateHolds(p.collateralPool, p.deposit.jTokens, now)
    requires q.Quote(ClearingOf(p).value.value.offer).Ok?
    ensures q.Accepts(ClearingOf(p).value.value.offer)
  {
    hide LiquidationPair.Quote, LiquidationPair.LiftsCloseFactor, RepayBuying, PaddedOffer, Accrued, FixedMulCeil, GrownLinearly,
         SharesToTokensCeil, SupplyEstimateHolds, SupplyEstimate;
    GrowthIsEstimated(p, q, dTokens, now);
    ClearingSurvivesAccrual(p, q);
  }

  lemma GrowthIsEstimated(p: LiquidationPair, q: LiquidationPair, dTokens: int, now: nat)
    requires p.WellFormed() && q.WellFormed() && p == p.AccruingUntil(now)
    requires GrownView(p, q, dTokens, now) && DebtInRange(p, q, dTokens, now)
    requires p.collateralPool.supplyApyBps >= 0
    requires SupplyEstimateHolds(p.collateralPool, p.deposit.jTokens, now)
    ensures SameTerms(p, q) && WithinGrowth(p, q)
  {
    hide Accrued, FixedMulCeil, GrownLinearly, SharesToTokensCeil, SharesToTokensFloor;
    if Grown(p.positionDebt, p.debtAccrualBps).Ok? {
      AccrualEstimateCoversDebt(p.borrowPool, q.borrowPool.totalBorrowed, dTokens, now);
    }
    if q.SuppliedTokens().Ok? {
      SupplyStaysWithin(p.collateralPool, q.collateralPool.totalSupply, p.deposit.jTokens, now);
    }
  }

  /** Plain collateral does not grow, so a position without supply always passes the test. */
  lemma PlainCollateralPasses(pool: PoolData, now: nat)
    requires pool.totalJTokens >= 0 && pool.totalSupply >= 0
    ensures SupplyEstimateHolds(pool, 0, now)
  {
    NothingGrows(pool, 0, now);
  }
}
