/** Exactly which offers still clear a pair once its pools have accrued interest. */
module GrowthTheorems {
  import opened Arithmetic
  import opened Pool
  import opened Liquidation
  import opened LiquidationLaws
  import opened SizingTheorems

  function MostBorrowed(p: LiquidationPair, now: nat): int {
    MostGrown(p.borrowPool.totalBorrowed, p.borrowPool.borrowApyBps, Elapsed(p.borrowPool, now))
  }

  function MostSupplied(p: LiquidationPair, now: nat): int {
    MostGrown(p.collateralPool.totalSupply, p.collateralPool.supplyApyBps, Elapsed(p.collateralPool, now))
  }

  /** The pair with both totals as large as linear growth at the pools' APYs allows at `now`. */
  function MostGrownPair(p: LiquidationPair, dTokens: int, now: nat): Result<LiquidationPair> {
    var borrowPool := p.borrowPool.(totalBorrowed := MostBorrowed(p, now));
    var debt :- borrowPool.DTokensToTokensCeil(dTokens);
    Ok(p.(borrowPool := borrowPool, collateralPool := p.collateralPool.(totalSupply := MostSupplied(p, now)), positionDebt := debt))
  }

  /** A pair whose debt is that many shares, in pools that accrue. */
  predicate Accruing(p: LiquidationPair, dTokens: int) {
    && p.WellFormed()
    && dTokens >= 0
    && p.borrowPool.totalDTokens > 0 && p.borrowPool.totalBorrowed >= 0
    && p.borrowPool.borrowApyBps >= 0 && p.collateralPool.supplyApyBps >= 0
    && p.borrowPool.DTokensToTokensCeil(dTokens) == Ok(p.positionDebt)
  }

  /** A later view the market can show at `now`: the position in pools grown at most linearly. */
  predicate LaterView(p: LiquidationPair, q: LiquidationPair, dTokens: int, now: nat) {
    GrownView(p, q, dTokens, now) && q.WellFormed() && q.PositionCollateral().Ok? && q.borrowPool.totalBorrowed >= 0
  }

  /** A floor or ceil conversion grows with the total it converts at. */
  lemma ConversionsGrow(shares: int, total: int, more: int, totalShares: int)
    requires shares >= 0 && 0 <= total <= more && totalShares >= 0
    ensures SharesToTokensCeil(shares, more, totalShares).Ok? ==>
              && SharesToTokensCeil(shares, total, totalShares).Ok?
              && 0 <= SharesToTokensCeil(shares, total, totalShares).value <= SharesToTokensCeil(shares, more, totalShares).value
    ensures SharesToTokensFloor(shares, more, totalShares).Ok? ==>
              && SharesToTokensFloor(shares, total, totalShares).Ok?
              && 0 <= SharesToTokensFloor(shares, total, totalShares).value <= SharesToTokensFloor(shares, more, totalShares).value
  {
    if totalShares > 0 {
      ConversionIsScaling(shares, total, totalShares);
      ConversionIsScaling(shares, more, totalShares);
      assert MulDiv(shares, total, totalShares) == MulDiv(total, shares, totalShares);
      assert MulDiv(shares, more, totalShares) == MulDiv(more, shares, totalShares);
      assert MulDivCeil(shares, total, totalShares) == MulDivCeil(total, shares, totalShares);
      assert MulDivCeil(shares, more, totalShares) == MulDivCeil(more, shares, totalShares);
      hide SharesToTokensCeil, SharesToTokensFloor, MulDiv, MulDivCeil;
      if MulDiv(more, shares, totalShares).Ok? {
        MulDivMonotone(total, more, shares, totalShares);
      }
      if MulDivCeil(more, shares, totalShares).Ok? {
        MulDivCeilMonotone(total, more, shares, totalShares);
      }
    }
  }

  /** No later view owes or holds more than the most grown one, and that is one of them. */
  lemma MostGrownBounds(p: LiquidationPair, q: LiquidationPair, dTokens: int, now: nat)
    requires Accruing(p, dTokens) && LaterView(p, q, dTokens, now)
    requires MostGrownPair(p, dTokens, now).Ok? && MostGrownPair(p, dTokens, now).value.PositionCollateral().Ok?
    ensures var top := MostGrownPair(p, dTokens, now).value;
            && q.positionDebt <= top.positionDebt
            && q.PositionCollateral().value <= top.PositionCollateral().value
  {
    hide SharesToTokensCeil, SharesToTokensFloor, GrownLinearly, MostGrown;
    GrownUpToMost(p.borrowPool.totalBorrowed, q.borrowPool.totalBorrowed, p.borrowPool.borrowApyBps, Elapsed(p.borrowPool, now));
    GrownUpToMost(p.collateralPool.totalSupply, q.collateralPool.totalSupply, p.collateralPool.supplyApyBps, Elapsed(p.collateralPool, now));
    ConversionsGrow(dTokens, q.borrowPool.totalBorrowed, MostBorrowed(p, now), p.borrowPool.totalDTokens);
    ConversionsGrow(p.deposit.jTokens, q.collateralPool.totalSupply, MostSupplied(p, now), p.collateralPool.totalJTokens);
  }

  lemma MostGrownIsLater(p: LiquidationPair, dTokens: int, now: nat)
    requires Accruing(p, dTokens)
    requires MostGrownPair(p, dTokens, now).Ok? && MostGrownPair(p, dTokens, now).value.PositionCollateral().Ok?
    ensures LaterView(p, MostGrownPair(p, dTokens, now).value, dTokens, now)
  {
    hide SharesToTokensCeil, SharesToTokensFloor, GrownLinearly, MostGrown;
    MostIsNonNegative(p.borrowPool.totalBorrowed, p.borrowPool.borrowApyBps, Elapsed(p.borrowPool, now));
    MostIsNonNegative(p.collateralPool.totalSupply, p.collateralPool.supplyApyBps, Elapsed(p.collateralPool, now));
    GrownUpToMost(p.borrowPool.totalBorrowed, MostBorrowed(p, now), p.borrowPool.borrowApyBps, Elapsed(p.borrowPool, now));
    GrownUpToMost(p.collateralPool.totalSupply, MostSupplied(p, now), p.collateralPool.supplyApyBps, Elapsed(p.collateralPool, now));
    ConversionsGrow(dTokens, MostBorrowed(p, now), MostBorrowed(p, now), p.borrowPool.totalDTokens);
  }

  lemma BuysAlike(p: LiquidationPair, q: LiquidationPair, offer: int)
    requires SameTerms(p, q)
    ensures p.Buys(offer, true) == q.Buys(offer, true)
  {
    hide MulDiv;
  }

  /** An offer clears a side at every later view exactly when it does at the most grown one, where
      what it buys and what it pays are compared with the largest supply and debt. */
  lemma ClearsEveryGrowthIff(p: LiquidationPair, dTokens: int, now: nat, offer: int)
    requires Accruing(p, dTokens)
    requires MostGrownPair(p, dTokens, now).Ok? && MostGrownPair(p, dTokens, now).value.PositionCollateral().Ok?
    ensures (forall q :: LaterView(p, q, dTokens, now) ==> Clears(q, offer, q.PositionCollateral().value, true))
       <==> var top := MostGrownPair(p, dTokens, now).value;
            Clears(top, offer, top.PositionCollateral().value, true)
  {
    hide LiquidationPair.Buys, LiquidationPair.PositionCollateral, SharesToTokensCeil, GrownLinearly, MostGrown;
    var top := MostGrownPair(p, dTokens, now).value;
    MostGrownIsLater(p, dTokens, now);
    if Clears(top, offer, top.PositionCollateral().value, true) {
      forall q | LaterView(p, q, dTokens, now)
        ensures Clears(q, offer, q.PositionCollateral().value, true)
      {
        MostGrownBounds(p, q, dTokens, now);
        BuysAlike(q, top, offer);
      }
    }
  }

  /** So any offer that clears the most grown pair, a clearing offer saved by its margin included, is
      accepted at every later view that is lifted. */
  lemma MostGrownClearingSurvives(p: LiquidationPair, q: LiquidationPair, dTokens: int, now: nat, offer: int)
    requires Accruing(p, dTokens) && LaterView(p, q, dTokens, now) && offer >= 1
    requires MostGrownPair(p, dTokens, now).Ok? && MostGrownPair(p, dTokens, now).value.PositionCollateral().Ok?
    requires var top := MostGrownPair(p, dTokens, now).value;
             Clears(top, offer, top.PositionCollateral().value, true)
    requires q.rules.NoDust? && q.LiftsCloseFactor() == Ok(true) && q.Quote(offer).Ok?
    ensures q.Accepts(offer)
  {
    hide LiquidationPair.Buys, LiquidationPair.LiftsCloseFactor, LiquidationPair.ExceedsCloseFactor, LiquidationPair.IsSmallPosition,
         LiquidationPair.PositionCollateral, MostGrownPair, Clears, Keeps, GrownView;
    ClearsEveryGrowthIff(p, dTokens, now, offer);
    var collateral := q.PositionCollateral().value;
    if q.positionDebt > 0 && collateral > 0 {
      LiftedNeverExceeds(q, Min(offer, q.positionDebt));
      Verdict(q, offer, collateral, true);
    }
  }
}
