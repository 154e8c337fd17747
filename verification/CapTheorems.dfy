/** The planner's caps against the market's checks, sizing under a budget, and sweep quotes. */
module CapTheorems {
  import opened Arithmetic
  import opened Liquidation
  import opened LiquidationLaws
  import opened RepaySizing
  import opened SizingTheorems

  // ----- The close factor

  /** The market's ceil check and the planner's floor cap are exact duals; a saturated cap only
      ever errs on the safe side. */
  lemma CloseFactorDual(repaid: int, debt: int, closeFactorBps: int)
    requires debt > 0 && repaid >= 0 && closeFactorBps >= 0
    requires MulDivCeil(repaid, BPS_FACTOR, debt).Ok?
    ensures repaid <= CloseFactorRepayCap(false, debt, closeFactorBps) ==>
              MulDivCeil(repaid, BPS_FACTOR, debt).value <= closeFactorBps
    ensures debt * closeFactorBps <= I128_MAX ==>
              (MulDivCeil(repaid, BPS_FACTOR, debt).value <= closeFactorBps <==>
                repaid <= CloseFactorRepayCap(false, debt, closeFactorBps))
  {
    MulDivCeilSpec(repaid, BPS_FACTOR, debt);
    CeilGalois(repaid * BPS_FACTOR, debt, closeFactorBps);
    FixedMulFloorSpec(debt, closeFactorBps);
    FloorGalois(debt * closeFactorBps, BPS_FACTOR, repaid);
  }

  /** A repay within the planner's cap. */
  predicate WithinCap(p: LiquidationPair, repay: int, lifted: bool) {
    && p.borrowPool.liquidationCloseFactorBps >= 0
    && 1 <= repay <= Min(p.positionDebt, CloseFactorRepayCap(lifted, p.positionDebt, p.borrowPool.liquidationCloseFactorBps))
  }

  /** A repay within the planner's cap is never over the close factor. */
  lemma CapNeverOverCloseFactor(p: LiquidationPair, repay: int, collateral: int, lifted: bool)
    requires Live(p, collateral, lifted) && WithinCap(p, repay, lifted)
    requires p.Quote(repay).Ok?
    ensures !p.Quote(repay).value.OverCloseFactor?
    ensures p.Accepts(repay) <==> Clears(p, repay, collateral, lifted) || Keeps(p, repay, collateral, lifted)
  {
    hide LiquidationPair.Buys, LiquidationPair.LiftsCloseFactor, LiquidationPair.PositionCollateral,
         LiquidationPair.Quote, KeepsBothSides, CloseFactorRepayCap, MulDivCeil;
    Verdict(p, repay, collateral, lifted);
    if !lifted {
      CloseFactorDual(repay, p.positionDebt, p.borrowPool.liquidationCloseFactorBps);
    }
  }

  /** The market refuses an offer for the close factor exactly when the pair is not lifted and
      the repaid share of the debt exceeds it. */
  lemma OverCloseFactorIff(p: LiquidationPair, offer: int, collateral: int, lifted: bool)
    requires Live(p, collateral, lifted) && offer >= 1 && p.Quote(offer).Ok?
    ensures p.Quote(offer).value.OverCloseFactor? <==>
              !lifted && Min(offer, p.positionDebt) * BPS_FACTOR > p.borrowPool.liquidationCloseFactorBps * p.positionDebt
  {
    hide LiquidationPair.Buys, LiquidationPair.LiftsCloseFactor, LiquidationPair.PositionCollateral,
         LiquidationPair.Quote, Clears, Keeps, KeepsBothSides, MulDivCeil;
    Verdict(p, offer, collateral, lifted);
    var repaid := Min(offer, p.positionDebt);
    MulDivCeilSpec(repaid, BPS_FACTOR, p.positionDebt);
    CeilGalois(repaid * BPS_FACTOR, p.positionDebt, p.borrowPool.liquidationCloseFactorBps);
  }

  /** Within the cap the partial search succeeds as soon as a repay of 1 keeps both sides, and
      returns the largest repay up to `upper` that does. */
  lemma PartialRepaySucceeds(p: LiquidationPair, upper: int, collateral: int, lifted: bool)
    requires Live(p, collateral, lifted) && WithinCap(p, upper, lifted)
    requires LargestPartialRepay(p, upper).Ok?
    ensures var r := LargestPartialRepay(p, upper).value;
            && (r.Some? <==> Keeps(p, 1, collateral, lifted))
            && (r.Some? ==>
                  && 1 <= r.value <= upper
                  && Keeps(p, r.value, collateral, lifted)
                  && p.Accepts(r.value)
                  && forall x :: r.value < x <= upper ==> !Keeps(p, x, collateral, lifted))
  {
    hide LiquidationPair.Buys, LiquidationPair.LiftsCloseFactor, LiquidationPair.PositionCollateral,
         LiquidationPair.DustFloor, LiquidationPair.Quote, KeepsBothSides, CloseFactorRepayCap;
    var floor := p.DustFloor().value;
    GreatestKeepingIsGreatest(p, collateral, lifted, floor, upper);
    var low := GreatestKeeping(p, collateral, lifted, floor, upper);
    var one := KeepsBothSides(p, 1, p.positionDebt, collateral, lifted, floor);
    assert one == Ok(one.value);
    if one.value {
      assert Keeps(p, low, collateral, lifted);
      CapNeverOverCloseFactor(p, low, collateral, lifted);
    }
  }

  // ----- Completeness under the close factor

  /** On a pair that is not lifted, a repay within the cap that clears a side has a verdict as soon
      as a larger offer has one. */
  lemma ClearingVerdictDefined(p: LiquidationPair, repay: int, offer: int, collateral: int)
    requires Live(p, collateral, false) && 1 <= repay <= Min(offer, p.positionDebt)
    requires p.Quote(offer).Ok? && Clears(p, repay, collateral, false)
    requires p.Buys(p.positionDebt, false).Ok?
    ensures p.Quote(repay).Ok?
  {
    hide LiquidationPair.Buys, LiquidationPair.PositionCollateral, LiquidationPair.IsSmallPosition, LiquidationPair.DustFloor,
         LiquidationPair.WholePositionRepay, ValueFloor, ValueCeil, MulDivCeil;
    BuysMonotone(p, repay, p.positionDebt, false);
    MulDivCeilMonotone(repay, Min(offer, p.positionDebt), BPS_FACTOR, p.positionDebt);
  }

  /** The offer the fit tries for a repay that clears a side: padded, within the budget. */
  function TriedOffer(repay: int, padded: int, maxOffer: int): int {
    Min(Max(repay, padded), maxOffer)
  }

  /** When the fit of a repay within the cap is `None`, a repay of 1 does not keep both sides, and
      nothing in [1, repay] is accepted exactly when the repay is under the snapshot clearing. At or
      over it the repay is acceptable as it stands, and its padding is over the close factor. */
  lemma UnfittedRepay(p: LiquidationPair, collateral: int, lifted: bool, repay: int, maxOffer: int)
    requires Live(p, collateral, lifted) && WithinCap(p, repay, lifted) && repay <= maxOffer
    requires FittedRepay(p, repay, maxOffer) == Ok(None)
    ensures ClearingOf(p).Ok? && ClearingOf(p).value.Some?
    ensures var Clearing(s, padded) := ClearingOf(p).value.value;
            && ((forall x :: 1 <= x <= repay ==> !p.Accepts(x)) <==> repay < s)
            && !Keeps(p, 1, collateral, lifted)
            && (repay >= s ==>
                  && !lifted
                  && p.Accepts(repay)
                  && p.Quote(TriedOffer(repay, padded, maxOffer)) == Ok(OverCloseFactor))
  {
    hide LiquidationPair.Buys, LiquidationPair.LiftsCloseFactor, LiquidationPair.PositionCollateral,
         LiquidationPair.Quote, KeepsBothSides, ClearingOf, LargestPartialRepay, CloseFactorRepayCap, Clears, Keeps;
    ClearingDefined(p);
    var Clearing(s, padded) := ClearingOf(p).value.value;
    PartialRepaySucceeds(p, repay, collateral, lifted);
    ClearsFromSnapshot(p, collateral, lifted, repay);
    if repay < s {
      forall x | 1 <= x <= repay
        ensures !p.Accepts(x)
      {
        UnderSnapshotNotAccepted(p, collateral, lifted, x, repay);
      }
    } else {
      var offer := TriedOffer(repay, padded, maxOffer);
      ClearsFromSnapshot(p, collateral, lifted, offer);
      Verdict(p, offer, collateral, lifted);
      LiftedMeansWithin(p, offer, lifted);
      ClearingVerdictDefined(p, repay, offer, collateral);
      CapNeverOverCloseFactor(p, repay, collateral, lifted);
    }
  }

  /** Exactly when the fit of a repay within the cap misses an offer the market would take: the close
      factor binds, the repay clears a side as it stands, its padding is over the close factor, and a
      repay of 1 does not keep both sides. */
  lemma FittedRepayCompleteWithinCap(p: LiquidationPair, collateral: int, lifted: bool, repay: int, maxOffer: int)
    requires Live(p, collateral, lifted) && WithinCap(p, repay, lifted) && repay <= maxOffer
    requires FittedRepay(p, repay, maxOffer).Ok?
    ensures ClearingOf(p).Ok? && ClearingOf(p).value.Some?
    ensures var Clearing(s, padded) := ClearingOf(p).value.value;
            (FittedRepay(p, repay, maxOffer) == Ok(None) && exists x :: 1 <= x <= repay && p.Accepts(x))
            <==>
            && !lifted
            && repay >= s
            && Min(TriedOffer(repay, padded, maxOffer), p.positionDebt) * BPS_FACTOR
                 > p.borrowPool.liquidationCloseFactorBps * p.positionDebt
            && !Keeps(p, 1, collateral, lifted)
  {
    hide LiquidationPair.Buys, LiquidationPair.LiftsCloseFactor, LiquidationPair.PositionCollateral,
         LiquidationPair.Quote, KeepsBothSides, ClearingOf, LargestPartialRepay, CloseFactorRepayCap, Clears, Keeps;
    ClearingDefined(p);
    var Clearing(s, padded) := ClearingOf(p).value.value;
    ClearsFromSnapshot(p, collateral, lifted, repay);
    var fitted, offer := FittedRepay(p, repay, maxOffer), TriedOffer(repay, padded, maxOffer);
    assert fitted.value.None? ==> fitted == Ok(None);
    if repay >= s {
      OverCloseFactorIff(p, offer, collateral, lifted);
    }
    if fitted == Ok(None) {
      UnfittedRepay(p, collateral, lifted, repay, maxOffer);
    } else if repay >= s && p.Quote(offer).value.OverCloseFactor? {
      PartialRepaySucceeds(p, repay, collateral, lifted);
    }
  }

  lemma LiftedMeansWithin(p: LiquidationPair, offer: int, lifted: bool)
    ensures lifted ==> p.ExceedsCloseFactor(Min(offer, p.positionDebt), lifted) == Ok(false)
  {
  }

  lemma UnderSnapshotNotAccepted(p: LiquidationPair, collateral: int, lifted: bool, x: int, repay: int)
    requires Live(p, collateral, lifted) && 1 <= x <= repay && ClearingOf(p).Ok? && ClearingOf(p).value.Some?
    requires repay < ClearingOf(p).value.value.atSnapshot
    requires LargestPartialRepay(p, repay).Ok? && !Keeps(p, 1, collateral, lifted)
    ensures !p.Accepts(x)
  {
    hide LiquidationPair.Buys, LiquidationPair.LiftsCloseFactor, LiquidationPair.PositionCollateral, LiquidationPair.DustFloor,
         LiquidationPair.Quote, KeepsBothSides, ClearingOf, Clears;
    if p.Accepts(x) {
      Verdict(p, x, collateral, lifted);
      ClearsFromSnapshot(p, collateral, lifted, x);
      KeepsDownward(p, 1, x, collateral, lifted);
    }
  }

  /** Lifted or not, the offers a pair accepts are those of [1, edge] and [snapshot, infinity) that the
      close factor, where it binds, lets through. */
  lemma AcceptedUnderCloseFactor(p: LiquidationPair, collateral: int, lifted: bool, offer: int)
    requires Live(p, collateral, lifted) && offer >= 1
    requires ClearingOf(p).Ok? && p.Quote(offer).Ok?
    ensures ClearingOf(p).value.Some?
    ensures var s := ClearingOf(p).value.value.atSnapshot;
            var edge := PartialEdge(p, collateral, lifted, p.positionDebt);
            && 0 <= edge < s <= p.positionDebt
            && (p.Accepts(offer) <==>
                  && (lifted || Min(offer, p.positionDebt) * BPS_FACTOR <= p.borrowPool.liquidationCloseFactorBps * p.positionDebt)
                  && (offer <= edge || s <= offer))
  {
    hide LiquidationPair.Buys, LiquidationPair.LiftsCloseFactor, LiquidationPair.PositionCollateral,
         LiquidationPair.DustFloor, LiquidationPair.Quote, KeepsBothSides, ClearingOf;
    Verdict(p, offer, collateral, lifted);
    OverCloseFactorIff(p, offer, collateral, lifted);
    ClearsFromSnapshot(p, collateral, lifted, offer);
    EdgeBelowSnapshot(p, collateral, lifted);
    PartialEdgeIsGreatest(p, collateral, lifted, p.positionDebt);
    var edge := PartialEdge(p, collateral, lifted, p.positionDebt);
    if Keeps(p, offer, collateral, lifted) {
      KeepsDownward(p, offer, offer, collateral, lifted);
    }
    if offer <= edge && !p.Quote(offer).value.OverCloseFactor? {
      KeepsDownward(p, offer, edge, collateral, lifted);
    }
  }

  // ----- Sizing under a budget

  /** An offer fitted with unlimited capital is the offer fitted to any wallet that can pay it
      and the clearing offer: the wallet changes nothing. */
  lemma WalletFitsUnlimited(p: LiquidationPair, collateral: int, lifted: bool, planned: int, usable: int)
    requires Live(p, collateral, lifted) && WithinCap(p, planned, lifted) && planned <= I128_MAX
    requires FittedRepay(p, planned, I128_MAX).Ok? && FittedRepay(p, planned, I128_MAX).value.Some?
    requires usable >= FittedRepay(p, planned, I128_MAX).value.value
    requires ClearingOf(p).Ok? && ClearingOf(p).value.Some? ==> usable >= ClearingOf(p).value.value.offer
    requires usable <= I128_MAX
    ensures planned <= usable
    ensures FittedRepay(p, Min(planned, usable), usable) == FittedRepay(p, planned, I128_MAX)
  {
    hide LiquidationPair.Buys, LiquidationPair.LiftsCloseFactor, LiquidationPair.PositionCollateral,
         LiquidationPair.Quote, ClearingOf, LargestPartialRepay, CloseFactorRepayCap, Keeps, Clears;
    ClearingDefined(p);
    PaddedOfferAtLeastSnapshot(p);
    var Clearing(s, padded) := ClearingOf(p).value.value;
    if planned > usable {
      // Then planned > padded >= s, so the planned repay clears and is offered as it is.
      ClearsFromSnapshot(p, collateral, lifted, planned);
      assert Min(Max(planned, padded), I128_MAX) == planned;
      CapNeverOverCloseFactor(p, planned, collateral, lifted);
    }
  }

  // ----- Sweep markets

  /** A sweep quote stays within the position. It takes the whole of it, or what the incentive
      and the LTV cap allow while the rest is worth at least the floor. */
  lemma SweepLeavesNoDust(p: LiquidationPair, repay: int)
    requires p.WellFormed() && p.rules.Sweep? && p.QuoteSweep(repay).Ok?
    requires p.obligationDebtValue > 0 && p.obligationCollateralValue > 0
    requires repay > 0 && p.SweepPosition().Ok? && p.SweepPosition().value > 0
    ensures var seized := p.QuoteSweep(repay).value;
            var position := p.SweepPosition().value;
            && 0 <= seized <= position
            && (seized == position
                || (&& p.DustFloor().Ok?
                    && ValueFloor(position - seized, p.collateralPool).Ok?
                    && ValueFloor(position - seized, p.collateralPool).value >= p.DustFloor().value
                    && ValueFloor(repay, p.borrowPool).Ok?
                    && var value := ValueFloor(repay, p.borrowPool).value;
                    && p.BuysAtIncentive(value).Ok? && seized <= p.BuysAtIncentive(value).value
                    && (!p.isInsolvent ==> p.SweepLtvCap(value).Ok? && seized <= p.SweepLtvCap(value).value)))
  {
    hide LiquidationPair.BuysAtIncentive, LiquidationPair.SweepLtvCap, LiquidationPair.SweepPosition,
         LiquidationPair.DustFloor, ValueFloor;
    var position := p.SweepPosition().value;
    ValueFloorMonotone(repay, repay, p.borrowPool);
    var value := ValueFloor(repay, p.borrowPool).value;
    BuysAtIncentiveMonotone(p, value, value);
    if !p.isInsolvent {
      SweepCapNonNegative(p, value);
    }
  }

  lemma SweepCapNonNegative(p: LiquidationPair, value: int)
    requires p.WellFormed() && value >= 0 && p.SweepLtvCap(value).Ok?
    requires p.obligationDebtValue > 0 && p.obligationCollateralValue > 0
    ensures p.SweepLtvCap(value).value >= 0
  {
    hide MulDiv, AmountFloor;
    MulDivSpec(p.obligationCollateralValue, SCALAR_9, p.obligationDebtValue);
    var factor := MulDiv(p.obligationCollateralValue, SCALAR_9, p.obligationDebtValue).value;
    MulDivSpec(value, factor, SCALAR_9);
    var twoStep := p.TwoStepValue(value).value;
    MulDivSpec(twoStep, 999, 1000);
    var strict := MulDiv(twoStep, 999, 1000).value;
    AmountFloorMonotone(strict, strict, p.collateralPool);
  }

  /** The two-step cap through a 1e9 health factor never exceeds the one-product cap, and falls
      short of it by less than repaid value / 1e9 + 1. */
  lemma TwoStepCapBracket(p: LiquidationPair, repaidValue: int)
    requires repaidValue >= 0 && p.obligationDebtValue > 0 && p.obligationCollateralValue >= 0
    requires p.TwoStepValue(repaidValue).Ok?
    ensures var direct := repaidValue * p.obligationCollateralValue / p.obligationDebtValue;
            var twoStep := p.TwoStepValue(repaidValue).value;
            && 0 <= twoStep <= direct
            && (direct - twoStep - 1) * SCALAR_9 < Max(repaidValue, 1)
  {
    hide MulDiv;
    var (held, debt) := (p.obligationCollateralValue, p.obligationDebtValue);
    MulDivSpec(held, SCALAR_9, debt);
    var factor := MulDiv(held, SCALAR_9, debt).value;
    MulDivSpec(repaidValue, factor, SCALAR_9);
    var twoStep := p.TwoStepValue(repaidValue).value;
    var direct := repaidValue * held / debt;
    FloorGalois(repaidValue * held, debt, direct);
    // Never above: twoStep * 1e9 <= repaid * factor and factor * debt <= held * 1e9.
    TwoStepBelow(repaidValue, held, debt, factor, twoStep);
    FloorGalois(repaidValue * held, debt, twoStep);
    TwoStepShortfall(repaidValue, held, debt, factor, twoStep, direct);
  }

  lemma TwoStepBelow(value: int, held: int, debt: int, factor: int, twoStep: int)
    requires value >= 0 && debt > 0
    requires twoStep * SCALAR_9 <= value * factor
    requires factor * debt <= held * SCALAR_9
    ensures twoStep * debt <= value * held
  {
    MulLe(twoStep * SCALAR_9, value * factor, debt);
    MulLe(factor * debt, held * SCALAR_9, value);
    assert twoStep * SCALAR_9 * debt == twoStep * debt * SCALAR_9;
    assert value * factor * debt == factor * debt * value;
    assert held * SCALAR_9 * value == value * held * SCALAR_9;
  }

  lemma TwoStepShortfall(value: int, held: int, debt: int, factor: int, twoStep: int, direct: int)
    requires value >= 0 && debt > 0
    requires value * factor < twoStep * SCALAR_9 + SCALAR_9
    requires held * SCALAR_9 < factor * debt + debt
    requires direct * debt <= value * held
    ensures (direct - twoStep - 1) * SCALAR_9 < Max(value, 1)
  {
    // direct * 1e9 * debt <= value * held * 1e9 <= value * (factor + 1) * debt
    MulLe(direct * debt, value * held, SCALAR_9);
    MulLe(held * SCALAR_9, (factor + 1) * debt, value);
    assert held * SCALAR_9 * value == value * held * SCALAR_9;
    assert direct * debt * SCALAR_9 == direct * SCALAR_9 * debt;
    assert (factor + 1) * debt * value == value * (factor + 1) * debt;
    assert value * (factor + 1) == value * factor + value;
    Cancel(direct * SCALAR_9, value * (factor + 1), debt);
  }
}
