/** Sizing an offer: the least clearing repay, the largest partial repay, and the fitted offer.

    Each search is specified by a linear scan; the keeper's bisections are proved to return
    what the scan returns. */
module RepaySizing {
  import opened Arithmetic
  import opened Liquidation
  import opened LiquidationLaws

  // ----- Specifications

  /** The first repay in [low, high) that buys at least `target`, else `high`. */
  function LeastBuying(p: LiquidationPair, lifted: bool, target: int, low: int, high: int): int
    decreases high - low
  {
    if low >= high then high
    else if p.Buys(low, lifted).Ok? && p.Buys(low, lifted).value >= target then low
    else LeastBuying(p, lifted, target, low + 1, high)
  }

  /** The least repay up to `debt` that buys `target`; `None` when the whole debt does not. */
  function RepayBuying(p: LiquidationPair, lifted: bool, target: int, debt: int): Result<Option<int>> {
    var whole :- p.Buys(debt, lifted);
    Ok(if whole < target then None else Some(LeastBuying(p, lifted, target, 1, debt)))
  }

  function PaddedOffer(p: LiquidationPair, clearsAt: Option<int>, grownDebt: int): Result<int> {
    match clearsAt
    case Some(repay) =>
      var small :- p.IsSmallPosition();
      Grown(repay, if small then p.margin.refundedBps else p.margin.unrefundedBps)
    case None => Grown(grownDebt, p.margin.refundedBps)
  }

  function GrownCollateral(p: LiquidationPair): Result<int> {
    var supplied :- p.SuppliedTokens();
    var grownSupply :- Grown(supplied, p.supplyAccrualBps);
    Checked(p.deposit.collateral + grownSupply)
  }

  function ClearingOf(p: LiquidationPair): Result<Option<Clearing>> {
    var collateral :- p.PositionCollateral();
    if p.positionDebt <= 0 || collateral <= 0 then Ok(None)
    else
      var lifted :- p.LiftsCloseFactor();
      var grownDebt :- Grown(p.positionDebt, p.debtAccrualBps);
      var grownCollateral :- GrownCollateral(p);
      var afterGrowth :- RepayBuying(p, lifted, grownCollateral, grownDebt);
      var offer :- PaddedOffer(p, afterGrowth, grownDebt);
      var now :- RepayBuying(p, lifted, collateral, p.positionDebt);
      Ok(Some(Clearing(if now.Some? then now.value else p.positionDebt, offer)))
  }

  /** The last repay in (1, high] that keeps both sides, else 1. */
  function GreatestKeeping(p: LiquidationPair, collateral: int, lifted: bool, floor: int, high: int): int
    decreases high
  {
    if high <= 1 then 1
    else if KeepsBothSides(p, high, p.positionDebt, collateral, lifted, floor) == Ok(true) then high
    else GreatestKeeping(p, collateral, lifted, floor, high - 1)
  }

  function LargestPartialRepay(p: LiquidationPair, upper: int): Result<Option<int>> {
    var collateral :- p.PositionCollateral();
    var lifted :- p.LiftsCloseFactor();
    var floor :- p.DustFloor();
    if upper < 1 then Ok(None)
    else
      var one :- KeepsBothSides(p, 1, p.positionDebt, collateral, lifted, floor);
      if !one then Ok(None)
      else
        var low := GreatestKeeping(p, collateral, lifted, floor, upper);
        var verdict :- p.Quote(low);
        Ok(if verdict.Accepted? then Some(low) else None)
  }

  function FittedRepay(p: LiquidationPair, repay: int, maxOffer: int): Result<Option<int>> {
    if p.rules.Sweep? then Ok(Some(repay))
    else
      var clearing :- ClearingOf(p);
      if clearing.Some? && repay >= clearing.value.atSnapshot then
        var offer := Min(Max(repay, clearing.value.offer), maxOffer);
        var verdict :- p.Quote(offer);
        if verdict.Accepted? then Ok(Some(offer)) else LargestPartialRepay(p, Min(repay, maxOffer))
      else
        var verdict :- p.Quote(repay);
        if verdict.Accepted? then Ok(Some(repay))
        else if clearing.Some? && clearing.value.offer <= maxOffer then
          var clear :- p.Quote(clearing.value.offer);
          if clear.Accepted? then Ok(Some(clearing.value.offer)) else LargestPartialRepay(p, Min(repay, maxOffer))
        else LargestPartialRepay(p, Min(repay, maxOffer))
  }

  // ----- What the scans find

  lemma {:induction false} LeastBuyingIsLeast(p: LiquidationPair, lifted: bool, target: int, low: int, high: int)
    requires p.WellFormed() && 1 <= low <= high
    requires p.Buys(high, lifted).Ok? && p.Buys(high, lifted).value >= target
    ensures var r := LeastBuying(p, lifted, target, low, high);
            && low <= r <= high
            && p.Buys(r, lifted).Ok? && p.Buys(r, lifted).value >= target
            && forall x :: low <= x < r ==> p.Buys(x, lifted).Ok? && p.Buys(x, lifted).value < target
    decreases high - low
  {
    hide LiquidationPair.Buys;
    BuysMonotone(p, low, high, lifted);
    if low < high && p.Buys(low, lifted).value < target {
      LeastBuyingIsLeast(p, lifted, target, low + 1, high);
    }
  }

  /** The scan's answer is the only one with its properties. */
  lemma LeastBuyingUnique(p: LiquidationPair, lifted: bool, target: int, high: int, r: int)
    requires p.WellFormed() && 1 <= r <= high
    requires p.Buys(high, lifted).Ok? && p.Buys(high, lifted).value >= target
    requires p.Buys(r, lifted).Ok? && p.Buys(r, lifted).value >= target
    requires forall x :: 1 <= x < r ==> p.Buys(x, lifted).Ok? && p.Buys(x, lifted).value < target
    ensures r == LeastBuying(p, lifted, target, 1, high)
  {
    hide LiquidationPair.Buys;
    LeastBuyingIsLeast(p, lifted, target, 1, high);
  }

  lemma {:induction false} GreatestKeepingIsGreatest(p: LiquidationPair, collateral: int, lifted: bool, floor: int, high: int)
    requires high >= 1
    ensures var g := GreatestKeeping(p, collateral, lifted, floor, high);
            && 1 <= g <= high
            && (g > 1 ==> KeepsBothSides(p, g, p.positionDebt, collateral, lifted, floor) == Ok(true))
            && forall x :: g < x <= high ==>
                 KeepsBothSides(p, x, p.positionDebt, collateral, lifted, floor) != Ok(true)
    decreases high
  {
    hide KeepsBothSides;
    if high > 1 && KeepsBothSides(p, high, p.positionDebt, collateral, lifted, floor) != Ok(true) {
      GreatestKeepingIsGreatest(p, collateral, lifted, floor, high - 1);
    }
  }

  /** Once a repay fails to keep both sides, every larger one fails too. */
  lemma FailsAbove(p: LiquidationPair, repay: int, more: int, collateral: int, lifted: bool)
    requires Live(p, collateral, lifted) && 1 <= repay <= more
    requires p.Buys(p.positionDebt, lifted).Ok? && Keeps(p, 1, collateral, lifted)
    requires KeepsBothSides(p, repay, p.positionDebt, collateral, lifted, p.DustFloor().value) == Ok(false)
    ensures KeepsBothSides(p, more, p.positionDebt, collateral, lifted, p.DustFloor().value) == Ok(false)
  {
    hide LiquidationPair.Buys, LiquidationPair.LiftsCloseFactor, LiquidationPair.PositionCollateral, LiquidationPair.DustFloor, KeepsBothSides;
    BuysMonotone(p, Min(more, p.positionDebt), p.positionDebt, lifted);
    KeepsDefinedAbove(p, more, collateral, lifted);
    var keeps := KeepsBothSides(p, more, p.positionDebt, collateral, lifted, p.DustFloor().value);
    if keeps.value {
      assert keeps == Ok(true);
      KeepsDownward(p, repay, more, collateral, lifted);
    }
    assert keeps == Ok(keeps.value);
  }

  // ----- The keeper's bisections

  method FindRepayBuying(p: LiquidationPair, lifted: bool, target: int, debt: int) returns (r: Result<Option<int>>)
    ensures p.WellFormed() ==> r == RepayBuying(p, lifted, target, debt)
  {
    hide LiquidationPair.Buys;
    var whole :- p.Buys(debt, lifted);
    if whole < target {
      return Ok(None);
    }
    var low, high := 1, debt;
    while low < high
      invariant high <= debt && (debt >= 1 ==> 1 <= low <= high)
      invariant debt < 1 ==> high == debt
      invariant p.WellFormed() ==> p.Buys(high, lifted).Ok? && p.Buys(high, lifted).value >= target
      invariant p.WellFormed() ==>
                  forall x :: 1 <= x < low ==> p.Buys(x, lifted).Ok? && p.Buys(x, lifted).value < target
    {
      var mid := low + (high - low) / 2;
      if p.WellFormed() {
        BuysMonotone(p, mid, high, lifted);
      }
      var bought :- p.Buys(mid, lifted);
      if bought >= target {
        high := mid;
      } else {
        if p.WellFormed() {
          forall x | 1 <= x < mid + 1
            ensures p.Buys(x, lifted).Ok? && p.Buys(x, lifted).value < target
          {
            BuysMonotone(p, x, mid, lifted);
          }
        }
        low := mid + 1;
      }
    }
    if p.WellFormed() && debt >= 1 {
      LeastBuyingUnique(p, lifted, target, debt, high);
    }
    return Ok(Some(high));
  }

  method FindClearing(p: LiquidationPair) returns (r: Result<Option<Clearing>>)
    ensures p.WellFormed() ==> r == ClearingOf(p)
  {
    hide LiquidationPair.LiftsCloseFactor, LiquidationPair.PositionCollateral, GrownCollateral, PaddedOffer, RepayBuying, Grown;
    var collateral :- p.PositionCollateral();
    if p.positionDebt <= 0 || collateral <= 0 {
      return Ok(None);
    }
    var lifted :- p.LiftsCloseFactor();
    var grownDebt :- Grown(p.positionDebt, p.debtAccrualBps);
    var grownCollateral :- GrownCollateral(p);
    var afterGrowth :- FindRepayBuying(p, lifted, grownCollateral, grownDebt);
    var offer :- PaddedOffer(p, afterGrowth, grownDebt);
    var now :- FindRepayBuying(p, lifted, collateral, p.positionDebt);
    return Ok(Some(Clearing(if now.Some? then now.value else p.positionDebt, offer)));
  }

  method FindLargestPartialRepay(p: LiquidationPair, upper: int) returns (r: Result<Option<int>>)
    ensures r.Ok? && r.value.Some? ==> p.Accepts(r.value.value) && 1 <= r.value.value <= upper
    ensures p.WellFormed() && p.rules.NoDust? && p.positionDebt > 0
            && p.PositionCollateral().Ok? && p.PositionCollateral().value > 0
            && p.LiftsCloseFactor().Ok? && p.Buys(p.positionDebt, p.LiftsCloseFactor().value).Ok?
            ==> r == LargestPartialRepay(p, upper)
  {
    hide LiquidationPair.Buys, LiquidationPair.LiftsCloseFactor, LiquidationPair.PositionCollateral, LiquidationPair.DustFloor,
         LiquidationPair.Quote, KeepsBothSides;
    var collateral :- p.PositionCollateral();
    var lifted :- p.LiftsCloseFactor();
    var floor :- p.DustFloor();
    if upper < 1 {
      return Ok(None);
    }
    var one :- KeepsBothSides(p, 1, p.positionDebt, collateral, lifted, floor);
    if !one {
      return Ok(None);
    }
    ghost var defined := Live(p, collateral, lifted) && p.Buys(p.positionDebt, lifted).Ok?;
    var low, high := 1, upper;
    while low < high
      invariant 1 <= low <= high <= upper
      invariant KeepsBothSides(p, low, p.positionDebt, collateral, lifted, floor) == Ok(true)
      invariant defined ==> forall x :: high < x <= upper ==>
                  KeepsBothSides(p, x, p.positionDebt, collateral, lifted, floor) == Ok(false)
    {
      var mid := low + (high - low + 1) / 2;
      if defined {
        forall x | 1 <= x <= upper
          ensures KeepsBothSides(p, x, p.positionDebt, collateral, lifted, floor).Ok?
        {
          BuysMonotone(p, Min(x, p.positionDebt), p.positionDebt, lifted);
          KeepsDefinedAbove(p, x, collateral, lifted);
        }
      }
      var keeps :- KeepsBothSides(p, mid, p.positionDebt, collateral, lifted, floor);
      if keeps {
        low := mid;
      } else {
        if defined {
          forall x | mid <= x <= upper
            ensures KeepsBothSides(p, x, p.positionDebt, collateral, lifted, floor) == Ok(false)
          {
            FailsAbove(p, mid, x, collateral, lifted);
          }
        }
        high := mid - 1;
      }
    }
    GreatestKeepingIsGreatest(p, collateral, lifted, floor, upper);
    var verdict :- p.Quote(low);
    return Ok(if verdict.Accepted? then Some(low) else None);
  }

  /** The offer for a planned repay. Whatever it returns on a no-dust market is accepted, and
      within `maxOffer` when the planned repay is. */
  method FitRepay(p: LiquidationPair, repay: int, maxOffer: int) returns (r: Result<Option<int>>)
    ensures p.rules.NoDust? && r.Ok? && r.value.Some? ==> p.Accepts(r.value.value)
    ensures repay <= maxOffer && r.Ok? && r.value.Some? ==> r.value.value <= maxOffer
    ensures p.WellFormed() ==> r == FittedRepay(p, repay, maxOffer)
  {
    hide LiquidationPair.Buys, LiquidationPair.LiftsCloseFactor, LiquidationPair.PositionCollateral, LiquidationPair.Quote,
         ClearingOf, LargestPartialRepay;
    if p.rules.Sweep? {
      return Ok(Some(repay));
    }
    var clearing :- FindClearing(p);
    if p.WellFormed() {
      ClearingDefined(p);
    }
    if clearing.Some? && repay >= clearing.value.atSnapshot {
      var offer := Min(Max(repay, clearing.value.offer), maxOffer);
      var verdict :- p.Quote(offer);
      if verdict.Accepted? {
        return Ok(Some(offer));
      }
    } else {
      var verdict :- p.Quote(repay);
      if verdict.Accepted? {
        return Ok(Some(repay));
      }
      if clearing.Some? && clearing.value.offer <= maxOffer {
        var clear :- p.Quote(clearing.value.offer);
        if clear.Accepted? {
          return Ok(Some(clearing.value.offer));
        }
      }
    }
    r := FindLargestPartialRepay(p, Min(repay, maxOffer));
  }

  /** When there is a clearing the pair is live and buying is defined up to the whole debt; when
      there is none every quote is an empty acceptance. */
  lemma ClearingDefined(p: LiquidationPair)
    requires p.WellFormed() && p.rules.NoDust? && ClearingOf(p).Ok?
    ensures p.PositionCollateral().Ok?
    ensures ClearingOf(p).value.Some? <==> p.positionDebt > 0 && p.PositionCollateral().value > 0
    ensures ClearingOf(p).value.Some? ==>
              && p.LiftsCloseFactor().Ok?
              && Live(p, p.PositionCollateral().value, p.LiftsCloseFactor().value)
              && p.Buys(p.positionDebt, p.LiftsCloseFactor().value).Ok?
    ensures ClearingOf(p).value.None? ==> forall offer :: p.Quote(offer) == Ok(Accepted(0, 0))
  {
    hide LiquidationPair.Buys, LiquidationPair.LiftsCloseFactor, LiquidationPair.PositionCollateral, GrownCollateral, PaddedOffer, Grown;
  }
}
