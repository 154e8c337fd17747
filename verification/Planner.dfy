/** Turning a liquidatable pair into a funded plan.

    The keeper's reads (wallet balances, swap quotes) are arbitrary functions, so what is proved
    here holds for every balance and every quote. */
module Planner {
  import opened Arithmetic
  import opened Pool
  import opened Market
  import opened Profitability
  import opened Liquidation
  import opened RepaySizing
  import opened BadDebt

  datatype Keeper = Keeper(
    xlmAddress: string,
    xlmSafetyMargin: int,
    dustRules: DustRules,
    minProfitMarginCents: int,
    maxAllowedSwapSlippageBps: int,
    assetsToHold: seq<string>,
    swapProviders: seq<string>,
    /** Wallet balance of a token. */
    balance: string -> Result<int>,
    /** What `amountIn` of one token buys of another at a provider. */
    amountOut: (int, string, string, string) -> Result<int>,
    /** What an amount of one token costs in another at a provider. */
    amountIn: (int, string, string, string) -> Result<int>)
  {
    /** A balance less the XLM safety margin. */
    function Usable(token: string, raw: int): int {
      if token == xlmAddress then Clamp(raw - xlmSafetyMargin) else raw
    }

    /** What the wallet can put into a Direct repay; an unreadable balance counts as none. */
    function UsableBalance(token: string): int {
      Usable(token, if balance(token).Ok? then balance(token).value else 0)
    }

    function LessSlippage(amount: int): int {
      Quot(Clamp(amount * (BPS_FACTOR - maxAllowedSwapSlippageBps)), BPS_FACTOR)
    }

    function PlusSlippage(amount: int): int {
      Quot(Clamp(amount * (BPS_FACTOR + maxAllowedSwapSlippageBps)), BPS_FACTOR)
    }
  }

  datatype LiquidationType =
    | Direct
    | PreSwap(sourceAsset: string, sourceAmountIn: int, minAmountOut: int, provider: string)
    | Flash(flashRepayAmount: int, provider: string, immediateWithdrawAmount: int)

  datatype LiquidationPlan = LiquidationPlan(
    repayAmount: int,
    netProfitValue: int,
    expectedSeizedCollateral: int,
    liquidationType: LiquidationType,
    borrowPoolAddress: string,
    collateralPoolAddress: string)

  // ----- What "funded" means

  /** The market accepts the plan's repay, in the pair's pools, and seizes what the plan expects. */
  predicate Honoured(p: LiquidationPair, plan: LiquidationPlan) {
    && plan.borrowPoolAddress == p.borrowPool.poolAddress && plan.collateralPoolAddress == p.collateralPool.poolAddress
    && p.Accepts(plan.repayAmount)
    && p.Quote(plan.repayAmount).value.seized == plan.expectedSeizedCollateral > 0
  }

  predicate DirectFunded(k: Keeper, p: LiquidationPair, plan: LiquidationPlan) {
    plan.liquidationType.Direct? && plan.repayAmount <= k.UsableBalance(p.borrowPool.tokenAddress)
  }

  /** The flash loan fits the pool's liquidity and the swap of exactly the seized collateral, at
      the quoted output less slippage, repays it with its fee. */
  predicate FlashFunded(k: Keeper, p: LiquidationPair, plan: LiquidationPlan) {
    && plan.liquidationType.Flash?
    && plan.repayAmount <= p.borrowPool.totalAvailableAdjusted
    && var Flash(flashRepay, provider, withdrawn) := plan.liquidationType;
    && var fee := FlashFee(plan.repayAmount, p.borrowPool.flashLoanFeeBps);
    && fee.Ok?
    && flashRepay == plan.repayAmount + fee.value
    && provider in k.swapProviders
    && var swapped := Min(plan.expectedSeizedCollateral, p.deposit.collateral) + withdrawn;
    && var quote := k.amountOut(swapped, p.collateralPool.tokenAddress, p.borrowPool.tokenAddress, provider);
    && quote.Ok?
    && k.LessSlippage(quote.value) >= plan.repayAmount + fee.value
    && (p.WellFormed() && p.rules.NoDust? ==>
          swapped == plan.expectedSeizedCollateral && 0 <= withdrawn)
  }

  /** The swap spends at most the swappable balance and its guaranteed output covers the repay. */
  predicate PreSwapFunded(k: Keeper, p: LiquidationPair, plan: LiquidationPlan) {
    && plan.liquidationType.PreSwap?
    && var PreSwap(asset, amountIn, minOut, provider) := plan.liquidationType;
    && asset in k.assetsToHold && asset != p.borrowPool.tokenAddress
    && provider in k.swapProviders
    && k.balance(asset).Ok?
    && amountIn <= k.Usable(asset, k.balance(asset).value)
    && plan.repayAmount <= minOut
    && SwapQuoted(k, asset, p.borrowPool.tokenAddress, amountIn, minOut, provider)
  }

  /** The swap is one the provider quoted, with the slippage allowance taken on the keeper's side. */
  predicate SwapQuoted(k: Keeper, asset: string, target: string, amountIn: int, minOut: int, provider: string) {
    var price, quote := k.amountIn(minOut, asset, target, provider), k.amountOut(amountIn, asset, target, provider);
    || (price.Ok? && amountIn == k.PlusSlippage(price.value))
    || (quote.Ok? && minOut == k.LessSlippage(quote.value))
  }

  /** What a plan hands out: the value of what is seized, or for a flash plan of what is swapped. */
  function Gain(p: LiquidationPair, plan: LiquidationPlan): int {
    SaturatingValue(
      if plan.liquidationType.Flash? then Min(plan.expectedSeizedCollateral, p.deposit.collateral) + plan.liquidationType.immediateWithdrawAmount
      else plan.expectedSeizedCollateral, p.collateralPool)
  }

  /** What it costs, at what the market keeps of the repay: that much of the wallet, the flash
      repayment less the refund, or the swapped asset less the refund. */
  function Cost(p: LiquidationPair, market: MarketData, plan: LiquidationPlan, repaid: int): Option<int> {
    var refund := Clamp(plan.repayAmount - repaid);
    match plan.liquidationType
    case Direct => Some(SaturatingValue(repaid, p.borrowPool))
    case Flash(flashRepay, _, _) => Some(SaturatingValue(Clamp(flashRepay - refund), p.borrowPool))
    case PreSwap(asset, amountIn, _, _) =>
      var source :- TokenPool(market.poolsData, asset);
      Some(Clamp(SaturatingValue(amountIn, source) - SaturatingValue(refund, p.borrowPool)))
  }

  /** The plan nets its gain less its cost, and that is over the minimum margin. */
  predicate Worthwhile(p: LiquidationPair, market: MarketData, plan: LiquidationPlan, minProfitMarginValue: int) {
    && p.Accepts(plan.repayAmount)
    && var cost := Cost(p, market, plan, p.Quote(plan.repayAmount).value.repaid);
    && cost.Some?
    && Gain(p, plan) > 0 && cost.value > 0
    && plan.netProfitValue == Gain(p, plan) - cost.value
    && plan.netProfitValue > minProfitMarginValue
  }

  predicate Funded(k: Keeper, p: LiquidationPair, plan: LiquidationPlan) {
    Honoured(p, plan) &&
    match plan.liquidationType
    case Direct => DirectFunded(k, p, plan)
    case PreSwap(_, _, _, _) => PreSwapFunded(k, p, plan)
    case Flash(_, _, _) => FlashFunded(k, p, plan)
  }

  // ----- Quotes

  /** The pair without accrual estimates, as plans quote it. */
  function Unaccrued(p: LiquidationPair): LiquidationPair {
    p.(debtAccrualBps := 0, supplyAccrualBps := 0, margin := INITIAL_MARGIN)
  }

  /** Accrual estimates and margins size offers; they never change a verdict. */
  lemma QuoteIgnoresAccrual(p: LiquidationPair, repay: int)
    ensures Unaccrued(p).Quote(repay) == p.Quote(repay)
  {
    hide LiquidationPair.QuoteSweep, LiquidationPair.LiftsCloseFactor, LiquidationPair.ExceedsCloseFactor, LiquidationPair.Buys,
         LiquidationPair.AfterRefund, LiquidationPair.LeavesDustBehind, LiquidationPair.PositionCollateral;
    PartsIgnoreAccrual(p, repay);
  }

  lemma PartsIgnoreAccrual(p: LiquidationPair, repay: int)
    ensures var u := Unaccrued(p);
            && u.QuoteSweep(repay) == p.QuoteSweep(repay)
            && u.PositionCollateral() == p.PositionCollateral()
            && u.LiftsCloseFactor() == p.LiftsCloseFactor()
            && (forall repaid, lifted :: u.ExceedsCloseFactor(repaid, lifted) == p.ExceedsCloseFactor(repaid, lifted))
            && (forall repaid, lifted :: u.Buys(repaid, lifted) == p.Buys(repaid, lifted))
            && (forall seized, collateral, repaid :: u.AfterRefund(seized, collateral, repaid) == p.AfterRefund(seized, collateral, repaid))
            && (forall left, debt :: u.LeavesDustBehind(left, debt) == p.LeavesDustBehind(left, debt))
  {
    hide MulDiv, MulDivCeil, FixedMulFloor, SharesToTokensFloor, ValueFloor, ValueCeil, AmountFloor, AmountCeil, CentsToOracleValueFloor;
    var u := Unaccrued(p);
    assert u.IsSmallPosition() == p.IsSmallPosition();
    assert forall value :: u.BuysAtIncentive(value) == p.BuysAtIncentive(value);
    assert forall collateral :: u.WholePositionRepay(collateral) == p.WholePositionRepay(collateral);
    assert forall value :: u.SweepLtvCap(value) == p.SweepLtvCap(value);
    hide LiquidationPair.IsSmallPosition, LiquidationPair.BuysAtIncentive, LiquidationPair.WholePositionRepay, LiquidationPair.SweepLtvCap;
  }

  /** What an accepted repay seizes and costs; nothing when it seizes nothing. */
  function ComputeSeized(p: LiquidationPair, repay: int): Option<(int, int)> {
    match Unaccrued(p).Quote(repay)
    case Ok(Accepted(seized, repaid)) => if seized > 0 then Some((seized, repaid)) else None
    case _ => None
  }

  lemma SeizedIsHonoured(p: LiquidationPair, repay: int)
    requires ComputeSeized(p, repay).Some?
    ensures p.Accepts(repay) && repay > 0
    ensures p.Quote(repay).value.seized == ComputeSeized(p, repay).value.0 > 0
    ensures p.Quote(repay).value.repaid == ComputeSeized(p, repay).value.1
  {
    hide LiquidationPair.LiftsCloseFactor, LiquidationPair.ExceedsCloseFactor, LiquidationPair.Buys,
         LiquidationPair.AfterRefund, LiquidationPair.LeavesDustBehind, LiquidationPair.PositionCollateral,
         LiquidationPair.SweepPosition, LiquidationPair.SweepLtvCap, LiquidationPair.BuysAtIncentive;
    QuoteIgnoresAccrual(p, repay);
  }

  /** A token amount's value, saturating except for the decimals' power. */
  function PlanValue(amount: int, pool: PoolData): Option<int> {
    var factor :- CheckedPow10(pool.tokenDecimals).ToOption();
    Some(Clamp(Quot(Clamp(amount * pool.oracleAssetPrice), factor)))
  }

  lemma PlanValueSaturates(amount: int, pool: PoolData)
    ensures PlanValue(amount, pool).Some? ==> PlanValue(amount, pool) == Some(SaturatingValue(amount, pool))
    ensures PlanValue(amount, pool).Some? <==> CheckedPow10(pool.tokenDecimals).Ok?
  {
  }

  /** No provider quotes a positive output over `quoted`, which this one does. */
  predicate IsBestQuote(k: Keeper, amountIn: int, assetIn: string, assetOut: string, provider: string, quoted: int) {
    && provider in k.swapProviders && quoted > 0
    && k.amountOut(amountIn, assetIn, assetOut, provider) == Ok(quoted)
    && forall other :: other in k.swapProviders ==>
         var quote := k.amountOut(amountIn, assetIn, assetOut, other);
         quote.Ok? && quote.value > 0 ==> quote.value <= quoted
  }

  /** No provider asks a positive price under `price`, which this one does. */
  predicate IsBestBase(k: Keeper, amountOut: int, assetIn: string, assetOut: string, provider: string, price: int) {
    && provider in k.swapProviders && price > 0
    && k.amountIn(amountOut, assetIn, assetOut, provider) == Ok(price)
    && forall other :: other in k.swapProviders ==>
         var asked := k.amountIn(amountOut, assetIn, assetOut, other);
         asked.Ok? && asked.value > 0 ==> price <= asked.value
  }

  method BestSwapQuote(k: Keeper, amountIn: int, assetIn: string, assetOut: string) returns (best: Option<(string, int)>)
    ensures best.Some? ==> IsBestQuote(k, amountIn, assetIn, assetOut, best.value.0, best.value.1)
    ensures best.None? ==> forall provider, quoted :: !IsBestQuote(k, amountIn, assetIn, assetOut, provider, quoted)
  {
    best := None;
    for i := 0 to |k.swapProviders|
      invariant best.Some? ==>
                  && best.value.0 in k.swapProviders && best.value.1 > 0
                  && k.amountOut(amountIn, assetIn, assetOut, best.value.0) == Ok(best.value.1)
      invariant forall provider :: provider in k.swapProviders[..i] ==>
                  var quote := k.amountOut(amountIn, assetIn, assetOut, provider);
                  quote.Ok? && quote.value > 0 ==> best.Some? && quote.value <= best.value.1
    {
      var provider := k.swapProviders[i];
      var quote := k.amountOut(amountIn, assetIn, assetOut, provider);
      if quote.Ok? && quote.value > 0 && (best.None? || quote.value > best.value.1) {
        best := Some((provider, quote.value));
      }
    }
  }

  method BestSwapBase(k: Keeper, amountOut: int, assetIn: string, assetOut: string) returns (best: Option<(string, int)>)
    ensures best.Some? ==> IsBestBase(k, amountOut, assetIn, assetOut, best.value.0, best.value.1)
    ensures best.None? ==> forall provider, price :: !IsBestBase(k, amountOut, assetIn, assetOut, provider, price)
  {
    best := None;
    for i := 0 to |k.swapProviders|
      invariant best.Some? ==>
                  && best.value.0 in k.swapProviders && best.value.1 > 0
                  && k.amountIn(amountOut, assetIn, assetOut, best.value.0) == Ok(best.value.1)
      invariant forall provider :: provider in k.swapProviders[..i] ==>
                  var price := k.amountIn(amountOut, assetIn, assetOut, provider);
                  price.Ok? && price.value > 0 ==> best.Some? && best.value.1 <= price.value
    {
      var provider := k.swapProviders[i];
      var price := k.amountIn(amountOut, assetIn, assetOut, provider);
      if price.Ok? && price.value > 0 && (best.None? || price.value < best.value.1) {
        best := Some((provider, price.value));
      }
    }
  }

  // ----- Direct

  function DirectPlan(p: LiquidationPair, repay: int, minProfitMarginValue: int): Option<LiquidationPlan> {
    var (seized, repaid) :- ComputeSeized(p, repay);
    var repayValue :- PlanValue(repaid, p.borrowPool);
    var receivedValue :- PlanValue(seized, p.collateralPool);
    var profit :- LiquidationProfit(receivedValue, repayValue, minProfitMarginValue).ToOption();
    if !profit.isAcceptable then None
    else Some(LiquidationPlan(repay, profit.netValue, seized, Direct, p.borrowPool.poolAddress, p.collateralPool.poolAddress))
  }

  /** The Direct candidate for a planned repay and a usable wallet balance. */
  function DirectCandidate(p: LiquidationPair, planned: int, usable: int, minProfitMarginValue: int): Option<LiquidationPlan> {
    var repay := Min(planned, usable);
    if repay <= 0 then None
    else
      match FittedRepay(p, repay, usable)
      case Ok(Some(fitted)) => DirectPlan(p, fitted, minProfitMarginValue)
      case _ => None
  }

  // ----- Flash

  /** The repay a flash loan is planned for; `None` where sizing gives the whole pair up. */
  function FlashSizing(p: LiquidationPair, lifted: bool, maxFeasible: int, marginTokens: int): Option<int> {
    if !p.borrowPool.IsFlashLoanEnabled() then Some(0)
    else
      var supplied :- p.collateralPool.JTokensToTokensFloor(p.deposit.jTokens).ToOption();
      var withdrawable :- p.collateralPool.AvailableForBorrow().ToOption();
      var instant := p.deposit.collateral + Min(supplied, withdrawable);
      var cap :- RepayCapFromCollateral(!lifted, p.borrowPool, maxFeasible, p.collateralPool, instant,
                                        p.obligationDebtValue, marginTokens, p.obligationCollateralValue).ToOption();
      if cap <= 0 then None else Some(Min(cap, p.borrowPool.totalAvailableAdjusted))
  }

  /** The decimals of both pools can be computed with. */
  predicate Priceable(p: LiquidationPair) {
    CheckedPow10(p.borrowPool.tokenDecimals).Ok? && CheckedPow10(p.collateralPool.tokenDecimals).Ok?
  }

  /** A flash plan for that repay: it withdraws what the plain collateral lacks, as far as the supply
      goes, swaps it all at the best quote, covers loan and fee, and nets over the margin. */
  ghost predicate FlashPlanFor(k: Keeper, p: LiquidationPair, market: MarketData, repay: int, minProfitMarginValue: int, plan: LiquidationPlan) {
    && Priceable(p) && Honoured(p, plan) && plan.repayAmount == repay
    && plan.liquidationType.Flash?
    && var (seized, plain, Flash(flashRepay, provider, withdrawn)) := (plan.expectedSeizedCollateral, p.deposit.collateral, plan.liquidationType);
    && (seized <= plain ==> withdrawn == 0)
    && (seized > plain ==> p.SuppliedTokens().Ok? && withdrawn == Min(p.SuppliedTokens().value, seized - plain))
    && var swapped := Min(seized, plain) + withdrawn;
    && Fits(swapped)
    && var fee := FlashFee(repay, p.borrowPool.flashLoanFeeBps);
    && fee.Ok? && flashRepay == repay + fee.value
    && (exists quoted :: IsBestQuote(k, swapped, p.collateralPool.tokenAddress, p.borrowPool.tokenAddress, provider, quoted)
          && k.LessSlippage(quoted) >= flashRepay)
    && Worthwhile(p, market, plan, minProfitMarginValue)
  }

  lemma HonouredIsSeized(p: LiquidationPair, plan: LiquidationPlan)
    requires Honoured(p, plan)
    ensures ComputeSeized(p, plan.repayAmount) == Some((plan.expectedSeizedCollateral, p.Quote(plan.repayAmount).value.repaid))
  {
    hide LiquidationPair.Quote;
    QuoteIgnoresAccrual(p, plan.repayAmount);
  }

  /** Plans are tried completely: where none is found, there is none. */
  method TryFlashPlan(k: Keeper, p: LiquidationPair, market: MarketData, repay: int, minProfitMarginValue: int)
    returns (plan: Option<LiquidationPlan>)
    requires repay <= p.borrowPool.totalAvailableAdjusted
    ensures plan.Some? ==> Funded(k, p, plan.value) && FlashPlanFor(k, p, market, repay, minProfitMarginValue, plan.value)
    ensures plan.None? ==> forall other :: !FlashPlanFor(k, p, market, repay, minProfitMarginValue, other)
  {
    hide LiquidationPair.Quote, LiquidationPair.WellFormed, ComputeSeized, MulDivCeil, SharesToTokensFloor, PlanValue, LiquidationProfit, Pow10,
         SaturatingValue, IsBestQuote, Funded;
    forall other | FlashPlanFor(k, p, market, repay, minProfitMarginValue, other)
      ensures ComputeSeized(p, repay) == Some((other.expectedSeizedCollateral, p.Quote(repay).value.repaid))
    {
      HonouredIsSeized(p, other);
    }
    var seizure :- ComputeSeized(p, repay);
    SeizedIsHonoured(p, repay);
    var (seized, repaid) := seizure;
    var plain, withdrawn := seized, 0;
    if seized > p.deposit.collateral {
      var supplied :- p.collateralPool.JTokensToTokensFloor(p.deposit.jTokens).ToOption();
      plain, withdrawn := p.deposit.collateral, Min(supplied, seized - p.deposit.collateral);
    }
    var swapped :- Checked(plain + withdrawn).ToOption();
    var fee :- FlashFee(repay, p.borrowPool.flashLoanFeeBps).ToOption();
    var flashRepay := Clamp(repay + fee);

    var quote :- BestSwapQuote(k, swapped, p.collateralPool.tokenAddress, p.borrowPool.tokenAddress);
    var (provider, amountOut) := quote;
    OneBestQuote(k, swapped, p.collateralPool.tokenAddress, p.borrowPool.tokenAddress, provider, amountOut);
    if k.LessSlippage(amountOut) < flashRepay {
      return None;
    }
    FlashFeeFits(repay, p.borrowPool.flashLoanFeeBps);
    SaturatedRepayNeverCovered(k, amountOut, repay + fee);
    var paid := Clamp(flashRepay - Clamp(repay - repaid));
    PlanValueSaturates(paid, p.borrowPool);
    PlanValueSaturates(swapped, p.collateralPool);
    var cost :- PlanValue(paid, p.borrowPool);
    var received :- PlanValue(swapped, p.collateralPool);
    ValuesFit(paid, p.borrowPool);
    ValuesFit(swapped, p.collateralPool);
    ProfitDecidedIff(received, cost, minProfitMarginValue);
    var profit :- LiquidationProfit(received, cost, minProfitMarginValue).ToOption();
    if !profit.isAcceptable {
      return None;
    }
    plan := Some(LiquidationPlan(repay, profit.netValue, seized, Flash(flashRepay, provider, withdrawn),
                                 p.borrowPool.poolAddress, p.collateralPool.poolAddress));
    FlashPlanIsFunded(k, p, market, repay, minProfitMarginValue, plan.value);
  }

  lemma FlashPlanIsFunded(k: Keeper, p: LiquidationPair, market: MarketData, repay: int, minProfitMarginValue: int, plan: LiquidationPlan)
    requires FlashPlanFor(k, p, market, repay, minProfitMarginValue, plan) && repay <= p.borrowPool.totalAvailableAdjusted
    ensures Funded(k, p, plan)
  {
    hide LiquidationPair.Quote, LiquidationPair.WellFormed, LiquidationPair.SuppliedTokens, ComputeSeized, FlashFee, Worthwhile, Keeper.LessSlippage;
    if p.WellFormed() && p.rules.NoDust? {
      HonouredIsSeized(p, plan);
      SeizureIsDrawable(p, repay);
    }
  }

  lemma OneBestQuote(k: Keeper, amountIn: int, assetIn: string, assetOut: string, provider: string, quoted: int)
    requires IsBestQuote(k, amountIn, assetIn, assetOut, provider, quoted)
    ensures forall other, amount :: IsBestQuote(k, amountIn, assetIn, assetOut, other, amount) ==> amount == quoted
  {
  }

  lemma OneBestBase(k: Keeper, amountOut: int, assetIn: string, assetOut: string, provider: string, price: int)
    requires IsBestBase(k, amountOut, assetIn, assetOut, provider, price)
    ensures forall other, amount :: IsBestBase(k, amountOut, assetIn, assetOut, other, amount) ==> amount == price
  {
  }

  lemma ValuesFit(amount: int, pool: PoolData)
    ensures Fits(SaturatingValue(amount, pool))
  {
  }

  lemma ProfitDecidedIff(gain: int, cost: int, minProfitMarginValue: int)
    requires Fits(gain) && Fits(cost)
    ensures LiquidationProfit(gain, cost, minProfitMarginValue).Ok? <==> gain > 0 && cost > 0
  {
  }

  /** A no-dust seizure never exceeds the plain collateral and the supply it is drawn from. */
  lemma SeizureIsDrawable(p: LiquidationPair, repay: int)
    requires p.WellFormed() && p.rules.NoDust?
    requires ComputeSeized(p, repay).Some?
    ensures p.SuppliedTokens().Ok?
    ensures 0 < ComputeSeized(p, repay).value.0 <= p.SuppliedTokens().value + p.deposit.collateral
  {
    hide LiquidationPair.LiftsCloseFactor, LiquidationPair.ExceedsCloseFactor, LiquidationPair.Buys,
         LiquidationPair.AfterRefund, LiquidationPair.LeavesDustBehind, LiquidationPair.SuppliedTokens;
    QuoteIgnoresAccrual(p, repay);
  }

  /** A repayment that saturated is never covered, so the covered one is exact. */
  lemma SaturatedRepayNeverCovered(k: Keeper, amountOut: int, repayment: int)
    requires amountOut > 0
    requires k.LessSlippage(amountOut) >= Clamp(repayment)
    requires repayment > I128_MIN
    ensures Clamp(repayment) == repayment
  {
  }

  lemma FlashFeeFits(amount: int, feeBps: int)
    ensures FlashFee(amount, feeBps).Ok? ==> Fits(FlashFee(amount, feeBps).value)
  {
  }

  // ----- PreSwap

  /** The swap an asset is offered with: the best price for the whole repay where the balance affords
      it with slippage, else the whole balance at the best quote less slippage. */
  ghost predicate SwapOf(k: Keeper, p: LiquidationPair, asset: string, maxProfitable: int, provider: string, amountIn: int, minOut: int) {
    && asset != p.borrowPool.tokenAddress && k.balance(asset).Ok?
    && var (swappable, target) := (k.Usable(asset, k.balance(asset).value), p.borrowPool.tokenAddress);
    && swappable > 0
    && exists base, price :: IsBestBase(k, maxProfitable, asset, target, base, price) &&
         if k.PlusSlippage(price) <= swappable then provider == base && amountIn == k.PlusSlippage(price) && minOut == maxProfitable
         else && amountIn == swappable
              && exists quoted :: IsBestQuote(k, swappable, asset, target, provider, quoted) && minOut == k.LessSlippage(quoted)
  }

  /** A pre-swap plan from that asset: its swap, the repay fitted to the swap's guaranteed output, and
      a net over the margin. */
  ghost predicate PreSwapPlanFor(
    k: Keeper, p: LiquidationPair, market: MarketData, asset: string, maxProfitable: int, minProfitMarginValue: int, plan: LiquidationPlan)
  {
    && plan.liquidationType.PreSwap? && plan.liquidationType.sourceAsset == asset
    && var PreSwap(_, amountIn, minOut, provider) := plan.liquidationType;
    && SwapOf(k, p, asset, maxProfitable, provider, amountIn, minOut)
    && FittedRepay(p, minOut, minOut) == Ok(Some(plan.repayAmount))
    && Honoured(p, plan)
    && Worthwhile(p, market, plan, minProfitMarginValue)
  }

  /** An asset that ends the search: what its fitted repay seizes, or nets, cannot be told. */
  ghost predicate EndsSearch(k: Keeper, p: LiquidationPair, market: MarketData, asset: string, maxProfitable: int) {
    exists provider, amountIn, minOut :: SwapOf(k, p, asset, maxProfitable, provider, amountIn, minOut)
      && var fitted := FittedRepay(p, minOut, minOut);
      && fitted.Ok? && fitted.value.Some?
      && (|| ComputeSeized(p, fitted.value.value).None?
          || (TokenPool(market.poolsData, asset).Some? && !NetIsTold(p, TokenPool(market.poolsData, asset).value, fitted.value.value, amountIn)))
  }

  predicate NetIsTold(p: LiquidationPair, source: PoolData, repay: int, amountIn: int)
    requires ComputeSeized(p, repay).Some?
  {
    && Priceable(p) && CheckedPow10(source.tokenDecimals).Ok?
    && var (seized, repaid) := ComputeSeized(p, repay).value;
    && SaturatingValue(seized, p.collateralPool) > 0
    && Clamp(SaturatingValue(amountIn, source) - SaturatingValue(Clamp(repay - repaid), p.borrowPool)) > 0
  }

  datatype Offer = Ends | Skips | Offers(plan: LiquidationPlan)

  /** The swap an asset is offered with, if it has one; but for ties among providers it has one only. */
  method SwapFrom(k: Keeper, p: LiquidationPair, asset: string, maxProfitable: int) returns (swap: Option<(string, int, int)>)
    ensures swap.Some? ==>
              && SwapOf(k, p, asset, maxProfitable, swap.value.0, swap.value.1, swap.value.2)
              && SwapFunded(k, p, asset, swap.value.0, swap.value.1, swap.value.2)
    ensures forall provider, amountIn, minOut :: SwapOf(k, p, asset, maxProfitable, provider, amountIn, minOut) ==>
              swap.Some? && amountIn == swap.value.1 && minOut == swap.value.2
  {
    hide IsBestBase, IsBestQuote, Keeper.Usable, Keeper.PlusSlippage, Keeper.LessSlippage;
    var target := p.borrowPool.tokenAddress;
    if asset == target || k.balance(asset).Err? {
      return None;
    }
    var swappable := k.Usable(asset, k.balance(asset).value);
    if swappable <= 0 {
      return None;
    }
    var base :- BestSwapBase(k, maxProfitable, asset, target);
    OneBestBase(k, maxProfitable, asset, target, base.0, base.1);
    var provider, amountIn, amountOut := base.0, k.PlusSlippage(base.1), maxProfitable;
    if amountIn > swappable {
      var quote :- BestSwapQuote(k, swappable, asset, target);
      OneBestQuote(k, swappable, asset, target, quote.0, quote.1);
      provider, amountIn, amountOut := quote.0, swappable, k.LessSlippage(quote.1);
    }
    assert SwapOf(k, p, asset, maxProfitable, provider, amountIn, amountOut);
    SwapIsFunded(k, p, asset, maxProfitable, provider, amountIn, amountOut);
    return Some((provider, amountIn, amountOut));
  }

  /** What one asset comes to. */
  method PreSwapFrom(k: Keeper, p: LiquidationPair, market: MarketData, asset: string, maxProfitable: int, minProfitMarginValue: int)
    returns (offer: Offer)
    requires asset in k.assetsToHold
    ensures offer.Offers? ==> Funded(k, p, offer.plan) && Worthwhile(p, market, offer.plan, minProfitMarginValue)
    ensures p.WellFormed() ==> (offer.Ends? <==> EndsSearch(k, p, market, asset, maxProfitable))
    ensures p.WellFormed() && offer.Offers? ==> PreSwapPlanFor(k, p, market, asset, maxProfitable, minProfitMarginValue, offer.plan)
    ensures p.WellFormed() && !offer.Ends? ==>
              forall plan :: PreSwapPlanFor(k, p, market, asset, maxProfitable, minProfitMarginValue, plan) ==>
                offer.Offers? && plan.repayAmount == offer.plan.repayAmount
  {
    hide LiquidationPair.Quote, LiquidationPair.WellFormed, FittedRepay, FindPool, PlanValue, LiquidationProfit, SaturatingValue, ComputeSeized,
         Pow10, TokenPool, SwapOf, Keeper.Usable, Keeper.PlusSlippage, Keeper.LessSlippage;
    var swap := SwapFrom(k, p, asset, maxProfitable);
    if swap.None? {
      return Skips;
    }
    var (provider, amountIn, amountOut) := swap.value;
    var fitted := FitRepay(p, amountOut, amountOut);
    if fitted.Err? || fitted.value.None? {
      return Skips;
    }
    var repay := fitted.value.value;
    forall plan | Honoured(p, plan) && plan.repayAmount == repay
      ensures ComputeSeized(p, repay) == Some((plan.expectedSeizedCollateral, p.Quote(repay).value.repaid))
    {
      HonouredIsSeized(p, plan);
    }
    var seizure := ComputeSeized(p, repay);
    if seizure.None? {
      return Ends;
    }
    SeizedIsHonoured(p, repay);
    var (seized, repaid) := seizure.value;
    var source := TokenPool(market.poolsData, asset);
    if source.None? {
      return Skips;
    }
    var refund, spent, gain := PlanValue(Clamp(repay - repaid), p.borrowPool), PlanValue(amountIn, source.value), PlanValue(seized, p.collateralPool);
    PlanValueSaturates(Clamp(repay - repaid), p.borrowPool);
    PlanValueSaturates(amountIn, source.value);
    PlanValueSaturates(seized, p.collateralPool);
    if refund.None? || spent.None? || gain.None? {
      return Ends;
    }
    ValuesFit(seized, p.collateralPool);
    ProfitDecidedIff(gain.value, Clamp(spent.value - refund.value), minProfitMarginValue);
    var profit := LiquidationProfit(gain.value, Clamp(spent.value - refund.value), minProfitMarginValue);
    if profit.Err? {
      return Ends;
    }
    if !profit.value.isAcceptable {
      return Skips;
    }
    return Offers(LiquidationPlan(repay, profit.value.netValue, seized, PreSwap(asset, amountIn, amountOut, provider),
                                  p.borrowPool.poolAddress, p.collateralPool.poolAddress));
  }

  /** The swap spends at most the swappable balance and is one its provider quoted. */
  predicate SwapFunded(k: Keeper, p: LiquidationPair, asset: string, provider: string, amountIn: int, minOut: int) {
    && asset != p.borrowPool.tokenAddress
    && provider in k.swapProviders
    && k.balance(asset).Ok? && amountIn <= k.Usable(asset, k.balance(asset).value)
    && SwapQuoted(k, asset, p.borrowPool.tokenAddress, amountIn, minOut, provider)
  }

  lemma SwapIsFunded(k: Keeper, p: LiquidationPair, asset: string, maxProfitable: int, provider: string, amountIn: int, minOut: int)
    requires SwapOf(k, p, asset, maxProfitable, provider, amountIn, minOut)
    ensures SwapFunded(k, p, asset, provider, amountIn, minOut)
  {
    hide Keeper.Usable, Keeper.PlusSlippage, Keeper.LessSlippage;
  }

  /** The first of the largest plans the held assets offer; none when one of them ends the search. */
  method TryPreSwapPlan(k: Keeper, p: LiquidationPair, market: MarketData, maxProfitable: int, minProfitMarginValue: int)
    returns (best: Option<LiquidationPlan>)
    ensures best.Some? ==> Funded(k, p, best.value) && Worthwhile(p, market, best.value, minProfitMarginValue)
    ensures p.WellFormed() && best.Some? ==>
              && (forall asset :: asset in k.assetsToHold ==> !EndsSearch(k, p, market, asset, maxProfitable))
              && FirstLargestOffer(k, p, market, |k.assetsToHold|, maxProfitable, minProfitMarginValue, best.value)
    ensures p.WellFormed() && best.None? ==>
              || (exists asset :: asset in k.assetsToHold && EndsSearch(k, p, market, asset, maxProfitable))
              || forall asset, plan :: asset in k.assetsToHold ==> !PreSwapPlanFor(k, p, market, asset, maxProfitable, minProfitMarginValue, plan)
  {
    hide LiquidationPair.WellFormed, Funded, Worthwhile, PreSwapPlanFor, EndsSearch;
    best := None;
    for i := 0 to |k.assetsToHold|
      invariant best.Some? ==> Funded(k, p, best.value) && Worthwhile(p, market, best.value, minProfitMarginValue)
      invariant p.WellFormed() ==> forall asset :: asset in k.assetsToHold[..i] ==> !EndsSearch(k, p, market, asset, maxProfitable)
      invariant p.WellFormed() && best.Some? ==> FirstLargestOffer(k, p, market, i, maxProfitable, minProfitMarginValue, best.value)
      invariant p.WellFormed() && best.None? ==>
                  forall asset, plan :: asset in k.assetsToHold[..i] ==>
                    !PreSwapPlanFor(k, p, market, asset, maxProfitable, minProfitMarginValue, plan)
    {
      var asset := k.assetsToHold[i];
      assert k.assetsToHold[..i + 1] == k.assetsToHold[..i] + [asset];
      var offer := PreSwapFrom(k, p, market, asset, maxProfitable, minProfitMarginValue);
      if offer.Ends? {
        return None;
      }
      if offer.Offers? && (best.None? || best.value.repayAmount < offer.plan.repayAmount) {
        best := Some(offer.plan);
      }
    }
  }

  /** Of the first `n` assets, one offers the plan; those before it offer less, those after it no more. */
  ghost predicate FirstLargestOffer(
    k: Keeper, p: LiquidationPair, market: MarketData, n: int, maxProfitable: int, minProfitMarginValue: int, best: LiquidationPlan)
  {
    exists i :: 0 <= i < n <= |k.assetsToHold|
      && PreSwapPlanFor(k, p, market, k.assetsToHold[i], maxProfitable, minProfitMarginValue, best)
      && forall j, plan :: 0 <= j < n && PreSwapPlanFor(k, p, market, k.assetsToHold[j], maxProfitable, minProfitMarginValue, plan) ==>
           if j < i then plan.repayAmount < best.repayAmount else plan.repayAmount <= best.repayAmount
  }

  function TokenPool(pools: seq<PoolData>, token: string): (r: Option<PoolData>)
    ensures r.Some? ==> r.value in pools && r.value.tokenAddress == token
    ensures r.None? ==> forall pool :: pool in pools ==> pool.tokenAddress != token
  {
    if pools == [] then None
    else if pools[0].tokenAddress == token then Some(pools[0])
    else TokenPool(pools[1..], token)
  }

  // ----- The plan for a pair

  /** Of the first `n` candidates, number `i` is the last that repays the most. */
  predicate LastLargest(candidates: seq<LiquidationPlan>, n: int, i: int) {
    && 0 <= i < n <= |candidates|
    && (forall j :: 0 <= j < i ==> candidates[j].repayAmount <= candidates[i].repayAmount)
    && (forall j :: i < j < n ==> candidates[j].repayAmount < candidates[i].repayAmount)
  }

  /** The last of the candidates that repay the most. */
  method LargestPlan(candidates: seq<LiquidationPlan>) returns (best: Option<LiquidationPlan>)
    ensures best.None? <==> candidates == []
    ensures best.Some? ==> best.value in candidates
    ensures best.Some? ==> forall c :: c in candidates ==> c.repayAmount <= best.value.repayAmount
    ensures best.Some? ==> exists i :: LastLargest(candidates, |candidates|, i) && candidates[i] == best.value
  {
    best := None;
    ghost var chosen := 0;
    for n := 0 to |candidates|
      invariant best.None? <==> n == 0
      invariant best.Some? ==> LastLargest(candidates, n, chosen) && candidates[chosen] == best.value
    {
      if best.None? || candidates[n].repayAmount >= best.value.repayAmount {
        best, chosen := Some(candidates[n]), n;
      }
    }
  }

  /** Where the keeper's plan for a pair starts: the pair sized for accrual until `now`. */
  function PlanningPair(
    k: Keeper, isInsolvent: bool, market: MarketData, obligation: Obligation,
    borrowPool: PoolData, collateralPool: PoolData, deposit: DepositPosition, margin: ClearingMargin, now: nat): Result<LiquidationPair>
  {
    var pair :- PairOf(k.dustRules, obligation, market, borrowPool, collateralPool, deposit, isInsolvent);
    Ok(pair.AccruingUntil(now).WithMargin(margin))
  }

  function MarginTokens(p: LiquidationPair, minProfitMarginCents: int): int {
    var margin := ProfitMarginInBorrowToken(minProfitMarginCents, p.oraclePriceDecimals, p.borrowPool);
    if margin.Ok? then margin.value else 0
  }

  function MaxFeasible(p: LiquidationPair, lifted: bool): int {
    Min(p.positionDebt, CloseFactorRepayCap(lifted, p.positionDebt, p.borrowPool.liquidationCloseFactorBps))
  }

  /** A flash plan for the sized repay, fitted to the pool's liquidity. */
  ghost predicate FlashCandidate(k: Keeper, p: LiquidationPair, market: MarketData, flashRepay: int, minProfitMarginValue: int, plan: LiquidationPlan) {
    && flashRepay > 0
    && FittedRepay(p, flashRepay, p.borrowPool.totalAvailableAdjusted) == Ok(Some(plan.repayAmount))
    && FlashPlanFor(k, p, market, plan.repayAmount, minProfitMarginValue, plan)
  }

  /** A plan some held asset offers for the planned repay, fitted without a budget, while none ends the search. */
  ghost predicate PreSwapCandidate(k: Keeper, p: LiquidationPair, market: MarketData, planned: int, minProfitMarginValue: int, plan: LiquidationPlan) {
    var fitted := FittedRepay(p, planned, I128_MAX);
    && fitted.Ok? && fitted.value.Some?
    && (forall asset :: asset in k.assetsToHold ==> !EndsSearch(k, p, market, asset, fitted.value.value))
    && exists asset :: asset in k.assetsToHold && PreSwapPlanFor(k, p, market, asset, fitted.value.value, minProfitMarginValue, plan)
  }

  /** A plan one of the three sources has for the planned and the flash repay. */
  ghost predicate Candidate(
    k: Keeper, p: LiquidationPair, market: MarketData, planned: int, flashRepay: int, minProfitMarginValue: int, plan: LiquidationPlan)
  {
    || DirectCandidate(p, planned, k.UsableBalance(p.borrowPool.tokenAddress), minProfitMarginValue) == Some(plan)
    || FlashCandidate(k, p, market, flashRepay, minProfitMarginValue, plan)
    || PreSwapCandidate(k, p, market, planned, minProfitMarginValue, plan)
  }

  /** A sweep market's pair is planned only while its collateral is worth the floor. */
  predicate WorthPlanning(p: LiquidationPair) {
    && CheckedPow10(p.oraclePriceDecimals).Ok?
    && p.PositionCollateral().Ok?
    && (p.rules.Sweep? ==>
          SaturatingValue(p.PositionCollateral().value, p.collateralPool) >= MinProfitMarginValue(p.minCollateralValueCents, p.oraclePriceDecimals))
  }

  /** The repay a plan starts from: the planned one, while the pair is worth planning. */
  method SizedRepay(k: Keeper, p: LiquidationPair) returns (r: Option<int>)
    ensures var planned := PlannedRepay(p, k.minProfitMarginCents);
            r == if planned.Ok? && WorthPlanning(p) then planned.value else None
    ensures r.Some? ==> CheckedPow10(p.oraclePriceDecimals).Ok? && p.LiftsCloseFactor().Ok?
  {
    hide RepayCapFromCollateral, LiquidationPair.LiftsCloseFactor, ProfitMarginInBorrowToken, SharesToTokensFloor, CloseFactorRepayCap,
         Pow10, SaturatingValue, MinProfitMarginValue;
    if p.positionDebt <= 0 {
      return None;
    }
    var supplied :- p.collateralPool.JTokensToTokensFloor(p.deposit.jTokens).ToOption();
    var collateral :- Checked(supplied + p.deposit.collateral).ToOption();
    if PlannedRepay(p, k.minProfitMarginCents).Ok? && PlannedRepay(p, k.minProfitMarginCents).value.Some? {
      FactorsFit(p, k.minProfitMarginCents);
    }
    var oracleFactor :- CheckedPow10(p.oraclePriceDecimals).ToOption();
    var collateralValue :- PlanValue(collateral, p.collateralPool);
    PlanValueSaturates(collateral, p.collateralPool);
    var threshold := Clamp(Quot(Clamp(p.minCollateralValueCents * oracleFactor), 100));
    MarginValuesAgree(p.minCollateralValueCents, p.oraclePriceDecimals);
    if collateral <= 0 || (p.rules.Sweep? && collateralValue < threshold) {
      return None;
    }
    var lifted :- p.LiftsCloseFactor().ToOption();
    var maxFeasible := MaxFeasible(p, lifted);
    if maxFeasible <= 0 {
      return None;
    }
    var margin := MarginTokens(p, k.minProfitMarginCents);
    var maxProfitable :- RepayCapFromCollateral(!lifted, p.borrowPool, maxFeasible, p.collateralPool, collateral,
                                                p.obligationDebtValue, margin, p.obligationCollateralValue).ToOption();
    if maxProfitable <= 0 {
      return None;
    }
    return Some(maxProfitable);
  }

  /** The plan for a pair as `PlanningPair` sizes it. Every plan is funded by its own source and nets
      more than the minimum margin. It is a candidate of one of the three sources, and none of them has
      one that repays more; there is none exactly when no source has one, the pair has no planned
      repay or is not worth planning, or flash sizing gives up, and then Direct and pre-swap
      candidates are dropped with it. */
  method BuildPlan(k: Keeper, p: LiquidationPair, market: MarketData) returns (plan: Option<LiquidationPlan>)
    ensures plan.Some? ==> Funded(k, p, plan.value)
    ensures plan.Some? ==> Worthwhile(p, market, plan.value, MinProfitMarginValue(k.minProfitMarginCents, p.oraclePriceDecimals))
    ensures var planned := PlannedRepay(p, k.minProfitMarginCents);
            p.WellFormed() ==>
              if planned.Err? || planned.value.None? || !WorthPlanning(p) then plan.None?
              else
                var (lifted, margin) := (p.LiftsCloseFactor().value, MinProfitMarginValue(k.minProfitMarginCents, p.oraclePriceDecimals));
                var flash := FlashSizing(p, lifted, MaxFeasible(p, lifted), MarginTokens(p, k.minProfitMarginCents));
                if flash.None? then plan.None?
                else
                  && (plan.Some? ==> Candidate(k, p, market, planned.value.value, flash.value, margin, plan.value))
                  && forall other :: Candidate(k, p, market, planned.value.value, flash.value, margin, other) ==>
                       plan.Some? && plan.value.repayAmount >= other.repayAmount
  {
    hide LiquidationPair.Quote, LiquidationPair.WellFormed, FittedRepay, FlashSizing, LiquidationPair.LiftsCloseFactor, PlannedRepay,
         Funded, Worthwhile, DirectCandidate, FlashCandidate, PreSwapCandidate, SaturatingValue, MaxFeasible, MarginTokens,
         MinProfitMarginValue, LastLargest, WorthPlanning;
    var maxProfitable :- SizedRepay(k, p);
    var lifted, oracleFactor := p.LiftsCloseFactor().value, CheckedPow10(p.oraclePriceDecimals).value;
    var minProfitMarginValue := Clamp(Quot(Clamp(k.minProfitMarginCents * oracleFactor), 100));
    MarginValuesAgree(k.minProfitMarginCents, p.oraclePriceDecimals);
    hide Clamp, Quot, PlanValue;

    var candidates := [];
    var direct := FittedDirect(k, p, market, maxProfitable, minProfitMarginValue);
    if direct.Some? {
      candidates := candidates + [direct.value];
    }

    var maxFeasible, margin := MaxFeasible(p, lifted), MarginTokens(p, k.minProfitMarginCents);
    var flashRepay :- FlashSizing(p, lifted, maxFeasible, margin);
    FlashWithinPool(p, lifted, maxFeasible, margin);
    var flash := FittedFlash(k, p, market, flashRepay, minProfitMarginValue);
    if flash.Some? {
      candidates := candidates + [flash.value];
    }

    var preswap := FittedPreSwap(k, p, market, maxProfitable, minProfitMarginValue);
    if preswap.Some? {
      candidates := candidates + [preswap.value];
    }
    assert direct.Some? ==> direct.value in candidates;
    assert flash.Some? ==> flash.value in candidates;
    plan := LargestPlan(candidates);
  }

  // ----- Each source: the repay fitted to the funds, then the plan for it

  method FittedDirect(k: Keeper, p: LiquidationPair, market: MarketData, maxProfitable: int, minProfitMarginValue: int)
    returns (direct: Option<LiquidationPlan>)
    ensures p.WellFormed() ==>
              direct == DirectCandidate(p, maxProfitable, k.UsableBalance(p.borrowPool.tokenAddress), minProfitMarginValue)
    ensures direct.Some? ==> Funded(k, p, direct.value) && Worthwhile(p, market, direct.value, minProfitMarginValue)
  {
    hide LiquidationPair.Quote, LiquidationPair.WellFormed, FittedRepay, DirectPlan, Honoured, Worthwhile;
    var usable := k.UsableBalance(p.borrowPool.tokenAddress);
    var repay := Min(maxProfitable, usable);
    if repay <= 0 {
      return None;
    }
    var fitted := FitRepay(p, repay, usable);
    if fitted.Err? || fitted.value.None? {
      return None;
    }
    direct := DirectPlan(p, fitted.value.value, minProfitMarginValue);
    DirectPlanHonoured(p, fitted.value.value, minProfitMarginValue);
    DirectPlanWorthwhile(p, market, fitted.value.value, minProfitMarginValue);
  }

  method FittedFlash(k: Keeper, p: LiquidationPair, market: MarketData, flashRepay: int, minProfitMarginValue: int)
    returns (flash: Option<LiquidationPlan>)
    requires flashRepay > 0 ==> flashRepay <= p.borrowPool.totalAvailableAdjusted
    ensures flash.Some? ==> Funded(k, p, flash.value) && Worthwhile(p, market, flash.value, minProfitMarginValue)
    ensures p.WellFormed() && flash.Some? ==> FlashCandidate(k, p, market, flashRepay, minProfitMarginValue, flash.value)
    ensures p.WellFormed() ==>
              forall other :: FlashCandidate(k, p, market, flashRepay, minProfitMarginValue, other) ==>
                flash.Some? && flash.value.repayAmount == other.repayAmount
  {
    hide LiquidationPair.Quote, LiquidationPair.WellFormed, FittedRepay, Funded, Worthwhile;
    if flashRepay <= 0 {
      return None;
    }
    var fitted := FitRepay(p, flashRepay, p.borrowPool.totalAvailableAdjusted);
    if fitted.Err? || fitted.value.None? {
      return None;
    }
    flash := TryFlashPlan(k, p, market, fitted.value.value, minProfitMarginValue);
  }

  /** Fitted without a budget: what can be swapped for it is found out asset by asset. */
  method FittedPreSwap(k: Keeper, p: LiquidationPair, market: MarketData, maxProfitable: int, minProfitMarginValue: int)
    returns (preswap: Option<LiquidationPlan>)
    ensures preswap.Some? ==> Funded(k, p, preswap.value) && Worthwhile(p, market, preswap.value, minProfitMarginValue)
    ensures p.WellFormed() && preswap.Some? ==> PreSwapCandidate(k, p, market, maxProfitable, minProfitMarginValue, preswap.value)
    ensures p.WellFormed() ==>
              forall other :: PreSwapCandidate(k, p, market, maxProfitable, minProfitMarginValue, other) ==>
                preswap.Some? && preswap.value.repayAmount >= other.repayAmount
  {
    hide LiquidationPair.Quote, LiquidationPair.WellFormed, FittedRepay, Funded, Worthwhile, PreSwapPlanFor, EndsSearch;
    var fitted := FitRepay(p, maxProfitable, I128_MAX);
    if fitted.Err? || fitted.value.None? {
      return None;
    }
    preswap := TryPreSwapPlan(k, p, market, fitted.value.value, minProfitMarginValue);
  }

  lemma MarginValuesAgree(cents: int, oraclePriceDecimals: nat)
    requires CheckedPow10(oraclePriceDecimals).Ok?
    ensures Clamp(Quot(Clamp(cents * CheckedPow10(oraclePriceDecimals).value), 100)) == MinProfitMarginValue(cents, oraclePriceDecimals)
  {
  }

  lemma FactorsFit(p: LiquidationPair, minProfitMarginCents: int)
    requires PlannedRepay(p, minProfitMarginCents).Ok? && PlannedRepay(p, minProfitMarginCents).value.Some?
    ensures CheckedPow10(p.collateralPool.tokenDecimals).Ok? && CheckedPow10(p.borrowPool.tokenDecimals).Ok?
  {
    hide LiquidationPair.LiftsCloseFactor, LiquidationPair.PositionCollateral, ProfitMarginInBorrowToken, MulDiv, EffectiveIncentive;
  }

  lemma FlashWithinPool(p: LiquidationPair, lifted: bool, maxFeasible: int, margin: int)
    ensures var flash := FlashSizing(p, lifted, maxFeasible, margin);
            flash.Some? && flash.value > 0 ==> flash.value <= p.borrowPool.totalAvailableAdjusted
  {
    hide RepayCapFromCollateral;
  }

  lemma DirectPlanHonoured(p: LiquidationPair, repay: int, minProfitMarginValue: int)
    ensures var plan := DirectPlan(p, repay, minProfitMarginValue);
            plan.Some? ==>
              && Honoured(p, plan.value)
              && plan.value.liquidationType.Direct?
              && plan.value.repayAmount == repay
  {
    hide LiquidationPair.Quote;
    QuoteIgnoresAccrual(p, repay);
  }

  lemma DirectPlanWorthwhile(p: LiquidationPair, market: MarketData, repay: int, minProfitMarginValue: int)
    ensures var plan := DirectPlan(p, repay, minProfitMarginValue);
            plan.Some? ==> Worthwhile(p, market, plan.value, minProfitMarginValue)
  {
    hide LiquidationPair.Quote, ComputeSeized, PlanValue, SaturatingValue;
    var seizure := ComputeSeized(p, repay);
    if seizure.Some? {
      SeizedIsHonoured(p, repay);
      PlanValueSaturates(seizure.value.1, p.borrowPool);
      PlanValueSaturates(seizure.value.0, p.collateralPool);
    }
  }
}
