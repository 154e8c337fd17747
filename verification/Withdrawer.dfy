/** Withdrawing the keeper's own supply without pushing a pool past its safe utilization. */
module Withdrawer {
  import opened Arithmetic
  import opened Pool
  import opened Market

  datatype WithdrawerConfig = WithdrawerConfig(utilizationSafetyMarginBps: int, minWithdrawValueCents: int)

  datatype Withdrawal = Withdrawal(poolAddress: string, amount: int)

  /** What a deposit comes to: nothing, a withdrawal, or the end of the whole scan. */
  datatype Verdict = Skip | Abort | Withdraw(withdrawal: Withdrawal)

  /** A withdrawal of the whole deposit is asked for as the largest amount there is. */
  const WHOLE_DEPOSIT := I128_MAX

  function ValueCents(pool: PoolData, oraclePriceDecimals: nat, amount: int): Option<int> {
    var pow := pool.tokenDecimals + oraclePriceDecimals;
    if pool.oracleAssetPrice <= 0 || pow < 2 then None
    else
      var numerator :- Checked(amount * pool.oracleAssetPrice).ToOption();
      var factor :- CheckedPow10(pow - 2).ToOption();
      Some(Max(Quot(numerator, factor), 0))
  }

  function Judge(config: WithdrawerConfig, market: MarketData, deposit: DepositPosition): Verdict {
    match market.PoolOf(deposit.poolAddress)
    case None => Skip
    case Some(pool) =>
      var max := pool.MaxSafeWithdrawal(config.utilizationSafetyMarginBps);
      var underlying := pool.JTokensToTokensFloor(deposit.jTokens);
      if max.Err? || max.value == 0 || underlying.Err? || underlying.value == 0 then Skip
      else
        var amount := Min(underlying.value, max.value);
        match ValueCents(pool, market.oraclePriceDecimals, amount)
        case None => Abort
        case Some(cents) =>
          if cents < config.minWithdrawValueCents then Skip
          else Withdraw(Withdrawal(pool.poolAddress, if amount == underlying.value then WHOLE_DEPOSIT else amount))
  }

  function WithdrawalsFrom(config: WithdrawerConfig, market: MarketData, deposits: seq<DepositPosition>, found: seq<Withdrawal>): seq<Withdrawal> {
    if deposits == [] then found
    else
      match Judge(config, market, deposits[0])
      case Abort => []
      case Skip => WithdrawalsFrom(config, market, deposits[1..], found)
      case Withdraw(w) => WithdrawalsFrom(config, market, deposits[1..], found + [w])
  }

  method FindWithdrawalOpportunities(config: WithdrawerConfig, market: MarketData, obligation: Obligation) returns (actions: seq<Withdrawal>)
    ensures actions == WithdrawalsFrom(config, market, obligation.deposits, [])
  {
    hide FindPool, SharesToTokensFloor;
    actions := [];
    for i := 0 to |obligation.deposits|
      invariant WithdrawalsFrom(config, market, obligation.deposits[i..], actions)
             == WithdrawalsFrom(config, market, obligation.deposits, [])
    {
      var deposit := obligation.deposits[i];
      assert obligation.deposits[i..][1..] == obligation.deposits[i + 1..];
      var found := market.PoolOf(deposit.poolAddress);
      if found.None? {
        continue;
      }
      var pool := found.value;
      var max := pool.MaxSafeWithdrawal(config.utilizationSafetyMarginBps);
      if max.Err? || max.value == 0 {
        continue;
      }
      var underlying := pool.JTokensToTokensFloor(deposit.jTokens);
      if underlying.Err? || underlying.value == 0 {
        continue;
      }
      var amount := Min(underlying.value, max.value);
      var cents := ValueCents(pool, market.oraclePriceDecimals, amount);
      if cents.None? {
        return [];
      }
      if amount == underlying.value {
        amount := WHOLE_DEPOSIT;
      }
      if cents.value >= config.minWithdrawValueCents {
        actions := actions + [Withdrawal(pool.poolAddress, amount)];
      }
    }
  }

  /** What a withdrawal takes out: the sentinel takes the whole deposit. */
  function Effective(w: Withdrawal, underlying: int): int {
    Min(w.amount, underlying)
  }

  /** The withdrawal comes from this deposit, takes a positive part of it, and leaves the pool
      within its safe utilization. */
  predicate SafeFor(config: WithdrawerConfig, market: MarketData, deposit: DepositPosition, w: Withdrawal) {
    && market.PoolOf(deposit.poolAddress).Some?
    && var pool := market.PoolOf(deposit.poolAddress).value;
    && w.poolAddress == deposit.poolAddress
    && pool.JTokensToTokensFloor(deposit.jTokens).Ok?
    && var underlying := pool.JTokensToTokensFloor(deposit.jTokens).value;
    && 0 < Effective(w, underlying) <= underlying
    && StaysWithin(pool, Clamp(pool.utilizationRatioLimitBps - config.utilizationSafetyMarginBps), Effective(w, underlying))
  }

  predicate NonNegativePools(market: MarketData) {
    forall pool :: pool in market.poolsData ==>
      0 <= pool.totalSupply <= I128_MAX && pool.totalBorrowed >= 0 && pool.totalJTokens >= 0
  }

  lemma JudgedSafe(config: WithdrawerConfig, market: MarketData, deposit: DepositPosition)
    requires NonNegativePools(market) && deposit.jTokens >= 0
    requires Judge(config, market, deposit).Withdraw?
    ensures SafeFor(config, market, deposit, Judge(config, market, deposit).withdrawal)
  {
    hide FindPool, ValueCents, SharesToTokensFloor, PoolData.MaxSafeWithdrawal;
    var pool := market.PoolOf(deposit.poolAddress).value;
    MaxSafeWithdrawalOptimal(pool, config.utilizationSafetyMarginBps);
    SupplyFits(pool, deposit.jTokens);
    var max, underlying := pool.MaxSafeWithdrawal(config.utilizationSafetyMarginBps).value, pool.JTokensToTokensFloor(deposit.jTokens).value;
    SmallerStaysWithin(pool, Clamp(pool.utilizationRatioLimitBps - config.utilizationSafetyMarginBps), Min(underlying, max), max);
  }

  lemma SupplyFits(pool: PoolData, jTokens: int)
    requires pool.totalSupply >= 0 && pool.totalJTokens >= 0 && jTokens >= 0
    requires pool.JTokensToTokensFloor(jTokens).Ok?
    ensures 0 <= pool.JTokensToTokensFloor(jTokens).value <= I128_MAX
  {
    MulNonNegative(jTokens, pool.totalSupply);
    if pool.totalJTokens > 0 {
      QuotientAtMost(jTokens * pool.totalSupply, pool.totalJTokens);
    }
  }

  lemma SmallerStaysWithin(pool: PoolData, safe: int, less: int, more: int)
    requires less <= more && safe > 0 && StaysWithin(pool, safe, more)
    ensures StaysWithin(pool, safe, less)
  {
    MulLe(pool.totalSupply - more, pool.totalSupply - less, safe);
  }

  /** Every withdrawal the keeper makes is safe for one of its deposits. */
  lemma {:induction false} WithdrawalsSafe(config: WithdrawerConfig, market: MarketData, deposits: seq<DepositPosition>, found: seq<Withdrawal>)
    requires NonNegativePools(market) && (forall d :: d in deposits ==> d.jTokens >= 0)
    ensures forall w :: w in WithdrawalsFrom(config, market, deposits, found) ==>
              w in found || exists d :: d in deposits && SafeFor(config, market, d, w)
  {
    hide Judge, SafeFor;
    if deposits != [] {
      var verdict := Judge(config, market, deposits[0]);
      match verdict
      case Abort =>
      case Skip => WithdrawalsSafe(config, market, deposits[1..], found);
      case Withdraw(w) =>
        JudgedSafe(config, market, deposits[0]);
        WithdrawalsSafe(config, market, deposits[1..], found + [w]);
    }
  }

  // ----- Withdrawals taken together

  predicate OnePerPool(withdrawals: seq<Withdrawal>) {
    forall i, j :: 0 <= i < j < |withdrawals| ==> withdrawals[i].poolAddress != withdrawals[j].poolAddress
  }

  lemma {:induction false} WithdrawnOnce(config: WithdrawerConfig, market: MarketData, deposits: seq<DepositPosition>, found: seq<Withdrawal>)
    requires DistinctPools(deposits) && OnePerPool(found)
    requires forall w, d :: w in found && d in deposits ==> w.poolAddress != d.poolAddress
    ensures OnePerPool(WithdrawalsFrom(config, market, deposits, found))
  {
    hide Judge;
    if deposits != [] {
      var verdict := Judge(config, market, deposits[0]);
      match verdict
      case Abort =>
      case Skip => WithdrawnOnce(config, market, deposits[1..], found);
      case Withdraw(w) =>
        JudgedInItsPool(config, market, deposits[0]);
        WithdrawnOnce(config, market, deposits[1..], found + [w]);
    }
  }

  lemma JudgedInItsPool(config: WithdrawerConfig, market: MarketData, deposit: DepositPosition)
    requires Judge(config, market, deposit).Withdraw?
    ensures Judge(config, market, deposit).withdrawal.poolAddress == deposit.poolAddress
  {
    hide FindPool, ValueCents, SharesToTokensFloor, PoolData.MaxSafeWithdrawal;
  }

  /** An obligation holds one deposit a pool, so all the withdrawals can be made together: no pool is
      drawn on twice, and each pool's only withdrawal is the safe one. */
  lemma WithdrawalsJointlySafe(config: WithdrawerConfig, market: MarketData, deposits: seq<DepositPosition>)
    requires NonNegativePools(market) && (forall d :: d in deposits ==> d.jTokens >= 0)
    requires DistinctPools(deposits)
    ensures var ws := WithdrawalsFrom(config, market, deposits, []);
            && OnePerPool(ws)
            && forall w :: w in ws ==> exists d :: d in deposits && SafeFor(config, market, d, w)
  {
    WithdrawnOnce(config, market, deposits, []);
    WithdrawalsSafe(config, market, deposits, []);
  }

  // ----- What a deposit comes to, exactly

  /** The amount's value in whole cents. */
  predicate WorthCents(pool: PoolData, oraclePriceDecimals: nat, amount: int, cents: int) {
    && pool.oracleAssetPrice > 0 && pool.tokenDecimals + oraclePriceDecimals >= 2
    && Fits(amount * pool.oracleAssetPrice) && Fits(Pow10(pool.tokenDecimals + oraclePriceDecimals - 2))
    && Floors(cents, amount * pool.oracleAssetPrice, Pow10(pool.tokenDecimals + oraclePriceDecimals - 2))
  }

  lemma CentsExactly(pool: PoolData, oraclePriceDecimals: nat, amount: int, cents: int)
    requires amount >= 0
    ensures ValueCents(pool, oraclePriceDecimals, amount) == Some(cents) <==> WorthCents(pool, oraclePriceDecimals, amount, cents)
  {
    hide Pow10;
    if pool.oracleAssetPrice > 0 && pool.tokenDecimals + oraclePriceDecimals >= 2 {
      MulNonNegative(amount, pool.oracleAssetPrice);
      var (n, d) := (amount * pool.oracleAssetPrice, Pow10(pool.tokenDecimals + oraclePriceDecimals - 2));
      QuotFloors(n, d);
      hide Quot;
      if Floors(cents, n, d) {
        FloorGalois(n, d, cents);
        FloorGalois(n, d, cents + 1);
        FloorGalois(n, d, Quot(n, d));
        FloorGalois(n, d, Quot(n, d) + 1);
      }
    }
  }

  /** The most that may leave a deposit: as much as it holds and as keeps its pool in the safe band. */
  predicate MostSafe(config: WithdrawerConfig, pool: PoolData, underlying: int, amount: int) {
    var safe := Clamp(pool.utilizationRatioLimitBps - config.utilizationSafetyMarginBps);
    && 0 < amount <= underlying && amount <= pool.totalSupply
    && safe > 0 && StaysWithin(pool, safe, amount)
    && forall x :: amount < x <= underlying && x <= pool.totalSupply ==> !StaysWithin(pool, safe, x)
  }

  /** A deposit is withdrawn from exactly when the most that may leave it is positive and worth the
      minimum, and then by that much, or by the sentinel when it is the whole deposit. It ends the scan
      exactly when that amount's value in cents cannot be computed. */
  lemma WithdrawnExactly(config: WithdrawerConfig, market: MarketData, deposit: DepositPosition, w: Withdrawal)
    requires NonNegativePools(market) && deposit.jTokens >= 0
    requires market.PoolOf(deposit.poolAddress).Some?
    requires var pool := market.PoolOf(deposit.poolAddress).value;
             pool.MaxSafeWithdrawal(config.utilizationSafetyMarginBps).Ok? && pool.JTokensToTokensFloor(deposit.jTokens).Ok?
    ensures var pool := market.PoolOf(deposit.poolAddress).value;
            var underlying := pool.JTokensToTokensFloor(deposit.jTokens).value;
            Judge(config, market, deposit) == Withdraw(w) <==>
              exists amount, cents ::
                && MostSafe(config, pool, underlying, amount)
                && WorthCents(pool, market.oraclePriceDecimals, amount, cents) && cents >= config.minWithdrawValueCents
                && w == Withdrawal(deposit.poolAddress, if amount == underlying then WHOLE_DEPOSIT else amount)
    ensures var pool := market.PoolOf(deposit.poolAddress).value;
            var underlying := pool.JTokensToTokensFloor(deposit.jTokens).value;
            Judge(config, market, deposit).Abort? <==>
              exists amount :: MostSafe(config, pool, underlying, amount)
                && forall cents :: !WorthCents(pool, market.oraclePriceDecimals, amount, cents)
  {
    hide FindPool, ValueCents, SharesToTokensFloor, PoolData.MaxSafeWithdrawal, WorthCents, MostSafe, StaysWithin;
    var pool := market.PoolOf(deposit.poolAddress).value;
    SupplyFits(pool, deposit.jTokens);
    var underlying, max := pool.JTokensToTokensFloor(deposit.jTokens).value, pool.MaxSafeWithdrawal(config.utilizationSafetyMarginBps).value;
    MaxSafeWithdrawalOptimal(pool, config.utilizationSafetyMarginBps);
    var most := Min(underlying, max);
    forall amount
      ensures MostSafe(config, pool, underlying, amount) <==> amount == most > 0
    {
      MostSafeIff(config, pool, underlying, amount);
    }
    forall cents
      ensures ValueCents(pool, market.oraclePriceDecimals, most) == Some(cents) <==> WorthCents(pool, market.oraclePriceDecimals, most, cents)
    {
      CentsExactly(pool, market.oraclePriceDecimals, most, cents);
    }
    var cents := ValueCents(pool, market.oraclePriceDecimals, most);
    assert cents.Some? ==> cents == Some(cents.value);
  }

  lemma MostSafeIff(config: WithdrawerConfig, pool: PoolData, underlying: int, amount: int)
    requires pool.totalSupply >= 0 && pool.totalBorrowed >= 0 && underlying >= 0
    requires pool.MaxSafeWithdrawal(config.utilizationSafetyMarginBps).Ok?
    ensures MostSafe(config, pool, underlying, amount)
       <==> amount == Min(underlying, pool.MaxSafeWithdrawal(config.utilizationSafetyMarginBps).value) > 0
  {
    hide PoolData.MaxSafeWithdrawal;
    hide StaysWithin;
    MaxSafeWithdrawalOptimal(pool, config.utilizationSafetyMarginBps);
    var safe := Clamp(pool.utilizationRatioLimitBps - config.utilizationSafetyMarginBps);
    var max := pool.MaxSafeWithdrawal(config.utilizationSafetyMarginBps).value;
    var most := Min(underlying, max);
    if most > 0 {
      SmallerStaysWithin(pool, safe, most, max);
    }
  }

  /** The scan makes every deposit's withdrawal, in order, unless one of them ends it, and then none. */
  lemma {:induction false} ScanExactly(config: WithdrawerConfig, market: MarketData, deposits: seq<DepositPosition>, found: seq<Withdrawal>)
    ensures (exists d :: d in deposits && Judge(config, market, d).Abort?) ==> WithdrawalsFrom(config, market, deposits, found) == []
    ensures (forall d :: d in deposits ==> !Judge(config, market, d).Abort?) ==>
              WithdrawalsFrom(config, market, deposits, found) == found + Judged(config, market, deposits)
  {
    hide Judge;
    if deposits != [] {
      var verdict := Judge(config, market, deposits[0]);
      assert deposits == [deposits[0]] + deposits[1..];
      match verdict
      case Abort =>
      case Skip => ScanExactly(config, market, deposits[1..], found);
      case Withdraw(w) =>
        ScanExactly(config, market, deposits[1..], found + [w]);
        assert found + [w] + Judged(config, market, deposits[1..]) == found + ([w] + Judged(config, market, deposits[1..]));
    }
  }

  /** The withdrawals of the deposits that come to one, in their order. */
  function Judged(config: WithdrawerConfig, market: MarketData, deposits: seq<DepositPosition>): seq<Withdrawal> {
    if deposits == [] then []
    else
      (match Judge(config, market, deposits[0])
       case Withdraw(w) => [w]
       case _ => []) + Judged(config, market, deposits[1..])
  }
}
