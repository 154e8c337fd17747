/** Pool snapshots: share/token conversions, accrual estimates and safe withdrawals. */
module Pool {
  import opened Arithmetic

  const SECONDS_IN_YEAR := 31_556_926

  /** The fields of a pool snapshot that the liquidation, withdrawal and planning logic read. */
  datatype PoolData = PoolData(
    poolAddress: string,
    tokenAddress: string,
    tokenDecimals: nat,
    oracleAssetPrice: int,
    totalSupply: int,
    totalJTokens: int,
    totalBorrowed: int,
    totalDTokens: int,
    totalAvailableAdjusted: int,
    jTokenRateFloorBps: int,
    dTokenRateCeilBps: int,
    closeLtvBps: int,
    liabilityFactorBps: int,
    utilizationRatioLimitBps: int,
    liquidationCloseFactorBps: int,
    maxLiquidationIncentiveBps: int,
    flashLoanFeeBps: int,
    statusFlags: nat,
    lastAccrualTimestamp: nat,
    borrowApyBps: int,
    supplyApyBps: int)
  {
    /** Bit 3 of the status flags. */
    predicate IsFlashLoanEnabled() {
      statusFlags / 8 % 2 == 1
    }

    function JTokensToTokensFloor(jTokens: int): Result<int> {
      SharesToTokensFloor(jTokens, totalSupply, totalJTokens)
    }

    function JTokensToTokensCeil(jTokens: int): Result<int> {
      SharesToTokensCeil(jTokens, totalSupply, totalJTokens)
    }

    function DTokensToTokensCeil(dTokens: int): Result<int> {
      SharesToTokensCeil(dTokens, totalBorrowed, totalDTokens)
    }

    function TokensToDTokensFloor(tokens: int): Result<int> {
      TokensToSharesFloor(tokens, totalBorrowed, totalDTokens)
    }

    /** The growth the keeper allows for by `now`, of the debt and of the supply: each APY times the
        time since the totals were struck, in whole basis points, never too few. */
    function AccrualSinceUpdateBps(now: nat): (int, int) {
      var elapsed := Max(0, now - lastAccrualTimestamp);
      (Accrued(borrowApyBps, elapsed), Accrued(supplyApyBps, elapsed))
    }

    function UtilizationRatioBps(): Result<int> {
      if totalSupply == 0 then Ok(0)
      else
        var numerator :- Checked(totalBorrowed * BPS_FACTOR);
        Ok(Quot(numerator, totalSupply))
    }

    function AvailableForBorrow(): Result<int> {
      var utilization :- UtilizationRatioBps();
      if utilization >= utilizationRatioLimitBps then Ok(0)
      else Ok(Quot(Clamp(totalSupply * (utilizationRatioLimitBps - utilization)), BPS_FACTOR))
    }

    /** The utilization a withdrawal has to stay at or below. */
    function SafeUtilizationBps(safetyMarginBps: int): int {
      Clamp(utilizationRatioLimitBps - safetyMarginBps)
    }

    function MaxSafeWithdrawal(safetyMarginBps: int): Result<int> {
      var utilization :- UtilizationRatioBps();
      var safe := SafeUtilizationBps(safetyMarginBps);
      if safe <= 0 || utilization >= safe then Ok(0)
      else
        var minSupply :- MulDivCeil(totalBorrowed, BPS_FACTOR, safe);
        if minSupply >= totalSupply then Ok(0) else Ok(totalSupply - minSupply)
    }
  }

  function Accrued(apyBps: int, elapsed: nat): int {
    Quot(Clamp(Clamp(apyBps * elapsed) + (SECONDS_IN_YEAR - 1)), SECONDS_IN_YEAR)
  }

  // ----- Share conversions; j-tokens share the supply, d-tokens the debt

  function SharesToTokensFloor(shares: int, totalTokens: int, totalShares: int): Result<int> {
    if totalShares == 0 then Ok(0)
    else
      var numerator :- Checked(shares * totalTokens);
      Ok(Quot(numerator, totalShares))
  }

  function SharesToTokensCeil(shares: int, totalTokens: int, totalShares: int): Result<int> {
    if totalShares == 0 then Ok(0)
    else
      var numerator :- Checked(shares * totalTokens);
      var raised :- Checked(numerator + (totalShares - 1));
      Ok(Quot(raised, totalShares))
  }

  function TokensToSharesFloor(tokens: int, totalTokens: int, totalShares: int): Result<int> {
    if totalTokens == 0 then Ok(tokens)
    else
      var numerator :- Checked(tokens * totalShares);
      Ok(Quot(numerator, totalTokens))
  }

  function TokensToSharesCeil(tokens: int, totalTokens: int, totalShares: int): Result<int> {
    if totalTokens == 0 then Ok(tokens)
    else
      var numerator :- Checked(tokens * totalShares);
      var raised :- Checked(numerator + (totalTokens - 1));
      Ok(Quot(raised, totalTokens))
  }

  /** The fewest shares worth `tokens` and the most tokens `shares` are worth are adjoint. */
  lemma ConversionGalois(tokens: int, shares: int, totalTokens: int, totalShares: int)
    requires tokens >= 0 && shares >= 0 && totalTokens > 0 && totalShares > 0
    requires TokensToSharesCeil(tokens, totalTokens, totalShares).Ok?
    requires SharesToTokensFloor(shares, totalTokens, totalShares).Ok?
    ensures TokensToSharesCeil(tokens, totalTokens, totalShares).value <= shares
       <==> tokens <= SharesToTokensFloor(shares, totalTokens, totalShares).value
  {
    MulNonNegative(tokens, totalShares);
    MulNonNegative(shares, totalTokens);
    CeilGalois(tokens * totalShares, totalTokens, shares);
    FloorGalois(shares * totalTokens, totalShares, tokens);
  }

  /** The dual adjunction: the fewest tokens covering `shares`, the most shares `tokens` buy. */
  lemma ConversionGaloisDual(tokens: int, shares: int, totalTokens: int, totalShares: int)
    requires tokens >= 0 && shares >= 0 && totalTokens > 0 && totalShares > 0
    requires SharesToTokensCeil(shares, totalTokens, totalShares).Ok?
    requires TokensToSharesFloor(tokens, totalTokens, totalShares).Ok?
    ensures SharesToTokensCeil(shares, totalTokens, totalShares).value <= tokens
       <==> shares <= TokensToSharesFloor(tokens, totalTokens, totalShares).value
  {
    ConversionGalois(shares, tokens, totalShares, totalTokens);
  }

  /** Buying shares with tokens is converting shares with the totals exchanged. */
  lemma ConversionsAreDual(amount: int, totalTokens: int, totalShares: int)
    requires totalTokens > 0 && totalShares > 0
    ensures TokensToSharesFloor(amount, totalTokens, totalShares) == SharesToTokensFloor(amount, totalShares, totalTokens)
    ensures TokensToSharesCeil(amount, totalTokens, totalShares) == SharesToTokensCeil(amount, totalShares, totalTokens)
  {
  }

  /** Converting there and back, from shares or from tokens: flooring both ways never gains,
      ceiling both ways never loses. */
  lemma ConversionRoundTrips(amount: int, totalTokens: int, totalShares: int)
    requires amount >= 0 && totalTokens > 0 && totalShares > 0
    ensures SharesRoundTrip(amount, totalTokens, totalShares)
    ensures TokensRoundTrip(amount, totalTokens, totalShares)
  {
    SharesNeverGain(amount, totalTokens, totalShares);
    SharesNeverGain(amount, totalShares, totalTokens);
    hide SharesToTokensFloor, SharesToTokensCeil, TokensToSharesFloor, TokensToSharesCeil;
    var down := TokensToSharesFloor(amount, totalTokens, totalShares);
    var up := TokensToSharesCeil(amount, totalTokens, totalShares);
    ConversionsAreDual(amount, totalTokens, totalShares);
    ConversionsAreDual(if down.Ok? then down.value else 0, totalShares, totalTokens);
    ConversionsAreDual(if up.Ok? then up.value else 0, totalShares, totalTokens);
  }

  predicate SharesRoundTrip(shares: int, totalTokens: int, totalShares: int) {
    var down := SharesToTokensFloor(shares, totalTokens, totalShares);
    var up := SharesToTokensCeil(shares, totalTokens, totalShares);
    && (down.Ok? ==>
          var back := TokensToSharesFloor(down.value, totalTokens, totalShares);
          back.Ok? ==> back.value <= shares)
    && (up.Ok? ==>
          var back := TokensToSharesCeil(up.value, totalTokens, totalShares);
          back.Ok? ==> shares <= back.value)
  }

  predicate TokensRoundTrip(tokens: int, totalTokens: int, totalShares: int) {
    var down := TokensToSharesFloor(tokens, totalTokens, totalShares);
    var up := TokensToSharesCeil(tokens, totalTokens, totalShares);
    && (down.Ok? ==>
          var back := SharesToTokensFloor(down.value, totalTokens, totalShares);
          back.Ok? ==> back.value <= tokens)
    && (up.Ok? ==>
          var back := SharesToTokensCeil(up.value, totalTokens, totalShares);
          back.Ok? ==> tokens <= back.value)
  }

  lemma SharesNeverGain(shares: int, totalTokens: int, totalShares: int)
    requires shares >= 0 && totalTokens > 0 && totalShares > 0
    ensures SharesRoundTrip(shares, totalTokens, totalShares)
  {
    MulNonNegative(shares, totalTokens);
    FloorsThereAndBack(shares, totalTokens, totalShares);
    CeilsThereAndBack(shares, totalTokens, totalShares);
  }

  lemma FloorsThereAndBack(a: int, k: int, d: int)
    requires a >= 0 && k > 0 && d > 0
    ensures 0 <= (a * k / d) * d && (a * k / d) * d / k <= a
  {
    MulNonNegative(a, k);
    FloorGalois(a * k, d, 0);
    FloorGalois(a * k, d, a * k / d);
    MulNonNegative(a * k / d, d);
    FloorGalois((a * k / d) * d, k, a + 1);
    assert (a + 1) * k == a * k + k;
  }

  lemma CeilsThereAndBack(a: int, k: int, d: int)
    requires a >= 0 && k > 0 && d > 0
    ensures 0 <= ((a * k + (d - 1)) / d) * d && a <= (((a * k + (d - 1)) / d) * d + (k - 1)) / k
  {
    var up := (a * k + (d - 1)) / d;
    MulNonNegative(a, k);
    QuotientAtMost(a * k + (d - 1), d);
    CeilGalois(a * k, d, up);
    MulNonNegative(up, d);
    CeilGalois(up * d, k, a - 1);
    assert (a - 1) * k == a * k - k;
  }

  /** For non-negative shares of a positive total, conversions are checked scalings. */
  lemma ConversionIsScaling(shares: int, totalTokens: int, totalShares: int)
    requires shares >= 0 && totalTokens >= 0 && totalShares > 0
    ensures SharesToTokensFloor(shares, totalTokens, totalShares) == MulDiv(shares, totalTokens, totalShares)
    ensures SharesToTokensCeil(shares, totalTokens, totalShares) == MulDivCeil(shares, totalTokens, totalShares)
  {
    MulDivSpec(shares, totalTokens, totalShares);
    MulDivCeilSpec(shares, totalTokens, totalShares);
  }

  /** The two roundings of an amount differ by at most one, and those of a smaller amount stay at or
      under them. */
  predicate Bracketed(few: Result<int>, fewUp: Result<int>, floor: Result<int>, ceil: Result<int>) {
    && few.Ok? && fewUp.Ok? && floor.Ok? && ceil.Ok?
    && 0 <= floor.value <= ceil.value <= floor.value + 1
    && few.value <= floor.value
    && fewUp.value <= ceil.value
  }

  /** Both conversions of shares to tokens, and both of tokens to shares, are monotone, and their
      roundings differ by at most one unit. */
  lemma ConversionBracketMonotone(fewer: int, amount: int, totalTokens: int, totalShares: int)
    requires 0 <= fewer <= amount && totalTokens > 0 && totalShares > 0
    ensures SharesToTokensCeil(amount, totalTokens, totalShares).Ok? ==>
              Bracketed(SharesToTokensFloor(fewer, totalTokens, totalShares), SharesToTokensCeil(fewer, totalTokens, totalShares),
                        SharesToTokensFloor(amount, totalTokens, totalShares), SharesToTokensCeil(amount, totalTokens, totalShares))
    ensures TokensToSharesCeil(amount, totalTokens, totalShares).Ok? ==>
              Bracketed(TokensToSharesFloor(fewer, totalTokens, totalShares), TokensToSharesCeil(fewer, totalTokens, totalShares),
                        TokensToSharesFloor(amount, totalTokens, totalShares), TokensToSharesCeil(amount, totalTokens, totalShares))
  {
    ConversionsAreDual(fewer, totalTokens, totalShares);
    ConversionsAreDual(amount, totalTokens, totalShares);
    hide SharesToTokensFloor, SharesToTokensCeil, TokensToSharesFloor, TokensToSharesCeil;
    if SharesToTokensCeil(amount, totalTokens, totalShares).Ok? {
      SharesBracketMonotone(fewer, amount, totalTokens, totalShares);
    }
    if TokensToSharesCeil(amount, totalTokens, totalShares).Ok? {
      SharesBracketMonotone(fewer, amount, totalShares, totalTokens);
    }
  }

  lemma SharesBracketMonotone(fewer: int, shares: int, totalTokens: int, totalShares: int)
    requires 0 <= fewer <= shares && totalTokens > 0 && totalShares > 0
    requires SharesToTokensCeil(shares, totalTokens, totalShares).Ok?
    ensures SharesToTokensFloor(shares, totalTokens, totalShares).Ok?
    ensures SharesToTokensFloor(fewer, totalTokens, totalShares).Ok?
    ensures SharesToTokensCeil(fewer, totalTokens, totalShares).Ok?
    ensures var floor := SharesToTokensFloor(shares, totalTokens, totalShares).value;
            var ceil := SharesToTokensCeil(shares, totalTokens, totalShares).value;
            && 0 <= floor <= ceil <= floor + 1
            && SharesToTokensFloor(fewer, totalTokens, totalShares).value <= floor
            && SharesToTokensCeil(fewer, totalTokens, totalShares).value <= ceil
  {
    hide SharesToTokensFloor, SharesToTokensCeil, MulDiv, MulDivCeil;
    ConversionIsScaling(fewer, totalTokens, totalShares);
    ConversionIsScaling(shares, totalTokens, totalShares);
    FloorCeilBracket(shares, totalTokens, totalShares);
    MulDivCeilMonotone(fewer, shares, totalTokens, totalShares);
    MulDivMonotone(fewer, shares, totalTokens, totalShares);
  }

  lemma FloorCeilBracket(a: int, k: int, d: int)
    requires a >= 0 && k >= 0 && d > 0 && MulDivCeil(a, k, d).Ok?
    ensures MulDiv(a, k, d).Ok?
    ensures 0 <= MulDiv(a, k, d).value <= MulDivCeil(a, k, d).value <= MulDiv(a, k, d).value + 1
  {
    hide MulDiv, MulDivCeil;
    MulDivSpec(a, k, d);
    MulDivCeilSpec(a, k, d);
    var floor := MulDiv(a, k, d).value;
    CeilGalois(a * k, d, floor + 1);
    CeilGalois(a * k, d, floor - 1);
    assert (floor + 1) * d == floor * d + d && (floor - 1) * d == floor * d - d;
  }

  // ----- Safe withdrawals

  /** Withdrawing `amount` keeps the pool's utilization at or below `safeBps`, exactly. */
  predicate StaysWithin(pool: PoolData, safeBps: int, amount: int) {
    pool.totalBorrowed * BPS_FACTOR <= safeBps * (pool.totalSupply - amount)
  }

  /** `MaxSafeWithdrawal` is the greatest amount that keeps utilization within the safe band,
      and 0 when no amount does; the shortcut on current utilization changes nothing. */
  lemma MaxSafeWithdrawalOptimal(pool: PoolData, safetyMarginBps: int)
    requires pool.totalSupply >= 0 && pool.totalBorrowed >= 0
    requires pool.MaxSafeWithdrawal(safetyMarginBps).Ok?
    ensures var w := pool.MaxSafeWithdrawal(safetyMarginBps).value;
            var safe := Clamp(pool.utilizationRatioLimitBps - safetyMarginBps);
            && 0 <= w <= pool.totalSupply
            && (w > 0 ==> safe > 0 && StaysWithin(pool, safe, w))
            && (safe > 0 ==>
                  forall x :: 0 <= x <= pool.totalSupply && StaysWithin(pool, safe, x) ==> x <= w)
  {
    hide MulDivCeil, StaysWithin, PoolData.UtilizationRatioBps;
    var safe := pool.SafeUtilizationBps(safetyMarginBps);
    if safe > 0 {
      var least := (pool.totalBorrowed * BPS_FACTOR + (safe - 1)) / safe;
      MulDivCeilSpec(pool.totalBorrowed, BPS_FACTOR, safe);
      WithdrawalBound(pool, safe);
      if pool.UtilizationRatioBps().value >= safe {
        ShortcutIsExact(pool, safe);
      }
      forall x | 0 <= x <= pool.totalSupply && StaysWithin(pool, safe, x)
        ensures x <= pool.totalSupply - least
      {
        WithdrawalAtMost(pool, safe, x);
      }
    }
  }

  /** At or past the safe band the least allowed supply is the whole supply already. */
  lemma ShortcutIsExact(pool: PoolData, safe: int)
    requires pool.totalSupply >= 0 && pool.totalBorrowed >= 0 && safe > 0
    requires pool.UtilizationRatioBps().Ok? && pool.UtilizationRatioBps().value >= safe
    ensures (pool.totalBorrowed * BPS_FACTOR + (safe - 1)) / safe >= pool.totalSupply
  {
    var least := (pool.totalBorrowed * BPS_FACTOR + (safe - 1)) / safe;
    FloorGalois(pool.totalBorrowed * BPS_FACTOR, pool.totalSupply, safe);
    FloorGalois(pool.totalBorrowed * BPS_FACTOR + (safe - 1), safe, pool.totalSupply);
  }

  lemma WithdrawalBound(pool: PoolData, safe: int)
    requires safe > 0 && pool.totalBorrowed >= 0
    ensures StaysWithin(pool, safe, pool.totalSupply - (pool.totalBorrowed * BPS_FACTOR + (safe - 1)) / safe)
  {
    var least := (pool.totalBorrowed * BPS_FACTOR + (safe - 1)) / safe;
    CeilGalois(pool.totalBorrowed * BPS_FACTOR, safe, least);
  }

  lemma WithdrawalAtMost(pool: PoolData, safe: int, x: int)
    requires safe > 0 && pool.totalBorrowed >= 0
    requires StaysWithin(pool, safe, x)
    ensures x <= pool.totalSupply - (pool.totalBorrowed * BPS_FACTOR + (safe - 1)) / safe
  {
    CeilGalois(pool.totalBorrowed * BPS_FACTOR, safe, pool.totalSupply - x);
  }

  // ----- Accrual estimates

  /** `later` is `total` grown by at most `apyBps` a year, linearly, over `elapsed` seconds. */
  predicate GrownLinearly(total: int, later: int, apyBps: int, elapsed: nat) {
    later * BPS_FACTOR * SECONDS_IN_YEAR <= total * (BPS_FACTOR * SECONDS_IN_YEAR + apyBps * elapsed)
  }

  /** The accrual in basis points dominates linear growth at the pool's APY. */
  lemma AccruedCoversGrowth(total: int, later: int, apyBps: int, elapsed: nat)
    requires total >= 0 && apyBps >= 0
    requires apyBps * elapsed + (SECONDS_IN_YEAR - 1) <= I128_MAX
    requires GrownLinearly(total, later, apyBps, elapsed)
    ensures Accrued(apyBps, elapsed) >= 0
    ensures later * BPS_FACTOR <= total * (BPS_FACTOR + Accrued(apyBps, elapsed))
  {
    var bps := Accrued(apyBps, elapsed);
    MulNonNegative(apyBps, elapsed);
    assert bps * SECONDS_IN_YEAR >= apyBps * elapsed;
    MulLe(apyBps * elapsed, bps * SECONDS_IN_YEAR, total);
    assert total * (BPS_FACTOR * SECONDS_IN_YEAR + apyBps * elapsed)
        == total * BPS_FACTOR * SECONDS_IN_YEAR + apyBps * elapsed * total;
    assert total * (BPS_FACTOR + bps) * SECONDS_IN_YEAR
        == total * BPS_FACTOR * SECONDS_IN_YEAR + bps * SECONDS_IN_YEAR * total;
  }

  /** A position's debt, converted at the later pool total, is at most today's debt grown by
      the accrual estimate: the estimate is safe for the debt side. */
  lemma DebtWithinAccrualEstimate(dTokens: int, borrowed: int, later: int, totalShares: int, bps: int)
    requires dTokens >= 0 && borrowed >= 0 && totalShares > 0 && bps >= 0
    requires later * BPS_FACTOR <= borrowed * (BPS_FACTOR + bps)
    ensures (var debt := (dTokens * borrowed + (totalShares - 1)) / totalShares;
             (dTokens * later + (totalShares - 1)) / totalShares
               <= debt + (debt * bps + (BPS_FACTOR - 1)) / BPS_FACTOR)
  {
    var debt := (dTokens * borrowed + (totalShares - 1)) / totalShares;
    var added := (debt * bps + (BPS_FACTOR - 1)) / BPS_FACTOR;
    CeilGalois(dTokens * borrowed, totalShares, debt);
    CeilGalois(debt * bps, BPS_FACTOR, added);
    ScaledAlike(dTokens, later, BPS_FACTOR, borrowed, BPS_FACTOR + bps);
    assert debt * (BPS_FACTOR + bps) == debt * BPS_FACTOR + debt * bps;
    SharesCover(dTokens * later, dTokens * borrowed, debt, debt + added, totalShares, BPS_FACTOR + bps);
    CeilGalois(dTokens * later, totalShares, debt + added);
  }

  lemma ScaledAlike(k: int, a: int, x: int, b: int, y: int)
    requires k >= 0 && a * x <= b * y
    ensures k * a * x <= k * b * y
  {
    MulLe(a * x, b * y, k);
    Assoc(k, a, x);
    Assoc(k, b, y);
  }

  /** From tokens to totals: what covers the debt now, grown, covers it later. */
  lemma SharesCover(later: int, borrowed: int, debt: int, grown: int, totalShares: int, grownBps: int)
    requires totalShares > 0 && grownBps > 0
    requires borrowed <= debt * totalShares
    requires later * BPS_FACTOR <= borrowed * grownBps
    requires debt * grownBps <= grown * BPS_FACTOR
    ensures later <= grown * totalShares
  {
    MulLe(borrowed, debt * totalShares, grownBps);
    MulLe(debt * grownBps, grown * BPS_FACTOR, totalShares);
    Assoc(totalShares, debt, grownBps);
    Assoc(totalShares, grown, BPS_FACTOR);
    Cancel(later, grown * totalShares, BPS_FACTOR);
  }

  /** The supply side floors, so the same estimate can fall short there, by one token at most
      while the accrual stays within a doubling. */
  lemma SupplyWithinAccrualEstimate(jTokens: int, supply: int, later: int, totalShares: int, bps: int)
    requires jTokens >= 0 && supply >= 0 && totalShares > 0 && 0 <= bps <= BPS_FACTOR
    requires later * BPS_FACTOR <= supply * (BPS_FACTOR + bps)
    ensures (var supplied := jTokens * supply / totalShares;
             jTokens * later / totalShares
               <= supplied + (supplied * bps + (BPS_FACTOR - 1)) / BPS_FACTOR + 1)
  {
    var supplied, after := jTokens * supply / totalShares, jTokens * later / totalShares;
    var added := (supplied * bps + (BPS_FACTOR - 1)) / BPS_FACTOR;
    CeilGalois(supplied * bps, BPS_FACTOR, added);
    FloorGalois(jTokens * later, totalShares, after);
    FloorGalois(jTokens * supply, totalShares, supplied + 1);
    ScaledAlike(jTokens, later, BPS_FACTOR, supply, BPS_FACTOR + bps);
    SharesCancel(after, jTokens * later, jTokens * supply, supplied + 1, totalShares, BPS_FACTOR + bps);
    NextGrown(after, supplied, added, bps);
  }

  /** A token grown by at most a doubling stays within the next token over the growth. */
  lemma NextGrown(after: int, supplied: int, added: int, bps: int)
    requires bps <= BPS_FACTOR && supplied * bps <= added * BPS_FACTOR
    requires after * BPS_FACTOR < (supplied + 1) * (BPS_FACTOR + bps)
    ensures after <= supplied + added + 1
  {
    assert (supplied + 1) * (BPS_FACTOR + bps) == supplied * BPS_FACTOR + supplied * bps + BPS_FACTOR + bps;
  }

  /** From totals to tokens: the shares cancel. */
  lemma SharesCancel(after: int, later: int, supply: int, next: int, totalShares: int, grownBps: int)
    requires totalShares > 0 && grownBps > 0
    requires after * totalShares <= later
    requires later * BPS_FACTOR <= supply * grownBps
    requires supply < next * totalShares
    ensures after * BPS_FACTOR < next * grownBps
  {
    MulLe(after * totalShares, later, BPS_FACTOR);
    MulLe(supply + 1, next * totalShares, grownBps);
    assert (supply + 1) * grownBps == supply * grownBps + grownBps;
    if after * BPS_FACTOR >= next * grownBps {
      MulLe(next * grownBps, after * BPS_FACTOR, totalShares);
      Assoc(totalShares, after, BPS_FACTOR);
      Assoc(totalShares, next, grownBps);
    }
  }

  /** The most a total can grow to: `GrownLinearly` holds of exactly the totals up to it. */
  function MostGrown(total: int, apyBps: int, elapsed: nat): int {
    total * (BPS_FACTOR * SECONDS_IN_YEAR + apyBps * elapsed) / (BPS_FACTOR * SECONDS_IN_YEAR)
  }

  lemma GrownUpToMost(total: int, later: int, apyBps: int, elapsed: nat)
    ensures GrownLinearly(total, later, apyBps, elapsed) <==> later <= MostGrown(total, apyBps, elapsed)
  {
    FloorGalois(total * (BPS_FACTOR * SECONDS_IN_YEAR + apyBps * elapsed), BPS_FACTOR * SECONDS_IN_YEAR, later);
    Assoc(later, BPS_FACTOR, SECONDS_IN_YEAR);
  }

  /** What shares convert to stays within `bound` at every total a pool can grow to exactly when
      the shares' part of the largest such total falls short of `bound + 1` tokens, which the
      snapshot decides. */
  lemma FloorWithinBoundIff(shares: int, total: int, totalShares: int, apyBps: int, elapsed: nat, bound: int)
    requires shares >= 0 && total >= 0 && totalShares > 0 && apyBps >= 0
    requires shares * MostGrown(total, apyBps, elapsed) <= I128_MAX
    ensures (forall later :: later >= 0 && GrownLinearly(total, later, apyBps, elapsed) ==>
               var supplied := SharesToTokensFloor(shares, later, totalShares);
               supplied.Ok? && supplied.value <= bound)
            <==> shares * MostGrown(total, apyBps, elapsed) < (bound + 1) * totalShares
  {
    hide SharesToTokensFloor, GrownLinearly, MostGrown;
    var most := MostGrown(total, apyBps, elapsed);
    MostIsNonNegative(total, apyBps, elapsed);
    GrownUpToMost(total, most, apyBps, elapsed);
    FloorAtMost(shares, most, totalShares, bound);
    if shares * most < (bound + 1) * totalShares {
      forall later | later >= 0 && GrownLinearly(total, later, apyBps, elapsed)
        ensures SharesToTokensFloor(shares, later, totalShares).Ok?
        ensures SharesToTokensFloor(shares, later, totalShares).value <= bound
      {
        GrownUpToMost(total, later, apyBps, elapsed);
        MulLe(later, most, shares);
        FloorAtMost(shares, later, totalShares, bound);
      }
    }
  }

  lemma MostIsNonNegative(total: int, apyBps: int, elapsed: nat)
    requires total >= 0 && apyBps >= 0
    ensures MostGrown(total, apyBps, elapsed) >= 0
  {
    MulNonNegative(apyBps, elapsed);
    MulNonNegative(total, BPS_FACTOR * SECONDS_IN_YEAR + apyBps * elapsed);
  }

  lemma FloorAtMost(shares: int, total: int, totalShares: int, bound: int)
    requires shares >= 0 && total >= 0 && totalShares > 0 && shares * total <= I128_MAX
    ensures SharesToTokensFloor(shares, total, totalShares).Ok?
    ensures SharesToTokensFloor(shares, total, totalShares).value <= bound <==> shares * total < (bound + 1) * totalShares
  {
    MulNonNegative(shares, total);
    FloorGalois(shares * total, totalShares, bound + 1);
  }

  // ----- Utilization, accrual and empty pools, exactly

  lemma UtilizationExactly(pool: PoolData)
    requires pool.totalSupply > 0 && pool.totalBorrowed >= 0 && pool.UtilizationRatioBps().Ok?
    ensures Floors(pool.UtilizationRatioBps().value, pool.totalBorrowed * BPS_FACTOR, pool.totalSupply)
  {
    QuotFloors(pool.totalBorrowed * BPS_FACTOR, pool.totalSupply);
  }

  /** What is available for borrowing brings utilization to the limit, within one basis point and one
      token; past the limit nothing is. */
  lemma AvailableReachesTheLimit(pool: PoolData)
    requires pool.totalSupply > 0 && pool.totalBorrowed >= 0 && pool.AvailableForBorrow().Ok?
    requires pool.totalSupply * pool.utilizationRatioLimitBps <= I128_MAX
    ensures var (available, limit) := (pool.AvailableForBorrow().value, pool.utilizationRatioLimitBps);
            && available >= 0
            && (pool.totalBorrowed * BPS_FACTOR >= limit * pool.totalSupply ==> available == 0)
            && (pool.totalBorrowed * BPS_FACTOR < limit * pool.totalSupply ==>
                  && (pool.totalBorrowed + available) * BPS_FACTOR < (limit + 1) * pool.totalSupply
                  && (pool.totalBorrowed + available + 1) * BPS_FACTOR > limit * pool.totalSupply)
  {
    hide PoolData.UtilizationRatioBps, Quot;
    UtilizationExactly(pool);
    var (u, limit, supply) := (pool.UtilizationRatioBps().value, pool.utilizationRatioLimitBps, pool.totalSupply);
    UtilizationUnder(pool.totalBorrowed * BPS_FACTOR, supply, u, limit);
    if u < limit {
      Headroom(supply, limit, u);
      QuotFloors(supply * (limit - u), BPS_FACTOR);
    }
  }

  lemma UtilizationUnder(n: int, supply: int, u: int, limit: int)
    requires supply > 0 && n >= 0 && Floors(u, n, supply)
    ensures u >= 0 && (u < limit <==> n < limit * supply)
  {
    if u < limit {
      MulLe(u + 1, limit, supply);
    } else {
      MulLe(limit, u, supply);
    }
    if u < 0 {
      MulLe(u + 1, 0, supply);
    }
  }

  lemma Headroom(supply: int, limit: int, u: int)
    requires supply > 0 && 0 <= u < limit && supply * limit <= I128_MAX
    ensures 0 <= supply * (limit - u) <= I128_MAX
    ensures supply * (limit - u) == limit * supply - u * supply
  {
    MulNonNegative(supply, limit - u);
    MulNonNegative(supply, u);
    assert supply * (limit - u) == supply * limit - supply * u;
  }

  /** The accrual is the APY times the time since the last update, a clock behind it reading as no
      time, over a year and rounded up. */
  lemma AccrualExactly(pool: PoolData, now: nat)
    requires pool.borrowApyBps >= 0 && pool.supplyApyBps >= 0
    ensures var (elapsed, (debt, supply)) := (if now >= pool.lastAccrualTimestamp then now - pool.lastAccrualTimestamp else 0, pool.AccrualSinceUpdateBps(now));
            && (pool.borrowApyBps * elapsed + SECONDS_IN_YEAR <= I128_MAX ==> Ceils(debt, pool.borrowApyBps * elapsed, SECONDS_IN_YEAR))
            && (pool.supplyApyBps * elapsed + SECONDS_IN_YEAR <= I128_MAX ==> Ceils(supply, pool.supplyApyBps * elapsed, SECONDS_IN_YEAR))
  {
    var elapsed := if now >= pool.lastAccrualTimestamp then now - pool.lastAccrualTimestamp else 0;
    AccruedExactly(pool.borrowApyBps, elapsed);
    AccruedExactly(pool.supplyApyBps, elapsed);
  }

  lemma AccruedExactly(apyBps: int, elapsed: nat)
    requires apyBps >= 0
    ensures apyBps * elapsed + SECONDS_IN_YEAR <= I128_MAX ==> Ceils(Accrued(apyBps, elapsed), apyBps * elapsed, SECONDS_IN_YEAR)
  {
    MulNonNegative(apyBps, elapsed);
    QuotFloors(apyBps * elapsed + (SECONDS_IN_YEAR - 1), SECONDS_IN_YEAR);
  }

  /** Without shares nothing converts to tokens; without tokens a token buys one share. */
  lemma EmptyPools(amount: int, total: int)
    ensures SharesToTokensFloor(amount, total, 0) == SharesToTokensCeil(amount, total, 0) == Ok(0)
    ensures TokensToSharesFloor(amount, 0, total) == TokensToSharesCeil(amount, 0, total) == Ok(amount)
  {
  }

  /** Flash loans are on exactly when bit 3 of the flags is set, whatever the other bits. */
  lemma FlashLoanBit(pool: PoolData, high: nat, bit: nat, low: nat)
    requires pool.statusFlags == 16 * high + 8 * bit + low && bit <= 1 && low < 8
    ensures pool.IsFlashLoanEnabled() <==> bit == 1
  {
    assert pool.statusFlags / 8 == 2 * high + bit;
  }
}
