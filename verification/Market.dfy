/** Markets and the obligations borrowed against them. */
module Market {
  import opened Arithmetic
  import opened Pool

  datatype ObligationKey = ObligationKey(user: string, seed: Option<string>) {
    function SeedAsStr(): string {
      if seed.Some? then seed.value else ""
    }
  }

  datatype DepositPosition = DepositPosition(jTokens: int, collateral: int, poolAddress: string)

  datatype BorrowPosition = BorrowPosition(dTokens: int, poolAddress: string)

  datatype Obligation = Obligation(
    borrows: seq<BorrowPosition>,
    deposits: seq<DepositPosition>,
    openBadDebtRequests: nat)

  /** An obligation holds at most one deposit a pool: its deposits are read from a map keyed by the
      pool's address. */
  predicate DistinctPools(deposits: seq<DepositPosition>) {
    forall i, j :: 0 <= i < j < |deposits| ==> deposits[i].poolAddress != deposits[j].poolAddress
  }

  datatype MarketData = MarketData(
    insolvencyLtvBps: int,
    poolsData: seq<PoolData>,
    oraclePriceDecimals: nat,
    minCollateralValueCents: int)
  {
    /** The first pool of the snapshot with this address. */
    function PoolOf(address: string): (r: Option<PoolData>)
      ensures r.Some? ==> r.value in poolsData && r.value.poolAddress == address
      ensures r.None? ==> forall p :: p in poolsData ==> p.poolAddress != address
    {
      FindPool(poolsData, address)
    }
  }

  function FindPool(pools: seq<PoolData>, address: string): (r: Option<PoolData>)
    ensures r.Some? ==> r.value in pools && r.value.poolAddress == address
    ensures r.None? ==> forall p :: p in pools ==> p.poolAddress != address
  {
    if pools == [] then None
    else if pools[0].poolAddress == address then Some(pools[0])
    else FindPool(pools[1..], address)
  }

  function FindBorrow(borrows: seq<BorrowPosition>, address: string): (r: Option<BorrowPosition>)
    ensures r.Some? ==> r.value in borrows && r.value.poolAddress == address
    ensures r.None? ==> forall b :: b in borrows ==> b.poolAddress != address
  {
    if borrows == [] then None
    else if borrows[0].poolAddress == address then Some(borrows[0])
    else FindBorrow(borrows[1..], address)
  }
}
