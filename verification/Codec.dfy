/** Reading an obligation's deposits off the chain: a map keyed by pool becomes one deposit a pool. */
module Codec {
  import opened Arithmetic
  import opened Market

  /** What a map entry holds for a deposit; a field that is missing or no integer is `None`. */
  datatype PositionValue = NotAMap | Fields(jTokens: Option<int>, collateral: Option<int>)

  /** A map entry; the address is `None` for a key of another type. */
  datatype Entry = Entry(address: Option<string>, value: PositionValue)

  /** What an entry comes to: a deposit, nothing, or the end of the whole read. */
  function ReadEntry(entry: Entry): Result<Option<DepositPosition>> {
    match entry
    case Entry(None, _) => Ok(None)
    case Entry(Some(_), NotAMap) => Err(InternalError)
    case Entry(Some(address), Fields(Some(jTokens), Some(collateral))) => Ok(Some(DepositPosition(jTokens, collateral, address)))
    case _ => Ok(None)
  }

  function DepositsFrom(entries: seq<Entry>, found: seq<DepositPosition>): Result<seq<DepositPosition>> {
    if entries == [] then Ok(found)
    else
      var read :- ReadEntry(entries[0]);
      DepositsFrom(entries[1..], if read.Some? then found + [read.value] else found)
  }

  method ParseDepositPositions(entries: seq<Entry>) returns (r: Result<seq<DepositPosition>>)
    ensures r == DepositsFrom(entries, [])
  {
    var positions := [];
    for i := 0 to |entries|
      invariant DepositsFrom(entries[i..], positions) == DepositsFrom(entries, [])
    {
      var entry := entries[i];
      assert entries[i..][1..] == entries[i + 1..];
      if entry.address.None? {
        continue;
      }
      if entry.value.NotAMap? {
        return Err(InternalError);
      }
      if entry.value.jTokens.None? || entry.value.collateral.None? {
        continue;
      }
      positions := positions + [DepositPosition(entry.value.jTokens.value, entry.value.collateral.value, entry.address.value)];
    }
    return Ok(positions);
  }

  /** A map has each key once. */
  predicate DistinctKeys(entries: seq<Entry>) {
    forall i, j :: 0 <= i < j < |entries| ==> entries[i].address.None? || entries[i].address != entries[j].address
  }

  lemma {:induction false} OneDepositAKey(entries: seq<Entry>, found: seq<DepositPosition>)
    requires DistinctKeys(entries) && DistinctPools(found)
    requires forall d, e :: d in found && e in entries ==> e.address != Some(d.poolAddress)
    ensures DepositsFrom(entries, found).Ok? ==> DistinctPools(DepositsFrom(entries, found).value)
  {
    if entries != [] {
      var read := ReadEntry(entries[0]);
      if read.Ok? {
        OneDepositAKey(entries[1..], if read.value.Some? then found + [read.value.value] else found);
      }
    }
  }

  /** Whatever entries are skipped, the deposits read off a map are in distinct pools. */
  lemma ParsedDepositsDistinct(entries: seq<Entry>)
    requires DistinctKeys(entries)
    ensures DepositsFrom(entries, []).Ok? ==> DistinctPools(DepositsFrom(entries, []).value)
  {
    OneDepositAKey(entries, []);
  }

  /** What is read is exactly the readable entries: a deposit for each address with both fields, with
      those fields. The read fails exactly when a pool's value is no map. */
  lemma {:induction false} ReadsExactly(entries: seq<Entry>, found: seq<DepositPosition>)
    ensures DepositsFrom(entries, found).Err? <==> exists e :: e in entries && e.address.Some? && e.value.NotAMap?
    ensures DepositsFrom(entries, found).Ok? ==>
              forall d :: d in DepositsFrom(entries, found).value <==>
                d in found || Entry(Some(d.poolAddress), Fields(Some(d.jTokens), Some(d.collateral))) in entries
  {
    if entries != [] {
      assert entries == [entries[0]] + entries[1..];
      var read := ReadEntry(entries[0]);
      if read.Ok? {
        ReadsExactly(entries[1..], if read.value.Some? then found + [read.value.value] else found);
      }
    }
  }
}
