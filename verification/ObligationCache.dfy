/** The obligation cache: the liquidator's in-memory map and the stored table it shares with the
    bad-debt initiator. */
module ObligationCache {
  import opened Arithmetic
  import opened Market

  datatype RowKey = RowKey(market: string, user: string, seed: string)

  type Rows = map<RowKey, Obligation>
  type Cache = map<ObligationKey, Obligation>

  function RowOf(market: string, key: ObligationKey): RowKey {
    RowKey(market, key.user, key.SeedAsStr())
  }

  /** The key a stored row stands for: an empty seed reads back as no seed. */
  function KeyOf(row: RowKey): ObligationKey {
    ObligationKey(row.user, if row.seed == "" then None else Some(row.seed))
  }

  /** A key whose row reads back as itself: no seed, or a seed that is not empty. */
  predicate Storable(key: ObligationKey) {
    key.seed != Some("")
  }

  /** Storing and loading a key is the identity exactly on storable keys. */
  lemma KeyRoundTrip(market: string, key: ObligationKey)
    ensures KeyOf(RowOf(market, key)) == key <==> Storable(key)
  {
  }

  lemma RowRoundTrip(row: RowKey)
    ensures RowOf(row.market, KeyOf(row)) == row && Storable(KeyOf(row))
  {
  }

  /** What `LoadAll` reads for a market. */
  function Loaded(rows: Rows, market: string): Cache {
    map row | row in rows && row.market == market :: KeyOf(row) := rows[row]
  }

  lemma LoadedLookup(rows: Rows, market: string, key: ObligationKey)
    ensures key in Loaded(rows, market) <==> Storable(key) && RowOf(market, key) in rows
    ensures key in Loaded(rows, market) ==> Loaded(rows, market)[key] == rows[RowOf(market, key)]
  {
    KeyRoundTrip(market, key);
    if key in Loaded(rows, market) {
      var row :| row in rows && row.market == market && KeyOf(row) == key;
      RowRoundTrip(row);
    }
  }

  // ----- The stored table

  class ObligationsRepo {
    var rows: Rows

    constructor ()
      ensures rows == map[]
    {
      rows := map[];
    }

    method Put(market: string, key: ObligationKey, obligation: Obligation)
      modifies this
      ensures rows == old(rows)[RowOf(market, key) := obligation]
    {
      rows := rows[RowOf(market, key) := obligation];
    }

    method Delete(market: string, key: ObligationKey)
      modifies this
      ensures rows == old(rows) - {RowOf(market, key)}
    {
      rows := rows - {RowOf(market, key)};
    }

    method LoadAll(market: string) returns (out: Cache)
      ensures out == Loaded(rows, market)
    {
      out := map[];
      var left := rows.Keys;
      while left != {}
        invariant left <= rows.Keys
        invariant forall key :: key in out <==>
                    Storable(key) && RowOf(market, key) in rows && RowOf(market, key) !in left
        invariant forall key :: key in out ==> out[key] == rows[RowOf(market, key)]
        decreases |left|
      {
        var row :| row in left;
        if row.market == market {
          RowRoundTrip(row);
          KeyRoundTrip(market, KeyOf(row));
          OneKeyPerRow(row);
          out := out[KeyOf(row) := rows[row]];
        }
        left := left - {row};
      }
      forall key
        ensures key in out <==> key in Loaded(rows, market)
        ensures key in out ==> out[key] == Loaded(rows, market)[key]
      {
        LoadedLookup(rows, market, key);
      }
    }
  }

  lemma OneKeyPerRow(row: RowKey)
    ensures forall key :: Storable(key) && RowOf(row.market, key) == row ==> key == KeyOf(row)
  {
    forall key | Storable(key) && RowOf(row.market, key) == row
      ensures key == KeyOf(row)
    {
      KeyRoundTrip(row.market, key);
    }
  }

  // ----- The liquidator's side

  datatype CacheState = CacheState(memory: map<string, Cache>, rows: Rows)

  datatype Step =
    | Sync(markets: seq<string>)
    | Upsert(market: string, key: ObligationKey, obligation: Obligation)
    | Remove(market: string, key: ObligationKey)
    /** The initiator drops a row of an obligation it found gone on chain. */
    | Sweep(market: string, key: ObligationKey)

  function CacheOf(memory: map<string, Cache>, market: string): Cache {
    if market in memory then memory[market] else map[]
  }

  function SyncAll(memory: map<string, Cache>, rows: Rows, markets: seq<string>): map<string, Cache>
    decreases |markets|
  {
    if markets == [] then memory
    else SyncAll(memory[markets[0] := Loaded(rows, markets[0])], rows, markets[1..])
  }

  function Apply(s: CacheState, step: Step): CacheState {
    match step
    case Sync(markets) => s.(memory := SyncAll(s.memory, s.rows, markets))
    case Upsert(market, key, obligation) =>
      CacheState(s.memory[market := CacheOf(s.memory, market)[key := obligation]],
                 s.rows[RowOf(market, key) := obligation])
    case Remove(market, key) =>
      CacheState(if market in s.memory then s.memory[market := s.memory[market] - {key}] else s.memory,
                 s.rows - {RowOf(market, key)})
    case Sweep(market, key) => s.(rows := s.rows - {RowOf(market, key)})
  }

  class ObligationStore {
    var obligations: map<string, Cache>
    const repo: ObligationsRepo

    constructor (repo: ObligationsRepo)
      ensures this.repo == repo && obligations == map[]
    {
      this.repo := repo;
      obligations := map[];
    }

    ghost function State(): CacheState
      reads this, repo
    {
      CacheState(obligations, repo.rows)
    }

    method SyncState(markets: seq<string>)
      modifies this
      ensures State() == Apply(old(State()), Sync(markets))
    {
      for i := 0 to |markets|
        invariant SyncAll(obligations, repo.rows, markets[i..]) == SyncAll(old(obligations), repo.rows, markets)
      {
        assert markets[i..][1..] == markets[i + 1..];
        var cached := repo.LoadAll(markets[i]);
        obligations := obligations[markets[i] := cached];
      }
    }

    method UpsertObligation(market: string, key: ObligationKey, obligation: Obligation)
      modifies this, repo
      ensures State() == Apply(old(State()), Upsert(market, key, obligation))
    {
      repo.Put(market, key, obligation);
      var cached := if market in obligations then obligations[market] else map[];
      obligations := obligations[market := cached[key := obligation]];
    }

    method DeleteObligation(market: string, key: ObligationKey)
      modifies this, repo
      ensures State() == Apply(old(State()), Remove(market, key))
    {
      repo.Delete(market, key);
      if market in obligations {
        obligations := obligations[market := obligations[market] - {key}];
      }
    }
  }

  /** The initiator's sweep over a market's stored rows: it drops those the chain reports gone
      among the ones it finds worth a look, and touches nothing else. */
  method DropGone(repo: ObligationsRepo, market: string, worthALook: ObligationKey -> bool, gone: ObligationKey -> bool)
    modifies repo
    ensures repo.rows.Keys <= old(repo.rows).Keys
    ensures forall row :: row in repo.rows ==> repo.rows[row] == old(repo.rows)[row]
    ensures forall row :: row in old(repo.rows) ==>
              (row !in repo.rows <==> row.market == market && worthALook(KeyOf(row)) && gone(KeyOf(row)))
  {
    var loaded := repo.LoadAll(market);
    ghost var before := repo.rows;
    var left := loaded.Keys;
    while left != {}
      invariant left <= loaded.Keys
      invariant repo.rows.Keys <= before.Keys
      invariant forall row :: row in repo.rows ==> repo.rows[row] == before[row]
      invariant forall row :: row in before ==>
                  (row !in repo.rows <==>
                    row.market == market && KeyOf(row) in loaded && KeyOf(row) !in left && worthALook(KeyOf(row)) && gone(KeyOf(row)))
      decreases |left|
    {
      var key :| key in left;
      LoadedLookup(before, market, key);
      OneKeyPerRow(RowOf(market, key));
      if worthALook(key) && gone(key) {
        repo.Delete(market, key);
      }
      left := left - {key};
      forall row | row in before && row.market == market && KeyOf(row) == key
        ensures row == RowOf(market, key)
      {
        RowRoundTrip(row);
      }
      KeyRoundTrip(market, key);
    }
    forall row | row in before && row.market == market
      ensures KeyOf(row) in loaded
    {
      RowRoundTrip(row);
      LoadedLookup(before, market, KeyOf(row));
    }
  }

  // ----- The invariant

  /** Every stored row of the market is in memory with the same obligation. */
  predicate Mirrored(s: CacheState, market: string) {
    && market in s.memory
    && forall row :: row in s.rows && row.market == market ==>
         KeyOf(row) in s.memory[market] && s.memory[market][KeyOf(row)] == s.rows[row]
  }

  predicate StorableStep(step: Step) {
    step.Upsert? ==> Storable(step.key)
  }

  ghost function Run(s: CacheState, steps: seq<Step>): CacheState
    decreases |steps|
  {
    if steps == [] then s else Run(Apply(s, steps[0]), steps[1..])
  }

  lemma {:induction false} SyncAllLoads(memory: map<string, Cache>, rows: Rows, markets: seq<string>, market: string)
    ensures market in markets ==>
              market in SyncAll(memory, rows, markets) && SyncAll(memory, rows, markets)[market] == Loaded(rows, market)
    ensures market !in markets ==>
              (market in SyncAll(memory, rows, markets) <==> market in memory)
    ensures market !in markets && market in memory ==> SyncAll(memory, rows, markets)[market] == memory[market]
    decreases |markets|
  {
    if markets != [] {
      SyncAllLoads(memory[markets[0] := Loaded(rows, markets[0])], rows, markets[1..], market);
    }
  }

  /** Right after a sync, memory is exactly what is stored. */
  lemma SyncMirrorsExactly(s: CacheState, markets: seq<string>, market: string)
    requires market in markets
    ensures var t := Apply(s, Sync(markets));
            && market in t.memory
            && t.memory[market] == Loaded(t.rows, market)
            && Mirrored(t, market)
  {
    SyncAllLoads(s.memory, s.rows, markets, market);
    forall row | row in s.rows && row.market == market
      ensures KeyOf(row) in Loaded(s.rows, market) && Loaded(s.rows, market)[KeyOf(row)] == s.rows[row]
    {
      RowRoundTrip(row);
      LoadedLookup(s.rows, market, KeyOf(row));
    }
  }

  lemma StepKeepsMirrored(s: CacheState, step: Step, market: string)
    requires Mirrored(s, market) && StorableStep(step)
    ensures Mirrored(Apply(s, step), market)
  {
    match step
    case Sync(markets) =>
      SyncAllLoads(s.memory, s.rows, markets, market);
      if market in markets {
        SyncMirrorsExactly(s, markets, market);
      }
    case Upsert(_, key, _) =>
      KeyRoundTrip(market, key);
      UpsertMirrors(s, step, market);
    case Remove(_, key) =>
      KeyRoundTrip(market, key);
      RemoveMirrors(s, step, market);
    case Sweep(_, _) =>
  }

  lemma UpsertMirrors(s: CacheState, step: Step, market: string)
    requires Mirrored(s, market) && step.Upsert? && Storable(step.key)
    ensures Mirrored(Apply(s, step), market)
  {
    var t := Apply(s, step);
    forall row | row in t.rows && row.market == market
      ensures KeyOf(row) in t.memory[market] && t.memory[market][KeyOf(row)] == t.rows[row]
    {
      RowRoundTrip(row);
      KeyRoundTrip(market, step.key);
    }
  }

  lemma RemoveMirrors(s: CacheState, step: Step, market: string)
    requires Mirrored(s, market) && step.Remove?
    ensures Mirrored(Apply(s, step), market)
  {
    var t := Apply(s, step);
    forall row | row in t.rows && row.market == market
      ensures KeyOf(row) in t.memory[market] && t.memory[market][KeyOf(row)] == t.rows[row]
    {
      RowRoundTrip(row);
    }
  }

  /** Over any interleaving of liquidator events, re-syncs and initiator sweeps after the first
      sync, the stored table of a market stays a sub-map of the liquidator's memory. */
  lemma {:induction false} StoredStaysInMemory(s: CacheState, steps: seq<Step>, market: string)
    requires Mirrored(s, market)
    requires forall i :: 0 <= i < |steps| ==> StorableStep(steps[i])
    ensures Mirrored(Run(s, steps), market)
    decreases |steps|
  {
    if steps != [] {
      StepKeepsMirrored(s, steps[0], market);
      StoredStaysInMemory(Apply(s, steps[0]), steps[1..], market);
    }
  }

  /** One upsert keeps the invariant exactly when its key is storable or the unseeded key of the
      same user already holds the same obligation in memory. */
  lemma UpsertMirrorsIff(s: CacheState, market: string, key: ObligationKey, obligation: Obligation)
    requires Mirrored(s, market)
    ensures Mirrored(Apply(s, Upsert(market, key, obligation)), market) <==>
              (Storable(key)
               || (&& ObligationKey(key.user, None) in s.memory[market]
                   && s.memory[market][ObligationKey(key.user, None)] == obligation))
  {
    var t := Apply(s, Upsert(market, key, obligation));
    var row := RowOf(market, key);
    if Storable(key) {
      UpsertMirrors(s, Upsert(market, key, obligation), market);
    } else {
      assert KeyOf(row) == ObligationKey(key.user, None);
      assert row in t.rows && t.rows[row] == obligation;
      forall other | other in t.rows && other.market == market && other != row
        ensures KeyOf(other) in t.memory[market] && t.memory[market][KeyOf(other)] == t.rows[other]
      {
        RowRoundTrip(other);
      }
    }
  }

  /** What the liquidator has in memory under a key. */
  function Cached(s: CacheState, market: string, key: ObligationKey): Option<Obligation> {
    if key in CacheOf(s.memory, market) then Some(CacheOf(s.memory, market)[key]) else None
  }

  function Stored(s: CacheState, market: string, key: ObligationKey): Option<Obligation> {
    if RowOf(market, key) in s.rows then Some(s.rows[RowOf(market, key)]) else None
  }

  /** One event on a key sets or clears it in memory and in store, and changes no other key of memory
      and no other row: an upsert sets both, a removal clears both, a sweep clears the store alone. */
  lemma EventOnOneKey(s: CacheState, step: Step, market: string, key: ObligationKey)
    requires !step.Sync?
    ensures var (t, here) := (Apply(s, step), step.market == market && step.key == key);
            && Cached(t, market, key) == (if here && step.Upsert? then Some(step.obligation)
                                          else if here && step.Remove? then None
                                          else Cached(s, market, key))
            && Stored(t, market, key) == (if RowOf(step.market, step.key) != RowOf(market, key) then Stored(s, market, key)
                                          else if step.Upsert? then Some(step.obligation)
                                          else None)
  {
  }

  /** A re-sync sets a synced market's memory to what is stored under keys that read back, and leaves
      the rows and every other market as they were. */
  lemma SyncOnOneKey(s: CacheState, markets: seq<string>, market: string, key: ObligationKey)
    ensures var t := Apply(s, Sync(markets));
            && t.rows == s.rows
            && Cached(t, market, key) == (if market !in markets then Cached(s, market, key)
                                          else if Storable(key) then Stored(s, market, key)
                                          else None)
  {
    SyncAllLoads(s.memory, s.rows, markets, market);
    LoadedLookup(s.rows, market, key);
  }
}
