/** The shared capital table: reservations with a time-to-live, and cached wallet balances.

    `LiquidatorCapital` is the table the strategies share; `Apply` is the same table as a step
    function, over which the no-double-spend theorem quantifies every interleaving. */
module Capital {
  import opened Arithmetic

  datatype Reservation = Reservation(amount: int, createdAt: nat, token: string)

  datatype CachedBalance = CachedBalance(amount: int, fetchedAt: nat)

  datatype CapitalConfig = CapitalConfig(xlmAddress: string, reservationTtl: nat, balanceCacheTtl: nat)

  datatype ReserveOutcome = Reserved(id: nat) | NonPositiveAmount | NotEnoughBalance

  type Table = map<nat, Reservation>

  /** The reservations that have not outlived `ttl`; a clock behind a creation reads as no time. */
  function Unexpired(table: Table, now: nat, ttl: nat): Table {
    map id | id in table && Max(0, now - table[id].createdAt) < ttl :: table[id]
  }

  function Share(r: Reservation, token: string): int {
    if r.token == token then r.amount else 0
  }

  /** What the reservations of a table commit of a token. */
  ghost function Committed(table: Table, token: string): int
    decreases |table|
  {
    if table == map[] then 0
    else
      var id :| id in table;
      Share(table[id], token) + Committed(table - {id}, token)
  }

  lemma {:induction false} CommittedRemove(table: Table, id: nat, token: string)
    requires id in table
    ensures Committed(table, token) == Share(table[id], token) + Committed(table - {id}, token)
    decreases |table|
  {
    var picked :| picked in table && Committed(table, token) == Share(table[picked], token) + Committed(table - {picked}, token);
    if picked != id {
      CommittedRemove(table - {picked}, id, token);
      CommittedRemove(table - {id}, picked, token);
      assert table - {picked} - {id} == table - {id} - {picked};
    }
  }

  lemma CommittedUpdate(table: Table, id: nat, r: Reservation, token: string)
    ensures Committed(table[id := r], token) == Share(r, token) + Committed(table - {id}, token)
  {
    CommittedRemove(table[id := r], id, token);
    assert table[id := r] - {id} == table - {id};
  }

  predicate Positive(table: Table) {
    forall id :: id in table ==> table[id].amount > 0
  }

  predicate SubTable(small: Table, large: Table) {
    forall id :: id in small ==> id in large && small[id] == large[id]
  }

  /** Dropping reservations frees capital, never commits any. */
  lemma {:induction false} CommittedSubTable(small: Table, large: Table, token: string)
    requires SubTable(small, large) && Positive(large)
    ensures 0 <= Committed(small, token) <= Committed(large, token)
    decreases |large|
  {
    if large == map[] {
      assert small == map[];
    } else {
      var id :| id in large;
      CommittedRemove(large, id, token);
      if id in small {
        CommittedRemove(small, id, token);
        CommittedSubTable(small - {id}, large - {id}, token);
      } else {
        CommittedSubTable(small, large - {id}, token);
      }
    }
  }

  // ----- The table as a step function

  datatype Step =
    | Reserve(amount: int, available: int, token: string, id: nat)
    | Release(id: nat)
    | Tick(elapsed: nat)

  datatype CapitalState = CapitalState(table: Table, clock: nat)

  ghost function ReserveIn(table: Table, amount: int, available: int, token: string, id: nat, now: nat, ttl: nat): (Table, ReserveOutcome) {
    if amount <= 0 then (table, NonPositiveAmount)
    else
      var live := Unexpired(table, now, ttl);
      if Clamp(Committed(live, token) + amount) > available then (live, NotEnoughBalance)
      else (live[id := Reservation(amount, now, token)], Reserved(id))
  }

  ghost function Apply(s: CapitalState, step: Step, ttl: nat): CapitalState {
    match step
    case Reserve(amount, available, token, id) =>
      s.(table := ReserveIn(s.table, amount, available, token, id, s.clock, ttl).0)
    case Release(id) => s.(table := s.table - {id})
    case Tick(elapsed) => s.(clock := s.clock + elapsed)
  }

  ghost function Run(s: CapitalState, steps: seq<Step>, ttl: nat): CapitalState
    decreases |steps|
  {
    if steps == [] then s else Run(Apply(s, steps[0], ttl), steps[1..], ttl)
  }

  // ----- What a reserve answers

  /** A reserve is granted exactly when its amount is positive and fits beside what is committed, and
      a granted one is recorded: its token commits that much more afterwards, every other token the
      same. A refused reserve records nothing. */
  lemma ReserveGrantsIff(table: Table, amount: int, available: int, token: string, id: nat, now: nat, ttl: nat)
    requires available < I128_MAX
    requires Committed(Unexpired(table, now, ttl), token) >= 0
    ensures var (live, (after, outcome)) := (Unexpired(table, now, ttl), ReserveIn(table, amount, available, token, id, now, ttl));
            && (outcome.NonPositiveAmount? <==> amount <= 0)
            && (outcome == Reserved(id) <==> amount > 0 && Committed(live, token) + amount <= available)
            && (outcome.Reserved? ==> outcome == Reserved(id))
            && (outcome.Reserved? && id !in live && ttl > 0 ==>
                  && Unexpired(after, now, ttl) == after
                  && Committed(after, token) == Committed(live, token) + amount
                  && forall other :: other != token ==> Committed(after, other) == Committed(live, other))
            && (!outcome.Reserved? ==> Unexpired(after, now, ttl) == live)
  {
    var live := Unexpired(table, now, ttl);
    var (after, outcome) := ReserveIn(table, amount, available, token, id, now, ttl);
    if outcome.Reserved? && id !in live {
      assert live - {id} == live;
      forall other
        ensures Committed(after, other) == Share(Reservation(amount, now, token), other) + Committed(live, other)
      {
        CommittedUpdate(live, id, Reservation(amount, now, token), other);
      }
    }
  }

  // ----- No double spend

  /** Each reserve names at most `wallet` of its token as available. */
  predicate WithinWallet(steps: seq<Step>, wallet: string -> int) {
    forall i :: 0 <= i < |steps| && steps[i].Reserve? ==>
      steps[i].available <= wallet(steps[i].token) < I128_MAX
  }

  /** No token's unexpired reservations exceed its wallet. */
  ghost predicate Solvent(s: CapitalState, ttl: nat, wallet: string -> int) {
    && Positive(s.table)
    && forall token :: Committed(Unexpired(s.table, s.clock, ttl), token) <= Max(0, wallet(token))
  }

  lemma ReserveKeepsSolvent(s: CapitalState, step: Step, ttl: nat, wallet: string -> int)
    requires Solvent(s, ttl, wallet) && step.Reserve?
    requires step.available <= wallet(step.token) < I128_MAX
    ensures Solvent(Apply(s, step, ttl), ttl, wallet)
  {
    var live := Unexpired(s.table, s.clock, ttl);
    var t := Apply(s, step, ttl).table;
    var after := Unexpired(t, s.clock, ttl);
    forall token
      ensures Committed(after, token) <= Max(0, wallet(token))
    {
      CommittedSubTable(after, t, token);
      if step.amount > 0 && Clamp(Committed(live, step.token) + step.amount) <= step.available {
        CommittedUpdate(live, step.id, Reservation(step.amount, s.clock, step.token), token);
        CommittedSubTable(live - {step.id}, live, token);
      }
    }
  }

  lemma ShrinkKeepsSolvent(s: CapitalState, t: CapitalState, ttl: nat, wallet: string -> int)
    requires Solvent(s, ttl, wallet)
    requires SubTable(t.table, s.table) && t.clock >= s.clock
    ensures Solvent(t, ttl, wallet)
  {
    forall token
      ensures Committed(Unexpired(t.table, t.clock, ttl), token) <= Max(0, wallet(token))
    {
      CommittedSubTable(Unexpired(t.table, t.clock, ttl), Unexpired(s.table, s.clock, ttl), token);
    }
  }

  /** Over any interleaving of reserve, release and clock steps, whatever the reservation ids,
      the unexpired reservations on a token never exceed the wallet the reserves were shown. */
  lemma {:induction false} NoDoubleSpend(s: CapitalState, steps: seq<Step>, ttl: nat, wallet: string -> int)
    requires Solvent(s, ttl, wallet) && WithinWallet(steps, wallet)
    ensures Solvent(Run(s, steps, ttl), ttl, wallet)
    decreases |steps|
  {
    if steps != [] {
      var next := Apply(s, steps[0], ttl);
      if steps[0].Reserve? {
        ReserveKeepsSolvent(s, steps[0], ttl, wallet);
      } else {
        ShrinkKeepsSolvent(s, next, ttl, wallet);
      }
      NoDoubleSpend(next, steps[1..], ttl, wallet);
    }
  }

  // ----- The same, of the answers

  /** What the callers hold by the answers they got: each grant until it is released. The table is
      consulted for nothing but the answer. */
  ghost function HeldAfter(s: CapitalState, held: Table, steps: seq<Step>, ttl: nat): Table
    decreases |steps|
  {
    if steps == [] then held
    else HeldAfter(Apply(s, steps[0], ttl), Answered(s, held, steps[0], ttl), steps[1..], ttl)
  }

  ghost function Answered(s: CapitalState, held: Table, step: Step, ttl: nat): Table {
    match step
    case Reserve(amount, available, token, id) =>
      (match ReserveIn(s.table, amount, available, token, id, s.clock, ttl).1
       case Reserved(granted) => held[granted := Reservation(amount, s.clock, token)]
       case _ => held)
    case Release(id) => held - {id}
    case Tick(_) => held
  }

  /** No reserve draws the id of a grant still held and unexpired. */
  ghost predicate FreshIds(s: CapitalState, held: Table, steps: seq<Step>, ttl: nat)
    decreases |steps|
  {
    steps != [] ==>
      && (steps[0].Reserve? ==> steps[0].id !in Unexpired(held, s.clock, ttl))
      && FreshIds(Apply(s, steps[0], ttl), Answered(s, held, steps[0], ttl), steps[1..], ttl)
  }

  /** Every grant held and unexpired is in the table. */
  lemma {:induction false} GrantsAreRecorded(s: CapitalState, held: Table, steps: seq<Step>, ttl: nat)
    requires FreshIds(s, held, steps, ttl)
    requires SubTable(Unexpired(held, s.clock, ttl), s.table)
    ensures var end := Run(s, steps, ttl);
            SubTable(Unexpired(HeldAfter(s, held, steps, ttl), end.clock, ttl), end.table)
    decreases |steps|
  {
    if steps != [] {
      var next, after := Apply(s, steps[0], ttl), Answered(s, held, steps[0], ttl);
      assert SubTable(Unexpired(after, next.clock, ttl), next.table);
      GrantsAreRecorded(next, after, steps[1..], ttl);
    }
  }

  /** No double spend, of the answers: over any interleaving in which no reserve draws an id still
      held, what was granted, not released and not expired never exceeds the wallet. */
  lemma GrantsStayWithinWallet(steps: seq<Step>, ttl: nat, wallet: string -> int, token: string)
    requires WithinWallet(steps, wallet)
    requires FreshIds(CapitalState(map[], 0), map[], steps, ttl)
    ensures var start := CapitalState(map[], 0);
            var held := Unexpired(HeldAfter(start, map[], steps, ttl), Run(start, steps, ttl).clock, ttl);
            Committed(held, token) <= Max(0, wallet(token))
  {
    var start := CapitalState(map[], 0);
    var end := Run(start, steps, ttl);
    var held := Unexpired(HeldAfter(start, map[], steps, ttl), end.clock, ttl);
    assert Unexpired(map[], 0, ttl) == map[];
    NoDoubleSpend(start, steps, ttl, wallet);
    GrantsAreRecorded(start, map[], steps, ttl);
    CommittedSubTable(held, Unexpired(end.table, end.clock, ttl), token);
  }

  /** From an empty table, with every XLM reserve shown the balance less the safety margin, the
      margin is never committed: what is reserved of a balance always leaves it whole. */
  lemma SafetyMarginUntouched(steps: seq<Step>, ttl: nat, xlm: string, raw: string -> int, margin: int)
    requires margin >= 0
    requires WithinWallet(steps, token => if token == xlm then raw(token) - margin else raw(token))
    requires raw(xlm) >= margin
    ensures var end := Run(CapitalState(map[], 0), steps, ttl);
            Committed(Unexpired(end.table, end.clock, ttl), xlm) + margin <= raw(xlm)
  {
    var wallet := token => if token == xlm then raw(token) - margin else raw(token);
    assert Unexpired(map[], 0, ttl) == map[];
    NoDoubleSpend(CapitalState(map[], 0), steps, ttl, wallet);
  }

  // ----- The shared object

  class LiquidatorCapital {
    const config: CapitalConfig
    var reservations: Table
    var balances: map<string, CachedBalance>
    /** Every id handed to `Release`, in order. */
    ghost var released: seq<nat>

    constructor (config: CapitalConfig)
      ensures this.config == config
      ensures reservations == map[] && balances == map[] && released == []
    {
      this.config := config;
      reservations := map[];
      balances := map[];
      released := [];
    }

    method UnlockExpired(now: nat)
      modifies this`reservations
      ensures reservations == Unexpired(old(reservations), now, config.reservationTtl)
    {
      reservations := map id | id in reservations && Max(0, now - reservations[id].createdAt) < config.reservationTtl :: reservations[id];
    }

    /** The sum the reservation gate compares with. */
    method CommittedOf(token: string) returns (sum: int)
      ensures sum == Committed(reservations, token)
    {
      sum := 0;
      var left := reservations.Keys;
      assert reservations - (reservations.Keys - left) == reservations;
      while left != {}
        invariant left <= reservations.Keys
        invariant sum + Committed(reservations - (reservations.Keys - left), token) == Committed(reservations, token)
        decreases |left|
      {
        var id :| id in left;
        ghost var rest := reservations - (reservations.Keys - left);
        CommittedRemove(rest, id, token);
        sum := sum + if reservations[id].token == token then reservations[id].amount else 0;
        left := left - {id};
        assert rest - {id} == reservations - (reservations.Keys - left);
      }
      assert reservations - (reservations.Keys - left) == map[];
    }

    /** Reserves under the lock; the freshly drawn id is the caller's `randomId`. */
    method Reserve(amount: int, available: int, token: string, now: nat, randomId: nat) returns (outcome: ReserveOutcome)
      modifies this`reservations
      ensures (reservations, outcome)
           == ReserveIn(old(reservations), amount, available, token, randomId, now, config.reservationTtl)
    {
      if amount <= 0 {
        return NonPositiveAmount;
      }
      UnlockExpired(now);
      var committed := CommittedOf(token);
      if Clamp(committed + amount) > available {
        return NotEnoughBalance;
      }
      reservations := reservations[randomId := Reservation(amount, now, token)];
      return Reserved(randomId);
    }

    method Release(id: nat)
      modifies this`reservations, this`released
      ensures reservations == old(reservations) - {id}
      ensures released == old(released) + [id]
    {
      reservations := reservations - {id};
      released := released + [id];
    }

    /** A balance from the cache while it is fresh, else from the ledger, which refreshes it. */
    method TryGetBalance(token: string, now: nat, ledger: Result<int>) returns (r: Result<int>)
      modifies this`balances
      ensures var cached := token in old(balances) && Max(0, now - old(balances)[token].fetchedAt) < config.balanceCacheTtl;
              && (cached ==> r == Ok(old(balances)[token].amount) && balances == old(balances))
              && (!cached ==> r == ledger)
              && (!cached && ledger.Ok? ==> balances == old(balances)[token := CachedBalance(ledger.value, now)])
              && (!cached && ledger.Err? ==> balances == old(balances))
    {
      if token in balances && Max(0, now - balances[token].fetchedAt) < config.balanceCacheTtl {
        return Ok(balances[token].amount);
      }
      var amount :- ledger;
      balances := balances[token := CachedBalance(amount, now)];
      return Ok(amount);
    }
  }
}
