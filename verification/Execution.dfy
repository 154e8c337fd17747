/** The life of a reservation: taken at dispatch, released by the executor on every terminal
    path of its transaction, or left to expire when the action never reaches the executor. */
module Execution {
  import opened Arithmetic
  import opened Capital

  // ----- Dispatching a plan

  /** What dispatching does to the table. A plan of the keeper's own capital reserves first; a
      flash plan reserves nothing. If the operation then cannot be built the id is released. */
  ghost function DispatchIn(table: Table, amount: int, available: Result<int>, token: string, id: nat, built: bool, now: nat, ttl: nat)
    : (Table, Option<nat>)
  {
    if amount > 0 then
      if available.Err? then (table, None)
      else
        var (reserved, outcome) := ReserveIn(table, amount, available.value, token, id, now, ttl);
        if !outcome.Reserved? then (reserved, None)
        else if built then (reserved, Some(id))
        else (reserved - {id}, None)
    else if built then (table, Some(id))
    else (table - {id}, None)
  }

  /** Dispatches a simulated plan; `Some(id)` is the settle hook of the action handed on. */
  method Dispatch(
    capital: LiquidatorCapital, amount: int, available: Result<int>, token: string, randomId: nat, built: bool, now: nat)
    returns (hook: Option<nat>)
    modifies capital`reservations, capital`released
    ensures (capital.reservations, hook)
         == DispatchIn(old(capital.reservations), amount, available, token, randomId, built, now, capital.config.reservationTtl)
    ensures capital.released == old(capital.released) || (hook.None? && capital.released == old(capital.released) + [randomId])
  {
    if amount > 0 {
      if available.Err? {
        return None;
      }
      var outcome := capital.Reserve(amount, available.value, token, now, randomId);
      if !outcome.Reserved? {
        return None;
      }
    }
    if built {
      return Some(randomId);
    }
    capital.Release(randomId);
    return None;
  }

  /** A plan that is not dispatched leaves no reservation: with a fresh id, what counts in the
      table afterwards is exactly what counted before. */
  lemma UndispatchedLeavesNothing(table: Table, amount: int, available: Result<int>, token: string, id: nat, built: bool, now: nat, ttl: nat)
    requires id !in table
    requires DispatchIn(table, amount, available, token, id, built, now, ttl).1.None?
    ensures var after := DispatchIn(table, amount, available, token, id, built, now, ttl).0;
            && Unexpired(after, now, ttl) == Unexpired(table, now, ttl)
            && after.Keys <= table.Keys
  {
    var live := Unexpired(table, now, ttl);
    assert live[id := Reservation(amount, now, token)] - {id} == live;
    assert table - {id} == table;
  }

  /** A dispatched plan of the keeper's own capital holds a reservation of its amount, in its token,
      from now on, that fitted beside what was committed; a dispatched flash plan holds none. */
  lemma DispatchedHolds(table: Table, amount: int, available: Result<int>, token: string, id: nat, built: bool, now: nat, ttl: nat)
    requires DispatchIn(table, amount, available, token, id, built, now, ttl).1.Some?
    ensures built
    ensures var (after, hook) := DispatchIn(table, amount, available, token, id, built, now, ttl);
            && hook == Some(id)
            && (amount > 0 ==>
                  && available.Ok?
                  && id in after && after[id] == Reservation(amount, now, token)
                  && (available.value < I128_MAX ==> Committed(Unexpired(table, now, ttl), token) + amount <= available.value))
            && (amount <= 0 ==> after == table)
  {
  }

  /** Conversely, only a balance that is unreadable or short, or an operation that cannot be built,
      holds a plan back. */
  lemma DispatchedIff(table: Table, amount: int, available: Result<int>, token: string, id: nat, built: bool, now: nat, ttl: nat)
    requires available.Ok? ==> available.value < I128_MAX
    requires Committed(Unexpired(table, now, ttl), token) >= 0
    ensures DispatchIn(table, amount, available, token, id, built, now, ttl).1.Some? <==>
              built && (amount > 0 ==> available.Ok? && Committed(Unexpired(table, now, ttl), token) + amount <= available.value)
  {
    if available.Ok? {
      ReserveGrantsIff(table, amount, available.value, token, id, now, ttl);
    }
  }

  // ----- The executor

  /** What one submission attempt comes to. */
  datatype Attempt = Sent(hashDecodes: bool) | NoSimulationResults | SendFailed

  datatype Outcome = Success(hashDecodes: bool) | SimEmpty | SeqFetchFailed | RetryExhausted

  /** The outcome of the submission loop from its `attempt`-th try, and the tries it makes. */
  function Submission(fetched: nat -> bool, sent: nat -> Attempt, attempt: nat, maxRetries: nat): (Outcome, nat)
    decreases maxRetries - attempt
  {
    var isLast := attempt >= maxRetries;
    if !fetched(attempt) then
      if isLast then (SeqFetchFailed, attempt) else Submission(fetched, sent, attempt + 1, maxRetries)
    else
      match sent(attempt)
      case Sent(decodes) => (Success(decodes), attempt)
      case NoSimulationResults => (SimEmpty, attempt)
      case SendFailed => if isLast then (RetryExhausted, attempt) else Submission(fetched, sent, attempt + 1, maxRetries)
  }

  /** The loop stops within `max(1, maxRetries)` attempts, on the first attempt that settles it,
      and reports a failure to fetch or send only when every attempt before failed. */
  lemma {:induction false} SubmissionBounded(fetched: nat -> bool, sent: nat -> Attempt, attempt: nat, maxRetries: nat)
    requires attempt <= (if maxRetries >= 1 then maxRetries else 1)
    ensures var (outcome, tries) := Submission(fetched, sent, attempt, maxRetries);
            && attempt <= tries <= (if attempt >= maxRetries then attempt else maxRetries)
            && (forall i :: attempt <= i < tries ==> !fetched(i) || sent(i).SendFailed?)
            && (outcome.Success? <==> fetched(tries) && sent(tries).Sent?)
            && (outcome.SimEmpty? <==> fetched(tries) && sent(tries).NoSimulationResults?)
            && (outcome.SeqFetchFailed? <==> !fetched(tries))
            && (outcome.SeqFetchFailed? || outcome.RetryExhausted? ==> tries >= maxRetries)
    decreases maxRetries - attempt
  {
    if attempt < maxRetries && (!fetched(attempt) || sent(attempt).SendFailed?) {
      SubmissionBounded(fetched, sent, attempt + 1, maxRetries);
    }
  }

  /** What settles with an action: its reservation, and the profit a liquidation expects. */
  datatype SettleHook = SettleHook(opId: nat, expectedNetValue: Option<int>)

  function ReleasedBy(hook: Option<SettleHook>): seq<nat> {
    if hook.Some? then [hook.value.opId] else []
  }

  function TableAfter(table: Table, hook: Option<SettleHook>): Table {
    if hook.Some? then table - {hook.value.opId} else table
  }

  /** Submits an action. A sent transaction is left to the confirmation poll, every other outcome
      releases the hook at once. */
  method Execute(capital: LiquidatorCapital, hook: Option<SettleHook>, fetched: nat -> bool, sent: nat -> Attempt, maxRetries: nat)
    returns (outcome: Outcome, attempts: nat)
    modifies capital`reservations, capital`released
    ensures (outcome, attempts) == Submission(fetched, sent, 1, maxRetries)
    ensures 1 <= attempts <= (if maxRetries >= 1 then maxRetries else 1)
    ensures outcome.Success? ==>
              capital.released == old(capital.released) && capital.reservations == old(capital.reservations)
    ensures !outcome.Success? ==>
              && capital.released == old(capital.released) + ReleasedBy(hook)
              && capital.reservations == TableAfter(old(capital.reservations), hook)
  {
    var attempt := 1;
    while true
      invariant 1 <= attempt <= (if maxRetries >= 1 then maxRetries else 1)
      invariant Submission(fetched, sent, attempt, maxRetries) == Submission(fetched, sent, 1, maxRetries)
      invariant capital.released == old(capital.released) && capital.reservations == old(capital.reservations)
      decreases (if maxRetries >= 1 then maxRetries else 1) - attempt
    {
      var isLast := attempt >= maxRetries;
      attempts := attempt;
      if !fetched(attempt) {
        if isLast {
          outcome := SeqFetchFailed;
          break;
        }
        attempt := attempt + 1;
        continue;
      }
      match sent(attempt) {
        case Sent(decodes) =>
          outcome := Success(decodes);
          break;
        case NoSimulationResults =>
          outcome := SimEmpty;
          break;
        case SendFailed =>
          if isLast {
            outcome := RetryExhausted;
            break;
          }
      }
      attempt := attempt + 1;
    }
    if !outcome.Success? && hook.Some? {
      capital.Release(hook.value.opId);
    }
  }

  /** The background poll of a sent transaction. It releases the hook whether the hash fails to
      decode, the transaction confirms or the poll fails; only a confirmation realises a profit. */
  method ConfirmationPoll(capital: LiquidatorCapital, hook: Option<SettleHook>, hashDecodes: bool, confirmed: bool)
    returns (realised: Option<int>)
    modifies capital`reservations, capital`released
    ensures capital.released == old(capital.released) + ReleasedBy(hook)
    ensures capital.reservations == TableAfter(old(capital.reservations), hook)
    ensures realised == if hashDecodes && confirmed && hook.Some? then hook.value.expectedNetValue else None
  {
    realised := None;
    if !hashDecodes {
      if hook.Some? {
        capital.Release(hook.value.opId);
      }
      return;
    }
    if confirmed && hook.Some? {
      realised := hook.value.expectedNetValue;
    }
    if hook.Some? {
      capital.Release(hook.value.opId);
    }
  }

  /** From receipt to settlement the executor releases the action's hook exactly once, and
      realises its profit only for a transaction that was sent and confirmed. */
  method Settle(
    capital: LiquidatorCapital, hook: Option<SettleHook>, fetched: nat -> bool, sent: nat -> Attempt, maxRetries: nat, confirmed: bool)
    returns (realised: Option<int>)
    modifies capital`reservations, capital`released
    ensures capital.released == old(capital.released) + ReleasedBy(hook)
    ensures capital.reservations == TableAfter(old(capital.reservations), hook)
    ensures realised.Some? ==> confirmed && Submission(fetched, sent, 1, maxRetries).0.Success?
  {
    realised := None;
    var outcome, attempts := Execute(capital, hook, fetched, sent, maxRetries);
    if outcome.Success? {
      realised := ConfirmationPoll(capital, hook, outcome.hashDecodes, confirmed);
    }
  }

  // ----- The whole system

  /** What happens to the keeper's actions: dispatch, settlement by the executor, or loss before
      the executor ever receives them. */
  datatype Event =
    | Dispatched(amount: int, available: Result<int>, token: string, id: nat, built: bool)
    | Settled(id: nat)
    | Lost(id: nat)
    | Elapsed(time: nat)

  /** `inFlight` are the actions the executor still owes a settlement; `lost` maps an action that
      was dropped to the time it was dropped. */
  datatype System = System(table: Table, clock: nat, inFlight: set<nat>, lost: map<nat, nat>)

  /** The events the keeper can produce: ids are fresh, and only actions in flight settle or drop. */
  predicate Possible(s: System, e: Event) {
    match e
    case Dispatched(_, _, _, id, _) => id !in s.table && id !in s.inFlight && id !in s.lost
    case Settled(id) => id in s.inFlight
    case Lost(id) => id in s.inFlight
    case Elapsed(_) => true
  }

  ghost function Next(s: System, e: Event, ttl: nat): System {
    match e
    case Dispatched(amount, available, token, id, built) =>
      var (table, hook) := DispatchIn(s.table, amount, available, token, id, built, s.clock, ttl);
      s.(table := table, inFlight := s.inFlight + if hook.Some? then {id} else {})
    case Settled(id) => s.(table := s.table - {id}, inFlight := s.inFlight - {id})
    case Lost(id) => s.(inFlight := s.inFlight - {id}, lost := s.lost[id := s.clock])
    case Elapsed(time) => s.(clock := s.clock + time)
  }

  ghost predicate Reachable(s: System, events: seq<Event>, t: System, ttl: nat)
    decreases |events|
  {
    if events == [] then s == t
    else Possible(s, events[0]) && Reachable(Next(s, events[0], ttl), events[1..], t, ttl)
  }

  /** Every reservation belongs to an action in flight, or to a lost one and is older than its loss. */
  predicate Accounted(s: System) {
    && (forall id :: id in s.table ==> s.table[id].createdAt <= s.clock)
    && (forall id :: id in s.table ==>
          || id in s.inFlight
          || (id in s.lost && s.table[id].createdAt <= s.lost[id]))
    && (forall id :: id in s.lost ==> s.lost[id] <= s.clock && id !in s.inFlight)
  }

  lemma NextAccounted(s: System, e: Event, ttl: nat)
    requires Accounted(s) && Possible(s, e)
    ensures Accounted(Next(s, e, ttl))
  {
    if e.Dispatched? {
      DispatchKeys(s.table, e.amount, e.available, e.token, e.id, e.built, s.clock, ttl);
    }
  }

  lemma DispatchKeys(table: Table, amount: int, available: Result<int>, token: string, id: nat, built: bool, now: nat, ttl: nat)
    requires id !in table
    ensures var (after, hook) := DispatchIn(table, amount, available, token, id, built, now, ttl);
            && (hook.Some? ==> hook.value == id)
            && (forall x :: x in after ==> (x in table && after[x] == table[x]) || (x == id && hook.Some? && after[x].createdAt == now))
  {
  }

  /** Over every run from an empty table, whatever is reserved is owed to an action in flight or
      to one that was lost. */
  lemma {:induction false} ReservationsAccounted(s: System, events: seq<Event>, t: System, ttl: nat)
    requires Accounted(s) && Reachable(s, events, t, ttl)
    ensures Accounted(t)
    decreases |events|
  {
    if events != [] {
      NextAccounted(s, events[0], ttl);
      ReservationsAccounted(Next(s, events[0], ttl), events[1..], t, ttl);
    }
  }

  /** Capital comes back: once the executor owes nothing, the table is empty but for the
      reservations of lost actions, and none of those counts a TTL after its loss. */
  lemma NothingLeaks(events: seq<Event>, t: System, ttl: nat)
    requires Reachable(System(map[], 0, {}, map[]), events, t, ttl)
    requires t.inFlight == {}
    ensures t.lost == map[] ==> t.table == map[]
    ensures forall id :: id in t.table ==> id in t.lost
    ensures (forall id :: id in t.lost ==> t.lost[id] + ttl <= t.clock) ==> Unexpired(t.table, t.clock, ttl) == map[]
  {
    ReservationsAccounted(System(map[], 0, {}, map[]), events, t, ttl);
  }

  // ----- What an action in flight holds

  /** One event puts an action in flight, takes it out, or leaves it: a dispatch with a hook puts its id
      in, a settlement or a loss takes its own out. A loss is dated; a settlement is not a loss. */
  lemma EventOnOneAction(s: System, e: Event, ttl: nat, id: nat)
    ensures var t := Next(s, e, ttl);
            && (id in t.inFlight <==>
                  || (e.Dispatched? && e.id == id && DispatchIn(s.table, e.amount, e.available, e.token, id, e.built, s.clock, ttl).1.Some?)
                  || (id in s.inFlight && !((e.Settled? || e.Lost?) && e.id == id)))
            && (id in t.lost <==> id in s.lost || (e.Lost? && e.id == id))
            && (id in t.lost ==> t.lost[id] == if e.Lost? && e.id == id then s.clock else s.lost[id])
            && t.clock == s.clock + (if e.Elapsed? then e.time else 0)
            && (e.Settled? && e.id == id ==> id !in t.table)
            && (e.Lost? || e.Elapsed? ==> t.table == s.table)
  {
  }

  /** The reservations of own-capital actions in flight, kept from the events alone. */
  ghost function PromisedAfter(s: System, promised: Table, events: seq<Event>, ttl: nat): Table
    decreases |events|
  {
    if events == [] then promised
    else PromisedAfter(Next(s, events[0], ttl), Promise(s, promised, events[0], ttl), events[1..], ttl)
  }

  ghost function Promise(s: System, promised: Table, e: Event, ttl: nat): Table {
    match e
    case Dispatched(amount, available, token, id, built) =>
      if amount > 0 && DispatchIn(s.table, amount, available, token, id, built, s.clock, ttl).1.Some?
      then promised[id := Reservation(amount, s.clock, token)]
      else promised
    case Settled(id) => promised - {id}
    case Lost(id) => promised - {id}
    case Elapsed(_) => promised
  }

  lemma PromiseIsKept(s: System, promised: Table, e: Event, ttl: nat)
    requires Possible(s, e)
    requires SubTable(Unexpired(promised, s.clock, ttl), s.table) && promised.Keys <= s.inFlight
    ensures var (t, after) := (Next(s, e, ttl), Promise(s, promised, e, ttl));
            SubTable(Unexpired(after, t.clock, ttl), t.table) && after.Keys <= t.inFlight
  {
    if e.Dispatched? {
      var (table, hook) := DispatchIn(s.table, e.amount, e.available, e.token, e.id, e.built, s.clock, ttl);
      assert forall id :: id in Unexpired(promised, s.clock, ttl) ==> id in table && table[id] == promised[id];
    }
  }

  /** Over every run from an empty table, an own-capital action in flight holds the reservation it was
      dispatched with for as long as that has not expired. */
  lemma InFlightHoldsCapital(events: seq<Event>, t: System, ttl: nat)
    requires Reachable(System(map[], 0, {}, map[]), events, t, ttl)
    ensures var promised := PromisedAfter(System(map[], 0, {}, map[]), map[], events, ttl);
            SubTable(Unexpired(promised, t.clock, ttl), t.table) && promised.Keys <= t.inFlight
  {
    PromisesAreKept(System(map[], 0, {}, map[]), map[], events, t, ttl);
  }

  lemma {:induction false} PromisesAreKept(s: System, promised: Table, events: seq<Event>, t: System, ttl: nat)
    requires Reachable(s, events, t, ttl)
    requires SubTable(Unexpired(promised, s.clock, ttl), s.table) && promised.Keys <= s.inFlight
    ensures var after := PromisedAfter(s, promised, events, ttl);
            SubTable(Unexpired(after, t.clock, ttl), t.table) && after.Keys <= t.inFlight
    decreases |events|
  {
    if events != [] {
      PromiseIsKept(s, promised, events[0], ttl);
      PromisesAreKept(Next(s, events[0], ttl), Promise(s, promised, events[0], ttl), events[1..], t, ttl);
    }
  }
}
