// Whole traces of checks against one storage, with a clock that never goes back, one limit
// and one window length.
module RateLimitTrace {
  import opened Common
  import opened RateLimiter

  // A check carries the values it leaves behind and the answer it got; a sweep is a stand-alone
  // cleanup.
  datatype Event = Check(key: Key, now: real, after: Values, answer: Decision) | Sweep(now: real)

  datatype Config = Config(maxEntries: nat, limit: nat, window: int) {
    ghost predicate Valid() {
      maxEntries > 0 && window > 0
    }

    function Width(): real {
      window as real
    }
  }

  ghost function After(c: Config, values: Values, e: Event): Values {
    match e
    case Check(_, _, after, _) => after
    case Sweep(now) => Unexpired(values, now, c.window)
  }

  ghost predicate IsStep(c: Config, values: Values, e: Event) {
    e.Check? ==>
      && Incremented(values, c.maxEntries, e.key, e.now, c.window, e.after)
      && e.key in e.after && Answers(e.answer, e.after[e.key], e.now, c.limit, c.window)
  }

  // Every call of the limiter is such a step.
  method CheckIsStep(storage: Storage, c: Config, key: Key, now: real) returns (ghost e: Event)
    requires storage.Valid() && storage.maxEntries == c.maxEntries
    modifies storage`values
    ensures storage.Valid() && IsStep(c, old(storage.values), e) && After(c, old(storage.values), e) == storage.values
    ensures e.Check? && e.key == key && e.now == now
  {
    var answer := RateLimiter.Check(storage, key, now, c.limit, c.window);
    e := Check(key, now, storage.values, answer);
  }

  ghost predicate IsTrace(c: Config, values: Values, clock: real, trace: seq<Event>)
    decreases |trace|
  {
    trace == [] ||
    (clock <= trace[0].now && IsStep(c, values, trace[0])
     && IsTrace(c, After(c, values, trace[0]), trace[0].now, trace[1..]))
  }

  ghost function Last(c: Config, values: Values, trace: seq<Event>): Values
    decreases |trace|
  {
    if trace == [] then values else Last(c, After(c, values, trace[0]), trace[1..])
  }

  // The checks of one key at a time in [from, from + window) that were answered as allowed.
  ghost predicate Counts(c: Config, e: Event, key: Key, from: real) {
    e.Check? && e.key == key && from <= e.now < from + c.Width() && e.answer.allowed
  }

  ghost function AllowedIn(c: Config, trace: seq<Event>, key: Key, from: real): nat {
    if trace == [] then 0
    else (if Counts(c, trace[0], key, from) then 1 else 0) + AllowedIn(c, trace[1..], key, from)
  }

  // The key's unexpired entry was pushed out to make room for another key.
  ghost predicate Evicts(c: Config, values: Values, e: Event, key: Key) {
    key in Unexpired(values, e.now, c.window) && key !in After(c, values, e)
  }

  ghost function Evictions(c: Config, values: Values, trace: seq<Event>, key: Key): nat
    decreases |trace|
  {
    if trace == [] then 0
    else (if Evicts(c, values, trace[0], key) then 1 else 0)
         + Evictions(c, After(c, values, trace[0]), trace[1..], key)
  }

  // ---- one step, seen from one key ----------------------------------------------

  // The key's stored window, if any.
  ghost function Window(values: Values, key: Key): Option<Entry> {
    if key in values then Some(values[key]) else None
  }

  // What an event can do to the stored window of a key.
  ghost predicate WindowStep(c: Config, before: Option<Entry>, e: Event, key: Key, after: Option<Entry>,
                             evicted: bool) {
    var live := if before.Some? && !Expired(before.value, e.now, c.window) then before else None;
    if e.Check? && e.key == key then
      && !evicted
      && after == Some(if live.Some? then Entry(live.value.start, live.value.count + 1) else Entry(e.now, 1))
    else
      (if evicted then live.Some? && after == None else after == live)
  }

  lemma {:induction false} StepOnWindow(c: Config, values: Values, e: Event, key: Key)
    requires c.Valid() && IsStep(c, values, e)
    ensures WindowStep(c, Window(values, key), e, key, Window(After(c, values, e), key), Evicts(c, values, e, key))
  {
    if e.Check? {
      var roomy :| Roomy(Unexpired(values, e.now, c.window), c.maxEntries, e.key, roomy)
        && e.after == roomy[e.key := Counted(roomy, e.key, e.now, c.window)];
    }
  }

  // ---- the bound ------------------------------------------------------------------

  // How many more checks of the key can be allowed in [from, from + window), given its
  // stored window and the clock.
  ghost function Budget(c: Config, window: Option<Entry>, clock: real, from: real): int {
    var limit := c.limit as int;
    match window
    case None =>
      if clock >= from + c.Width() then 0
      else if clock >= from || limit == 0 then limit
      else 2 * limit - 1
    case Some(Entry(start, count)) =>
      var left := if count < c.limit then limit - count else 0;
      if start >= from + c.Width() then 0
      else if start >= from then left
      else if start > from - c.Width() then left + limit
      else if limit == 0 then 0
      else 2 * limit - 1
  }

  lemma {:induction false} BudgetStep(c: Config, before: Option<Entry>, clock: real, e: Event, key: Key,
                                      after: Option<Entry>, evicted: bool, from: real)
    requires c.Valid() && clock <= e.now && WindowStep(c, before, e, key, after, evicted)
    requires before.Some? ==> before.value.start <= clock && before.value.count > 0
    ensures after.Some? ==> after.value.start <= e.now && after.value.count > 0
    ensures var counted := e.Check? && e.key == key && from <= e.now < from + c.Width()
                           && after.Some? && after.value.count <= c.limit;
      (if counted then 1 else 0) + Budget(c, after, e.now, from)
        <= Budget(c, before, clock, from) + (if evicted then c.limit else 0)
  {
  }

  ghost predicate WindowFits(values: Values, key: Key, clock: real) {
    key in values ==> values[key].start <= clock && values[key].count > 0
  }

  // One limit for every eviction of the key.
  ghost function EvictionCredit(c: Config, values: Values, trace: seq<Event>, key: Key): nat
    decreases |trace|
  {
    if trace == [] then 0
    else (if Evicts(c, values, trace[0], key) then c.limit else 0)
         + EvictionCredit(c, After(c, values, trace[0]), trace[1..], key)
  }

  lemma {:induction false} OneMore(limit: nat, n: nat)
    ensures limit * (1 + n) == limit + limit * n
  {
  }

  lemma {:induction false} CreditIsLimitTimesEvictions(c: Config, values: Values, trace: seq<Event>, key: Key)
    ensures EvictionCredit(c, values, trace, key) == c.limit * Evictions(c, values, trace, key)
    decreases |trace|
  {
    if trace != [] {
      var after := After(c, values, trace[0]);
      CreditIsLimitTimesEvictions(c, after, trace[1..], key);
      OneMore(c.limit, Evictions(c, after, trace[1..], key));
    }
  }

  lemma {:induction false} TraceBudget(c: Config, values: Values, clock: real, trace: seq<Event>, key: Key, from: real)
    requires c.Valid() && IsTrace(c, values, clock, trace) && WindowFits(values, key, clock)
    ensures AllowedIn(c, trace, key, from)
      <= Budget(c, Window(values, key), clock, from) + EvictionCredit(c, values, trace, key)
    decreases |trace|
  {
    if trace != [] {
      var e, rest := trace[0], trace[1..];
      var after := After(c, values, e);
      StepOnWindow(c, values, e, key);
      BudgetStep(c, Window(values, key), clock, e, key, Window(after, key), Evicts(c, values, e, key), from);
      TraceBudget(c, after, e.now, rest, key, from);
    }
  }

  // Over any trace from empty storage, any interval one window long holds fewer than twice
  // the limit of allowed checks for a key, plus one limit for each time the key was evicted.
  lemma {:induction false} WindowBound(c: Config, clock: real, trace: seq<Event>, key: Key, from: real)
    requires c.Valid() && c.limit > 0 && IsTrace(c, map[], clock, trace)
    ensures AllowedIn(c, trace, key, from) <= 2 * c.limit - 1 + c.limit * Evictions(c, map[], trace, key)
  {
    TraceBudget(c, map[], clock, trace, key, from);
    CreditIsLimitTimesEvictions(c, map[], trace, key);
  }

  // Within one window length of the moment a stored window opened, the checks still to come
  // are allowed only up to what the window has left of the limit.
  lemma {:induction false} OpenWindowBound(c: Config, values: Values, clock: real, trace: seq<Event>, key: Key)
    requires c.Valid() && IsTrace(c, values, clock, trace) && WindowFits(values, key, clock)
    requires key in values && Evictions(c, values, trace, key) == 0
    ensures values[key].count <= c.limit ==>
      AllowedIn(c, trace, key, values[key].start) <= c.limit - values[key].count
    ensures values[key].count > c.limit ==> AllowedIn(c, trace, key, values[key].start) == 0
  {
    TraceBudget(c, values, clock, trace, key, values[key].start);
    CreditIsLimitTimesEvictions(c, values, trace, key);
  }

  // ---- size -------------------------------------------------------------------------

  lemma {:induction false} UnexpiredFewer(values: Values, now: real, window: int)
    ensures |Unexpired(values, now, window)| <= |values|
  {
    SubsetCardinality(Unexpired(values, now, window).Keys, values.Keys);
    assert |Unexpired(values, now, window)| == |Unexpired(values, now, window).Keys| && |values| == |values.Keys|;
  }

  lemma {:induction false} RoomySize(live: Values, maxEntries: nat, key: Key, roomy: Values, entry: Entry)
    requires 0 < maxEntries && |live| <= maxEntries && Roomy(live, maxEntries, key, roomy)
    ensures |roomy[key := entry]| <= maxEntries
  {
    if key !in live && |live| >= maxEntries {
      var oldest :| IsOldest(live, oldest) && roomy == live - {oldest};
      KeptPlusRemoved(live, {oldest});
    }
    var after := roomy[key := entry];
    assert after.Keys == roomy.Keys + {key};
    assert |after.Keys| == |roomy.Keys| + (if key in roomy then 0 else 1);
  }

  lemma {:induction false} StepBounded(c: Config, values: Values, e: Event)
    requires c.Valid() && IsStep(c, values, e) && |values| <= c.maxEntries
    ensures |After(c, values, e)| <= c.maxEntries
  {
    UnexpiredFewer(values, e.now, c.window);
    if e.Check? {
      var live := Unexpired(values, e.now, c.window);
      var roomy :| Roomy(live, c.maxEntries, e.key, roomy)
        && e.after == roomy[e.key := Counted(roomy, e.key, e.now, c.window)];
      RoomySize(live, c.maxEntries, e.key, roomy, Counted(roomy, e.key, e.now, c.window));
    }
  }

  lemma {:induction false} StorageBounded(c: Config, values: Values, clock: real, trace: seq<Event>)
    requires c.Valid() && IsTrace(c, values, clock, trace) && |values| <= c.maxEntries
    ensures |Last(c, values, trace)| <= c.maxEntries
    decreases |trace|
  {
    if trace != [] {
      StepBounded(c, values, trace[0]);
      StorageBounded(c, After(c, values, trace[0]), trace[0].now, trace[1..]);
    }
  }

  // ---- when nothing is evicted --------------------------------------------------------

  ghost function KeysOf(trace: seq<Event>): set<Key> {
    set e | e in trace && e.Check? :: e.key
  }

  lemma {:induction false} NoEvictionStep(c: Config, values: Values, e: Event, key: Key, all: set<Key>)
    requires c.Valid() && IsStep(c, values, e)
    requires values.Keys <= all && |all| <= c.maxEntries && (e.Check? ==> e.key in all)
    ensures !Evicts(c, values, e, key) && After(c, values, e).Keys <= all
  {
    if e.Check? {
      var live := Unexpired(values, e.now, c.window);
      var roomy :| Roomy(live, c.maxEntries, e.key, roomy)
        && e.after == roomy[e.key := Counted(roomy, e.key, e.now, c.window)];
      if e.key !in live {
        SubsetCardinality(live.Keys + {e.key}, all);
        assert |live.Keys + {e.key}| == |live.Keys| + 1;
        assert |live| == |live.Keys|;
      }
    }
  }

  // With room for every key that occurs, no key is ever evicted.
  lemma {:induction false} RoomForAllKeys(c: Config, values: Values, clock: real, trace: seq<Event>, key: Key,
                                          all: set<Key>)
    requires c.Valid() && IsTrace(c, values, clock, trace)
    requires values.Keys <= all && KeysOf(trace) <= all && |all| <= c.maxEntries
    ensures Evictions(c, values, trace, key) == 0
    decreases |trace|
  {
    if trace != [] {
      var e, rest := trace[0], trace[1..];
      assert e in trace && forall d :: d in rest ==> d in trace;
      NoEvictionStep(c, values, e, key, all);
      RoomForAllKeys(c, After(c, values, e), e.now, rest, key, all);
    }
  }

  lemma {:induction false} BoundWithRoom(c: Config, clock: real, trace: seq<Event>, key: Key, from: real)
    requires c.Valid() && c.limit > 0 && IsTrace(c, map[], clock, trace) && |KeysOf(trace)| <= c.maxEntries
    ensures AllowedIn(c, trace, key, from) <= 2 * c.limit - 1
  {
    WindowBound(c, clock, trace, key, from);
    RoomForAllKeys(c, map[], clock, trace, key, KeysOf(trace));
  }

  // ---- the retry hint over a trace -------------------------------------------------------

  lemma {:induction false} LastIsLatest(c: Config, values: Values, clock: real, trace: seq<Event>)
    requires IsTrace(c, values, clock, trace) && trace != []
    ensures clock <= trace[0].now <= trace[|trace| - 1].now
    decreases |trace|
  {
    if |trace| > 1 {
      LastIsLatest(c, After(c, values, trace[0]), trace[0].now, trace[1..]);
    }
  }

  // Events that leave the key alone leave its window alone, unless it expires or is evicted;
  // either way it is then gone.
  lemma {:induction false} QuietWindow(c: Config, values: Values, clock: real, trace: seq<Event>, key: Key)
    requires c.Valid() && IsTrace(c, values, clock, trace) && key !in KeysOf(trace)
    ensures var last := Last(c, values, trace);
      && (Window(last, key) == Window(values, key) || key !in last)
      && (Evictions(c, values, trace, key) == 0 && key in values && key !in last ==>
            trace != [] && Expired(values[key], trace[|trace| - 1].now, c.window))
    decreases |trace|
  {
    if trace != [] {
      var e, rest := trace[0], trace[1..];
      assert e in trace && forall d :: d in rest ==> d in trace;
      StepOnWindow(c, values, e, key);
      QuietWindow(c, After(c, values, e), e.now, rest, key);
      LastIsLatest(c, values, clock, trace);
    }
  }

  // A client that stays away for at least the hint gets a fresh window, whatever other clients
  // do meanwhile; unless its window is evicted, a shorter stay does not get one.
  lemma {:induction false} RetryOpensFreshWindow(c: Config, values: Values, now: real, between: seq<Event>, key: Key,
                                                 d: int, retry: Event)
    requires c.Valid() && d >= 1 && key in values && !Expired(values[key], now, c.window) && values[key].count > 0
    requires IsTrace(c, values, now, between) && key !in KeysOf(between)
    requires between != [] ==> between[|between| - 1].now <= now + d as real
    requires retry.Check? && retry.key == key && retry.now == now + d as real
    requires IsStep(c, Last(c, values, between), retry)
    ensures key in retry.after
    ensures d >= Decide(values[key], now, c.limit, c.window).retryAfter ==> retry.after[key].count == 1
    ensures Evictions(c, values, between, key) == 0 ==>
      (retry.after[key].count == 1 <==> d >= Decide(values[key], now, c.limit, c.window).retryAfter)
  {
    QuietWindow(c, values, now, between, key);
    RetryHintIsExact(values[key], now, c.limit, c.window, d);
    StepOnWindow(c, Last(c, values, between), retry, key);
  }

  // ---- the k-th call of a window ---------------------------------------------------------

  ghost function Calls(trace: seq<Event>, key: Key): nat {
    if trace == [] then 0 else (if trace[0].Check? && trace[0].key == key then 1 else 0) + Calls(trace[1..], key)
  }

  // While a window that counts so many stays open, the last of the calls that follow is allowed
  // exactly when all of them fit into the limit.
  lemma {:induction false} CallInOpenWindow(c: Config, values: Values, clock: real, trace: seq<Event>, key: Key,
                                            start: real, count: nat)
    requires c.Valid() && IsTrace(c, values, clock, trace) && Window(values, key) == Some(Entry(start, count))
    requires trace != [] && trace[|trace| - 1].Check? && trace[|trace| - 1].key == key
    requires trace[|trace| - 1].now < start + c.Width() && Evictions(c, values, trace, key) == 0
    ensures trace[|trace| - 1].answer.allowed <==> count + Calls(trace, key) <= c.limit
    decreases |trace|
  {
    var e, rest := trace[0], trace[1..];
    StepOnWindow(c, values, e, key);
    LastIsLatest(c, values, clock, trace);
    if rest != [] {
      var more := if e.Check? && e.key == key then count + 1 else count;
      CallInOpenWindow(c, After(c, values, e), e.now, rest, key, start, more);
    } else {
      assert Calls(rest, key) == 0;
    }
  }

  // The k-th call in one window is allowed exactly when k is at most the limit, whatever other
  // keys do.
  lemma {:induction false} KthCallOfWindow(c: Config, values: Values, clock: real, trace: seq<Event>, key: Key)
    requires c.Valid() && IsTrace(c, values, clock, trace) && Evictions(c, values, trace, key) == 0
    requires trace != [] && trace[0].Check? && trace[0].key == key
    requires key in values ==> trace[0].now >= values[key].start + c.Width()
    requires trace[|trace| - 1].Check? && trace[|trace| - 1].key == key
    requires trace[|trace| - 1].now < trace[0].now + c.Width()
    ensures trace[|trace| - 1].answer.allowed <==> Calls(trace, key) <= c.limit
  {
    var e, rest := trace[0], trace[1..];
    StepOnWindow(c, values, e, key);
    if rest != [] {
      CallInOpenWindow(c, After(c, values, e), e.now, rest, key, e.now, 1);
    } else {
      assert Calls(rest, key) == 0;
    }
  }

  // ---- the bound is sharp ------------------------------------------------------------

  // The check of `key` that leaves these values behind, with its answer.
  ghost function Answered(c: Config, key: Key, now: real, after: Values): Event
    requires key in after
  {
    Check(key, now, after, Decide(after[key], now, c.limit, c.window))
  }

  ghost function Only(key: Key, start: real, count: nat): Values {
    map[key := Entry(start, count)]
  }

  // n checks at one moment, inside a window that already counts `count`, then the rest.
  ghost function Burst(c: Config, key: Key, start: real, count: nat, now: real, n: nat, rest: seq<Event>): seq<Event>
    decreases n
  {
    if n == 0 then rest
    else [Answered(c, key, now, Only(key, start, count + 1))] + Burst(c, key, start, count + 1, now, n - 1, rest)
  }

  lemma {:induction false} LoneKeyStep(c: Config, key: Key, start: real, count: nat, now: real)
    requires c.Valid()
    ensures now - start < c.Width() ==>
      Incremented(Only(key, start, count), c.maxEntries, key, now, c.window, Only(key, start, count + 1))
    ensures now - start >= c.Width() ==>
      Incremented(Only(key, start, count), c.maxEntries, key, now, c.window, Only(key, now, 1))
    ensures Incremented(map[], c.maxEntries, key, now, c.window, Only(key, now, 1))
  {
    var live := Unexpired(Only(key, start, count), now, c.window);
    if now - start < c.Width() {
      assert live == Only(key, start, count);
    } else {
      assert live == map[];
    }
    assert Roomy(live, c.maxEntries, key, live);
    assert live[key := Counted(live, key, now, c.window)]
        == if now - start < c.Width() then Only(key, start, count + 1) else Only(key, now, 1);
    var none := Unexpired(map[], now, c.window);
    assert none == map[];
    assert Roomy(none, c.maxEntries, key, none);
    assert none[key := Counted(none, key, now, c.window)] == Only(key, now, 1);
  }

  // One check in front of a trace.
  lemma {:induction false} TraceCons(c: Config, values: Values, clock: real, checked: Key, now: real, after: Values,
                                     rest: seq<Event>, key: Key, from: real, counted: bool, others: nat)
    requires clock <= now && Incremented(values, c.maxEntries, checked, now, c.window, after) && checked in after
    requires IsTrace(c, after, now, rest) && AllowedIn(c, rest, key, from) == others
    requires counted <==> Counts(c, Answered(c, checked, now, after), key, from)
    ensures var trace := [Answered(c, checked, now, after)] + rest;
      IsTrace(c, values, clock, trace) && AllowedIn(c, trace, key, from) == if counted then others + 1 else others
  {
    assert ([Answered(c, checked, now, after)] + rest)[1..] == rest;
    DecideAnswers(after[checked], now, c.limit, c.window);
  }

  // A trace from these values with so many allowed checks of the key.
  ghost predicate Allows(c: Config, values: Values, clock: real, trace: seq<Event>, key: Key, from: real, total: nat) {
    IsTrace(c, values, clock, trace) && AllowedIn(c, trace, key, from) == total
  }

  lemma {:induction false} OneMoreCounts(c: Config, key: Key, start: real, count: nat, now: real, rest: seq<Event>,
                                         from: real, total: nat)
    requires c.Valid() && count < c.limit && now - start < c.Width() && from <= now < from + c.Width()
    requires Allows(c, Only(key, start, count + 1), now, rest, key, from, total)
    ensures Allows(c, Only(key, start, count), now, [Answered(c, key, now, Only(key, start, count + 1))] + rest, key,
                   from, total + 1)
  {
    LoneKeyStep(c, key, start, count, now);
    TraceCons(c, Only(key, start, count), now, key, now, Only(key, start, count + 1), rest, key, from, true, total);
  }

  lemma {:induction false} BurstCounts(c: Config, key: Key, start: real, count: nat, now: real, n: nat,
                                       rest: seq<Event>, from: real, last: nat, total: nat)
    requires c.Valid() && last == count + n <= c.limit && now - start < c.Width()
    requires from <= now < from + c.Width()
    requires Allows(c, Only(key, start, last), now, rest, key, from, total)
    ensures Allows(c, Only(key, start, count), now, Burst(c, key, start, count, now, n, rest), key, from, n + total)
    decreases n
  {
    if n > 0 {
      var more := Burst(c, key, start, count + 1, now, n - 1, rest);
      BurstCounts(c, key, start, count + 1, now, n - 1, rest, from, last, total);
      OneMoreCounts(c, key, start, count, now, more, from, n - 1 + total);
    }
  }

  // The window reopens and takes `limit` checks at once.
  ghost function Reopening(c: Config, key: Key): seq<Event>
    requires c.limit > 0
  {
    var next := c.Width();
    [Answered(c, key, next, Only(key, next, 1))] + Burst(c, key, next, 1, next, c.limit - 1, [])
  }

  lemma {:induction false} ReopeningCounts(c: Config, key: Key, from: real)
    requires c.Valid() && c.limit > 0 && from == c.Width() / 2.0
    ensures IsTrace(c, Only(key, 0.0, c.limit), from, Reopening(c, key))
    ensures AllowedIn(c, Reopening(c, key), key, from) == c.limit
  {
    var next := c.Width();
    var second := Burst(c, key, next, 1, next, c.limit - 1, []);
    BurstCounts(c, key, next, 1, next, c.limit - 1, [], from, c.limit, 0);
    LoneKeyStep(c, key, 0.0, c.limit, next);
    TraceCons(c, Only(key, 0.0, c.limit), from, key, next, Only(key, next, 1), second, key, from, true, c.limit - 1);
  }

  lemma {:induction false} BurstCountsTail(c: Config, key: Key, from: real, tail: seq<Event>)
    requires c.Valid() && c.limit > 0 && from == c.Width() / 2.0
    requires IsTrace(c, Only(key, 0.0, c.limit), from, tail)
    ensures IsTrace(c, Only(key, 0.0, 1), from, Burst(c, key, 0.0, 1, from, c.limit - 1, tail))
    ensures AllowedIn(c, Burst(c, key, 0.0, 1, from, c.limit - 1, tail), key, from)
         == c.limit - 1 + AllowedIn(c, tail, key, from)
  {
    BurstCounts(c, key, 0.0, 1, from, c.limit - 1, tail, from, c.limit, AllowedIn(c, tail, key, from));
  }

  lemma {:induction false} EarlierClock(c: Config, values: Values, earlier: real, clock: real, trace: seq<Event>)
    requires IsTrace(c, values, clock, trace) && earlier <= clock
    ensures IsTrace(c, values, earlier, trace)
  {
  }

  lemma {:induction false} BurstKeys(c: Config, key: Key, start: real, count: nat, now: real, n: nat, rest: seq<Event>)
    requires forall e :: e in rest && e.Check? ==> e.key == key
    ensures forall e :: e in Burst(c, key, start, count, now, n, rest) && e.Check? ==> e.key == key
    decreases n
  {
    if n > 0 {
      BurstKeys(c, key, start, count + 1, now, n - 1, rest);
    }
  }

  lemma {:induction false} SharpKeys(c: Config, key: Key, from: real, first: Event)
    requires c.limit > 0 && first.Check? && first.key == key
    ensures KeysOf([first] + Burst(c, key, 0.0, 1, from, c.limit - 1, Reopening(c, key))) <= {key}
  {
    var next := c.Width();
    BurstKeys(c, key, next, 1, next, c.limit - 1, []);
    BurstKeys(c, key, 0.0, 1, from, c.limit - 1, Reopening(c, key));
  }

  // The bound is reached: one check, limit - 1 more half a window later, and limit when the
  // next window opens are all allowed, the last 2 * limit - 1 within one window length.
  lemma {:induction false} WindowBoundIsSharp(c: Config, key: Key) returns (trace: seq<Event>, from: real)
    requires c.Valid() && c.limit > 0
    ensures IsTrace(c, map[], 0.0, trace) && KeysOf(trace) <= {key}
    ensures AllowedIn(c, trace, key, from) == 2 * c.limit - 1
  {
    from := c.Width() / 2.0;
    var tail := Reopening(c, key);
    ReopeningCounts(c, key, from);
    BurstCountsTail(c, key, from, tail);
    var middle := Burst(c, key, 0.0, 1, from, c.limit - 1, tail);
    var first := Answered(c, key, 0.0, Only(key, 0.0, 1));
    LoneKeyStep(c, key, 0.0, 0, 0.0);
    EarlierClock(c, Only(key, 0.0, 1), 0.0, from, middle);
    TraceCons(c, map[], 0.0, key, 0.0, Only(key, 0.0, 1), middle, key, from, false, 2 * c.limit - 1);
    trace := [first] + middle;
    SharpKeys(c, key, from, first);
  }
}
