// How much room the bound on allowed checks needs: with one key more than the storage holds,
// keys that take turns evict one another, and every check of theirs is allowed.
module RateLimitRoom {
  import opened Common
  import opened RateLimiter
  import opened RateLimitTrace
  import Sorting

  // One key more than there is room for.
  ghost predicate OneTooMany(c: Config, keys: seq<Key>) {
    |keys| == c.maxEntries + 1 && Sorting.Distinct(keys)
  }

  // The moment of the check of slot r in round q.
  type Timing = (nat, nat) -> real

  // The moments rise from slot to slot and from round to round, all inside one window length.
  ghost predicate Rising(c: Config, time: Timing, from: real, n: nat) {
    && (forall q: nat, r: nat :: q < n && r <= c.maxEntries ==> from <= time(q, r) < from + c.Width())
    && (forall q: nat, r: nat, p: nat, x: nat :: q < p < n && r <= c.maxEntries && x <= c.maxEntries ==>
          time(q, r) < time(p, x))
    && (forall q: nat, r: nat, x: nat :: q < n && r < x <= c.maxEntries ==> time(q, r) < time(q, x))
  }

  // Before slot r of round q the storage holds the slots already checked in this round and,
  // from the second round on, those after slot r from the round before.
  ghost predicate IsHeld(keys: seq<Key>, q: nat, r: nat, x: nat) {
    x < |keys| && x != r && (x < r || q > 0)
  }

  ghost function RoundOf(q: nat, r: nat, x: nat): nat
    requires x < r || q > 0
  {
    if x < r then q else q - 1
  }

  ghost function SlotOf(keys: seq<Key>, key: Key): (x: nat)
    requires key in keys
    ensures x < |keys| && keys[x] == key
  {
    var x: nat :| x < |keys| && keys[x] == key;
    x
  }

  // Slots in the storage have distinct keys, so each entry is the one of its slot.
  ghost function Held(keys: seq<Key>, time: Timing, q: nat, r: nat): Values {
    map key | key in keys && IsHeld(keys, q, r, SlotOf(keys, key)) ::
      Entry(time(RoundOf(q, r, SlotOf(keys, key)), SlotOf(keys, key)), 1)
  }

  lemma {:induction false} SlotIs(keys: seq<Key>, x: nat)
    requires Sorting.Distinct(keys) && x < |keys|
    ensures SlotOf(keys, keys[x]) == x
  {
    var y := SlotOf(keys, keys[x]);
    assert keys[x] == keys[y];
  }

  lemma {:induction false} HeldAt(keys: seq<Key>, time: Timing, q: nat, r: nat, x: nat)
    requires Sorting.Distinct(keys) && x < |keys|
    ensures keys[x] in Held(keys, time, q, r) <==> IsHeld(keys, q, r, x)
    ensures IsHeld(keys, q, r, x) ==> Held(keys, time, q, r)[keys[x]] == Entry(time(RoundOf(q, r, x), x), 1)
  {
    SlotIs(keys, x);
  }

  // ---- one check of the rotation ----------------------------------------------------------

  ghost function Slots(keys: seq<Key>, q: nat, r: nat): (slots: set<nat>)
    requires r < |keys|
    ensures forall x :: x in slots <==> IsHeld(keys, q, r, x)
    ensures |slots| == if q == 0 then r else |keys| - 1
  {
    if q == 0 then Below(r) else Below(|keys|) - {r}
  }

  lemma {:induction false} HeldSize(keys: seq<Key>, time: Timing, q: nat, r: nat)
    requires Sorting.Distinct(keys) && r < |keys|
    ensures |Held(keys, time, q, r)| == if q == 0 then r else |keys| - 1
  {
    var held, slots := Held(keys, time, q, r), Slots(keys, q, r);
    var keyAt := (x: nat) => if x < |keys| then keys[x] else [];
    InjectiveImage(keyAt, slots);
    forall key ensures key in held.Keys <==> key in Image(keyAt, slots) {
      if key in held {
        assert keyAt(SlotOf(keys, key)) == key;
      }
      if key in Image(keyAt, slots) {
        var x :| x in slots && keyAt(x) == key;
        HeldAt(keys, time, q, r, x);
      }
    }
    assert held.Keys == Image(keyAt, slots);
    assert |held| == |held.Keys|;
  }

  lemma {:induction false} SlotIsRecent(c: Config, time: Timing, from: real, n: nat, q: nat, r: nat, x: nat)
    requires Rising(c, time, from, n) && q < n && r <= c.maxEntries && x <= c.maxEntries && (x < r || q > 0)
    ensures time(q, r) - time(RoundOf(q, r, x), x) < c.Width()
  {
    assert from <= time(RoundOf(q, r, x), x);
  }

  lemma {:induction false} NothingExpires(c: Config, keys: seq<Key>, time: Timing, from: real, n: nat, q: nat, r: nat)
    requires c.Valid() && OneTooMany(c, keys) && Rising(c, time, from, n) && q < n && r <= c.maxEntries
    ensures Unexpired(Held(keys, time, q, r), time(q, r), c.window) == Held(keys, time, q, r)
  {
    var held := Held(keys, time, q, r);
    forall key | key in held ensures !Expired(held[key], time(q, r), c.window) {
      SlotIsRecent(c, time, from, n, q, r, SlotOf(keys, key));
    }
  }

  // The slot checked next is the one whose turn lies furthest back.
  ghost function NextSlot(c: Config, r: nat): nat {
    if r == c.maxEntries then 0 else r + 1
  }

  ghost function NextRound(c: Config, q: nat, r: nat): nat {
    if r == c.maxEntries then q + 1 else q
  }

  lemma {:induction false} NextSlotIsOldest(c: Config, keys: seq<Key>, time: Timing, from: real, n: nat, q: nat, r: nat)
    requires c.Valid() && OneTooMany(c, keys) && Rising(c, time, from, n) && q < n && r <= c.maxEntries
    requires q > 0 || r == c.maxEntries
    ensures IsOldest(Held(keys, time, q, r), keys[NextSlot(c, r)])
  {
    var held, next := Held(keys, time, q, r), NextSlot(c, r);
    HeldAt(keys, time, q, r, next);
    forall other | other in held ensures Older(held, keys[next], other) {
      var x := SlotOf(keys, other);
      HeldAt(keys, time, q, r, x);
      if x == next {
        TextTotal(other, other);
      } else {
        assert time(RoundOf(q, r, next), next) < time(RoundOf(q, r, x), x);
      }
    }
  }

  ghost predicate AgreeOn(a: Values, b: Values, key: Key) {
    (key in a <==> key in b) && (key in a && key in b ==> a[key] == b[key])
  }

  lemma {:induction false} SameOver(keys: seq<Key>, a: Values, b: Values)
    requires forall key :: key in a || key in b ==> key in keys
    requires forall x: nat :: x < |keys| ==> AgreeOn(a, b, keys[x])
    ensures a == b
  {
    forall key | key in a || key in b ensures AgreeOn(a, b, key) {
      var x: nat :| x < |keys| && keys[x] == key;
    }
  }

  lemma {:induction false} SameSlot(keys: seq<Key>, x: nat, y: nat)
    requires Sorting.Distinct(keys) && x < |keys| && y < |keys|
    ensures keys[x] == keys[y] <==> x == y
  {
  }

  lemma {:induction false} HeldNextAt(c: Config, keys: seq<Key>, time: Timing, q: nat, r: nat, roomy: Values, x: nat)
    requires OneTooMany(c, keys) && c.Valid() && r <= c.maxEntries && x < |keys|
    requires roomy == if q > 0 || r == c.maxEntries then Held(keys, time, q, r) - {keys[NextSlot(c, r)]}
                      else Held(keys, time, q, r)
    ensures AgreeOn(roomy[keys[r] := Entry(time(q, r), 1)], Held(keys, time, NextRound(c, q, r), NextSlot(c, r)),
                    keys[x])
  {
    HeldAt(keys, time, q, r, x);
    HeldAt(keys, time, NextRound(c, q, r), NextSlot(c, r), x);
    SameSlot(keys, x, r);
    SameSlot(keys, x, NextSlot(c, r));
  }

  // What remains after the eviction, with the checked key added, is what the next slot finds.
  lemma {:induction false} HeldNext(c: Config, keys: seq<Key>, time: Timing, q: nat, r: nat, roomy: Values)
    requires OneTooMany(c, keys) && c.Valid() && r <= c.maxEntries
    requires roomy == if q > 0 || r == c.maxEntries then Held(keys, time, q, r) - {keys[NextSlot(c, r)]}
                      else Held(keys, time, q, r)
    ensures roomy[keys[r] := Entry(time(q, r), 1)] == Held(keys, time, NextRound(c, q, r), NextSlot(c, r))
  {
    var after, next := roomy[keys[r] := Entry(time(q, r), 1)], Held(keys, time, NextRound(c, q, r), NextSlot(c, r));
    forall x: nat | x < |keys| ensures AgreeOn(after, next, keys[x]) {
      HeldNextAt(c, keys, time, q, r, roomy, x);
    }
    SameOver(keys, after, next);
  }

  lemma {:induction false} TurnIsStep(c: Config, keys: seq<Key>, time: Timing, from: real, n: nat, q: nat, r: nat)
    requires c.Valid() && OneTooMany(c, keys) && Rising(c, time, from, n) && q < n && r <= c.maxEntries
    ensures Incremented(Held(keys, time, q, r), c.maxEntries, keys[r], time(q, r), c.window,
                        Held(keys, time, NextRound(c, q, r), NextSlot(c, r)))
  {
    var live, now := Held(keys, time, q, r), time(q, r);
    var roomy := if q > 0 || r == c.maxEntries then live - {keys[NextSlot(c, r)]} else live;
    NothingExpires(c, keys, time, from, n, q, r);
    HeldSize(keys, time, q, r);
    HeldAt(keys, time, q, r, r);
    if q > 0 || r == c.maxEntries {
      NextSlotIsOldest(c, keys, time, from, n, q, r);
    }
    assert Roomy(live, c.maxEntries, keys[r], roomy);
    assert Counted(roomy, keys[r], now, c.window) == Entry(now, 1);
    HeldNext(c, keys, time, q, r, roomy);
  }

  // ---- the whole rotation -------------------------------------------------------------------

  lemma {:induction false} TurnLeavesKey(c: Config, keys: seq<Key>, time: Timing, q: nat, r: nat)
    requires c.Valid() && OneTooMany(c, keys) && r <= c.maxEntries
    ensures var after := Held(keys, time, NextRound(c, q, r), NextSlot(c, r));
      keys[r] in after && after[keys[r]] == Entry(time(q, r), 1)
  {
    HeldAt(keys, time, NextRound(c, q, r), NextSlot(c, r), r);
  }

  ghost function Turn(c: Config, keys: seq<Key>, time: Timing, q: nat, r: nat): Event
    requires c.Valid() && OneTooMany(c, keys) && r <= c.maxEntries
  {
    TurnLeavesKey(c, keys, time, q, r);
    Answered(c, keys[r], time(q, r), Held(keys, time, NextRound(c, q, r), NextSlot(c, r)))
  }

  // The checks from slot r of round q to the end of round n - 1.
  ghost function Rotation(c: Config, keys: seq<Key>, time: Timing, q: nat, r: nat, n: nat): seq<Event>
    requires c.Valid() && OneTooMany(c, keys) && r <= c.maxEntries
    decreases n - q, c.maxEntries - r
  {
    if q >= n then []
    else [Turn(c, keys, time, q, r)] + Rotation(c, keys, time, NextRound(c, q, r), NextSlot(c, r), n)
  }

  lemma {:induction false} TurnCounts(c: Config, keys: seq<Key>, time: Timing, from: real, q: nat, r: nat, n: nat)
    requires c.Valid() && c.limit > 0 && OneTooMany(c, keys) && Rising(c, time, from, n) && q < n && r <= c.maxEntries
    ensures Counts(c, Turn(c, keys, time, q, r), keys[0], from) <==> r == 0
    ensures NextRound(c, q, r) < n ==> time(q, r) <= time(NextRound(c, q, r), NextSlot(c, r))
  {
    TurnLeavesKey(c, keys, time, q, r);
    SameSlot(keys, r, 0);
    DecideAnswers(Entry(time(q, r), 1), time(q, r), c.limit, c.window);
  }

  // How often the first key still gets its turn.
  ghost function TurnsLeft(q: nat, r: nat, n: nat): nat {
    if q >= n then 0 else if r == 0 then n - q else n - q - 1
  }

  lemma {:induction false} TurnsLeftStep(c: Config, q: nat, r: nat, n: nat)
    requires r <= c.maxEntries && q < n && c.Valid()
    ensures TurnsLeft(q, r, n) == TurnsLeft(NextRound(c, q, r), NextSlot(c, r), n) + if r == 0 then 1 else 0
  {
  }

  lemma {:induction false} TurnThenRest(c: Config, keys: seq<Key>, time: Timing, from: real, n: nat, q: nat, r: nat,
                                        clock: real, rest: seq<Event>, others: nat)
    requires c.Valid() && c.limit > 0 && OneTooMany(c, keys) && Rising(c, time, from, n) && q < n && r <= c.maxEntries
    requires clock <= time(q, r)
    requires var after := Held(keys, time, NextRound(c, q, r), NextSlot(c, r));
      IsTrace(c, after, time(q, r), rest) && AllowedIn(c, rest, keys[0], from) == others
    ensures var trace := [Turn(c, keys, time, q, r)] + rest;
      && IsTrace(c, Held(keys, time, q, r), clock, trace)
      && AllowedIn(c, trace, keys[0], from) == if r == 0 then others + 1 else others
  {
    var after := Held(keys, time, NextRound(c, q, r), NextSlot(c, r));
    TurnCounts(c, keys, time, from, q, r, n);
    TurnIsStep(c, keys, time, from, n, q, r);
    TurnLeavesKey(c, keys, time, q, r);
    TraceCons(c, Held(keys, time, q, r), clock, keys[r], time(q, r), after, rest, keys[0], from, r == 0, others);
  }

  lemma {:induction false} RotationIsTrace(c: Config, keys: seq<Key>, time: Timing, from: real, q: nat, r: nat, n: nat,
                                           clock: real)
    requires c.Valid() && c.limit > 0 && OneTooMany(c, keys) && Rising(c, time, from, n) && r <= c.maxEntries
    requires q < n ==> clock <= time(q, r)
    ensures var trace := Rotation(c, keys, time, q, r, n);
      && IsTrace(c, Held(keys, time, q, r), clock, trace)
      && AllowedIn(c, trace, keys[0], from) == TurnsLeft(q, r, n)
    decreases n - q, c.maxEntries - r
  {
    if q < n {
      var p, x := NextRound(c, q, r), NextSlot(c, r);
      var rest := Rotation(c, keys, time, p, x, n);
      TurnsLeftStep(c, q, r, n);
      TurnCounts(c, keys, time, from, q, r, n);
      RotationIsTrace(c, keys, time, from, p, x, n, time(q, r));
      TurnThenRest(c, keys, time, from, n, q, r, clock, rest, TurnsLeft(p, x, n));
    }
  }

  lemma {:induction false} RotationKeys(c: Config, keys: seq<Key>, time: Timing, q: nat, r: nat, n: nat)
    requires c.Valid() && OneTooMany(c, keys) && r <= c.maxEntries
    ensures forall e :: e in Rotation(c, keys, time, q, r, n) && e.Check? ==> e.key in keys
    decreases n - q, c.maxEntries - r
  {
    if q < n {
      RotationKeys(c, keys, time, NextRound(c, q, r), NextSlot(c, r), n);
    }
  }

  // ---- suitable moments --------------------------------------------------------------------

  lemma {:induction false} LaterRoundIsLater(width: nat, q: nat, r: nat, p: nat, x: nat)
    requires q < p && r < width
    ensures q * width + r < p * width + x
  {
    assert (q + 1) * width <= p * width;
  }

  ghost function Spread(width: nat, from: real, step: real): Timing {
    (q: nat, r: nat) => from + Times(q * width + r, step)
  }

  lemma {:induction false} TimesRises(few: nat, many: nat, step: real)
    requires few < many && step > 0.0
    ensures Times(few, step) < Times(many, step)
  {
    TimesMonotone(few + 1, many, step);
  }

  lemma {:induction false} TimesWithin(count: nat, total: nat, width: real)
    requires count < total && width > 0.0
    ensures 0.0 <= Times(count, width / total as real) < width
  {
    var step := width / total as real;
    TimesMonotone(0, count, step);
    TimesRises(count, total, step);
    TimesIsProduct(total, step);
    assert total as real * step == width;
  }

  lemma {:induction false} SpreadRises(c: Config, from: real, n: nat)
    requires c.Valid()
    ensures var width := c.maxEntries + 1;
      Rising(c, Spread(width, from, c.Width() / (n * width + 1) as real), from, n)
  {
    var width := c.maxEntries + 1;
    var total := n * width + 1;
    var step := c.Width() / total as real;
    var time := Spread(width, from, step);
    forall q: nat, r: nat | q < n && r <= c.maxEntries ensures from <= time(q, r) < from + c.Width() {
      LaterRoundIsLater(width, q, r, n, 0);
      TimesWithin(q * width + r, total, c.Width());
    }
    forall q: nat, r: nat, p: nat, x: nat | q < p < n && r <= c.maxEntries && x <= c.maxEntries
      ensures time(q, r) < time(p, x)
    {
      LaterRoundIsLater(width, q, r, p, x);
      TimesRises(q * width + r, p * width + x, step);
    }
    forall q: nat, r: nat, x: nat | q < n && r < x <= c.maxEntries ensures time(q, r) < time(q, x) {
      TimesRises(q * width + r, q * width + x, step);
    }
  }

  // ---- the laws ------------------------------------------------------------------------------

  lemma {:induction false} KeysWithin(trace: seq<Event>, keys: seq<Key>)
    requires forall e :: e in trace && e.Check? ==> e.key in keys
    ensures KeysOf(trace) <= set key | key in keys
  {
  }

  lemma {:induction false} NothingHeldYet(keys: seq<Key>, time: Timing)
    ensures Held(keys, time, 0, 0) == map[]
  {
  }

  lemma {:induction false} RotationInTurn(c: Config, keys: seq<Key>, time: Timing, from: real, n: nat)
    returns (trace: seq<Event>)
    requires c.Valid() && c.limit > 0 && OneTooMany(c, keys) && Rising(c, time, from, n)
    ensures IsTrace(c, map[], from, trace) && KeysOf(trace) <= set key | key in keys
    ensures AllowedIn(c, trace, keys[0], from) == n
  {
    trace := Rotation(c, keys, time, 0, 0, n);
    RotationIsTrace(c, keys, time, from, 0, 0, n, from);
    RotationKeys(c, keys, time, 0, 0, n);
    KeysWithin(trace, keys);
    NothingHeldYet(keys, time);
  }

  // With one key too many, taking turns within one window length, every check of the first
  // key is allowed, however many there are.
  lemma {:induction false} BoundNeedsRoom(c: Config, keys: seq<Key>, from: real, n: nat) returns (trace: seq<Event>)
    requires c.Valid() && c.limit > 0 && OneTooMany(c, keys)
    ensures IsTrace(c, map[], from, trace) && KeysOf(trace) <= set key | key in keys
    ensures AllowedIn(c, trace, keys[0], from) == n
  {
    var width := c.maxEntries + 1;
    var time := Spread(width, from, c.Width() / (n * width + 1) as real);
    SpreadRises(c, from, n);
    trace := RotationInTurn(c, keys, time, from, n);
  }

  // No trace over these keys has an interval one window long with more allowed checks of a
  // key than twice the limit less one.
  ghost predicate BoundHolds(c: Config, all: set<Key>) {
    forall trace, clock, key, from {:trigger IsTrace(c, map[], clock, trace), AllowedIn(c, trace, key, from)} ::
      IsTrace(c, map[], clock, trace) && KeysOf(trace) <= all ==> AllowedIn(c, trace, key, from) <= 2 * c.limit - 1
  }

  lemma {:induction false} PickDistinct(all: set<Key>, n: nat) returns (keys: seq<Key>)
    requires n <= |all|
    ensures |keys| == n && Sorting.Distinct(keys) && forall key :: key in keys ==> key in all
    decreases n
  {
    if n == 0 {
      keys := [];
    } else {
      var key :| key in all;
      var rest := PickDistinct(all - {key}, n - 1);
      keys := [key] + rest;
      forall i, j | 0 <= i < j < |keys| ensures keys[i] != keys[j] {
        assert keys[j] == rest[j - 1] && rest[j - 1] in rest;
        if i > 0 {
          assert keys[i] == rest[i - 1];
        }
      }
    }
  }

  // The bound holds for every trace over a set of keys exactly when they all fit into the
  // storage.
  lemma {:induction false} BoundExactlyWithRoom(c: Config, all: set<Key>)
    requires c.Valid() && c.limit > 0
    ensures BoundHolds(c, all) <==> |all| <= c.maxEntries
  {
    if |all| <= c.maxEntries {
      forall trace, clock, key, from | IsTrace(c, map[], clock, trace) && KeysOf(trace) <= all
        ensures AllowedIn(c, trace, key, from) <= 2 * c.limit - 1
      {
        SubsetCardinality(KeysOf(trace), all);
        BoundWithRoom(c, clock, trace, key, from);
      }
    } else {
      var keys := PickDistinct(all, c.maxEntries + 1);
      var trace := BoundNeedsRoom(c, keys, 0.0, 2 * c.limit);
      assert AllowedIn(c, trace, keys[0], 0.0) > 2 * c.limit - 1;
    }
  }
}
