// The fixed-window rate limiter: per-key counters with expiry and oldest-first eviction.
module RateLimiter {
  import opened Common
  import Rounding

  type Key = string

  datatype Entry = Entry(start: real, count: nat)

  type Values = map<Key, Entry>

  datatype Decision = Decision(allowed: bool, retryAfter: int, remaining: nat)

  predicate Expired(entry: Entry, now: real, window: int) {
    now - entry.start >= window as real
  }

  // ---- the order that picks the entry to evict ----------------------------------

  predicate TextLeq(a: string, b: string) {
    a == "" || (b != "" && (a[0] < b[0] || (a[0] == b[0] && TextLeq(a[1..], b[1..]))))
  }

  lemma {:induction false} TextTotal(a: string, b: string)
    ensures TextLeq(a, b) || TextLeq(b, a)
    ensures TextLeq(a, b) && TextLeq(b, a) ==> a == b
  {
    if a != "" && b != "" && a[0] == b[0] {
      TextTotal(a[1..], b[1..]);
      assert a == [a[0]] + a[1..] && b == [b[0]] + b[1..];
    }
  }

  lemma {:induction false} TextTransitive(a: string, b: string, c: string)
    requires TextLeq(a, b) && TextLeq(b, c)
    ensures TextLeq(a, c)
  {
    if a != "" && a[0] == b[0] && b[0] == c[0] {
      TextTransitive(a[1..], b[1..], c[1..]);
    }
  }

  // The order of texts: they agree up to some place, where the first ends or goes on lower.
  ghost predicate LowerAt(a: string, b: string, k: nat) {
    k <= |a| && k <= |b| && a[..k] == b[..k] && (k == |a| || (k < |b| && a[k] < b[k]))
  }

  ghost predicate Precedes(a: string, b: string) {
    exists k: nat :: LowerAt(a, b, k)
  }

  lemma {:induction false} LowerInTail(a: string, b: string, k: nat)
    requires a != "" && b != "" && a[0] == b[0]
    ensures var next := k + 1; LowerAt(a, b, next) <==> LowerAt(a[1..], b[1..], k)
  {
    if k < |a| && k < |b| {
      assert a[..k + 1] == [a[0]] + a[1..][..k];
      assert b[..k + 1] == [b[0]] + b[1..][..k];
    }
  }

  lemma {:induction false} HeadsDiffer(a: string, b: string, k: nat)
    ensures a != "" && b != "" && a[0] != b[0] && 0 < k <= |a| && k <= |b| ==> a[..k] != b[..k]
  {
    if a != "" && b != "" && 0 < k <= |a| && k <= |b| {
      assert a[..k][0] == a[0] && b[..k][0] == b[0];
    }
  }

  lemma {:induction false} TextLeqIsLexicographic(a: string, b: string)
    ensures TextLeq(a, b) <==> Precedes(a, b)
  {
    if a == "" || b == "" || a[0] != b[0] {
      if TextLeq(a, b) {
        assert LowerAt(a, b, 0);
      }
      if k: nat :| LowerAt(a, b, k) {
        HeadsDiffer(a, b, k);
      }
    } else {
      TextLeqIsLexicographic(a[1..], b[1..]);
      if k: nat :| LowerAt(a[1..], b[1..], k) {
        LowerInTail(a, b, k);
      }
      if k: nat :| LowerAt(a, b, k) {
        if k > 0 {
          LowerInTail(a, b, k - 1);
        }
      }
    }
  }

  predicate Older(values: Values, a: Key, b: Key)
    requires a in values && b in values
  {
    || values[a].start < values[b].start
    || (values[a].start == values[b].start && TextLeq(a, b))
  }

  ghost predicate IsOldest(values: Values, key: Key) {
    key in values && forall other :: other in values ==> Older(values, key, other)
  }

  lemma {:induction false} OldestUnique(values: Values, a: Key, b: Key)
    requires IsOldest(values, a) && IsOldest(values, b)
    ensures a == b
  {
    assert Older(values, a, b) && Older(values, b, a);
    TextTotal(a, b);
  }

  // min(values, key=(start, key))
  method FindOldest(values: Values) returns (oldest: Key)
    requires values != map[]
    ensures IsOldest(values, oldest)
  {
    oldest :| oldest in values;
    var left := values.Keys;
    while left != {}
      invariant left <= values.Keys && oldest in values
      invariant forall other :: other in values && other !in left ==> Older(values, oldest, other)
      decreases left
    {
      var key :| key in left;
      left := left - {key};
      ghost var was := oldest;
      if !Older(values, oldest, key) {
        oldest := key;
      }
      forall other | other in values && other !in left ensures Older(values, oldest, other) {
        TextTotal(key, was);
        TextTotal(key, key);
        if other != key && oldest == key && TextLeq(key, was) && TextLeq(was, other) {
          TextTransitive(key, was, other);
        }
      }
    }
  }

  // ---- what each locked section computes ------------------------------------------

  ghost function Unexpired(values: Values, now: real, window: int): Values {
    map key | key in values && !Expired(values[key], now, window) :: values[key]
  }

  // What the storage holds when a new key has claimed its place.
  ghost predicate Roomy(live: Values, maxEntries: nat, key: Key, roomy: Values) {
    if key !in live && |live| >= maxEntries
    then exists oldest :: IsOldest(live, oldest) && roomy == live - {oldest}
    else roomy == live
  }

  function Counted(roomy: Values, key: Key, now: real, window: int): Entry {
    var entry := if key in roomy then roomy[key] else Entry(now, 0);
    var current := if Expired(entry, now, window) then Entry(now, 0) else entry;
    Entry(current.start, current.count + 1)
  }

  // One increment, as a relation between the stored values before and after.
  ghost predicate Incremented(before: Values, maxEntries: nat, key: Key, now: real, window: int, after: Values) {
    exists roomy ::
      && Roomy(Unexpired(before, now, window), maxEntries, key, roomy)
      && after == roomy[key := Counted(roomy, key, now, window)]
  }

  // ---- the same, written out -------------------------------------------------------

  // The windows that are still open.
  ghost function StillOpen(values: Values, now: real, window: int): Values {
    map key | key in values && now - values[key].start < window as real :: values[key]
  }

  // The window that opened first, by the order of the keys among those that opened together.
  ghost predicate OpenedFirst(values: Values, key: Key) {
    && key in values
    && forall other :: other in values ==>
         || values[key].start < values[other].start
         || (values[key].start == values[other].start && Precedes(key, other))
  }

  // A check counts in the open window of its key or opens one; for a new window in a full
  // storage, and only then, the one that opened first goes.
  ghost predicate Accounts(before: Values, maxEntries: nat, key: Key, now: real, window: int, after: Values) {
    var live := StillOpen(before, now, window);
    var entry := if key in live then Entry(live[key].start, live[key].count + 1) else Entry(now, 1);
    if key in live || |live| < maxEntries then after == live[key := entry]
    else exists oldest :: OpenedFirst(live, oldest) && after == (live - {oldest})[key := entry]
  }

  lemma {:induction false} OldestOpenedFirst(values: Values, key: Key)
    ensures IsOldest(values, key) <==> OpenedFirst(values, key)
  {
    forall other | key in values && other in values ensures TextLeq(key, other) <==> Precedes(key, other) {
      TextLeqIsLexicographic(key, other);
    }
  }

  lemma {:induction false} IncrementedMeans(before: Values, maxEntries: nat, key: Key, now: real, window: int,
                                            after: Values)
    ensures Incremented(before, maxEntries, key, now, window, after)
       <==> Accounts(before, maxEntries, key, now, window, after)
  {
    var live := StillOpen(before, now, window);
    assert live == Unexpired(before, now, window);
    if key in live || |live| < maxEntries {
      assert Roomy(live, maxEntries, key, live);
    } else {
      forall oldest ensures IsOldest(live, oldest) <==> OpenedFirst(live, oldest) {
        OldestOpenedFirst(live, oldest);
      }
      forall oldest | OpenedFirst(live, oldest) ensures Roomy(live, maxEntries, key, live - {oldest}) {
      }
    }
  }

  function Ceil(x: real): int {
    -Rounding.Floor(-x)
  }

  function Decide(entry: Entry, now: real, limit: nat, window: int): Decision {
    var wait := Ceil(window as real - (now - entry.start));
    Decision(entry.count <= limit, if wait < 1 then 1 else wait,
             if entry.count <= limit then limit - entry.count else 0)
  }

  ghost predicate WaitOpens(entry: Entry, now: real, window: int, d: int) {
    now + d as real - entry.start >= window as real
  }

  // The answer to a check whose window now holds `entry`: allowed up to the limit, what is left
  // of it, and the least whole number of seconds, at least one, after which the window is over.
  ghost predicate Answers(decision: Decision, entry: Entry, now: real, limit: nat, window: int) {
    && (decision.allowed <==> entry.count <= limit)
    && decision.remaining == (if entry.count < limit then limit - entry.count else 0)
    && decision.retryAfter >= 1
    && forall d :: d >= 1 ==> (WaitOpens(entry, now, window, d) <==> d >= decision.retryAfter)
  }

  lemma {:induction false} WaitAtLeast(x: real, d: int)
    ensures d as real >= x <==> d >= Ceil(x)
  {
    assert Ceil(x) as real - 1.0 < x <= Ceil(x) as real;
    if d < Ceil(x) {
      assert d as real <= Ceil(x) as real - 1.0;
    }
  }

  lemma {:induction false} DecideAnswers(entry: Entry, now: real, limit: nat, window: int)
    ensures Answers(Decide(entry, now, limit, window), entry, now, limit, window)
  {
    var hint := Decide(entry, now, limit, window).retryAfter;
    forall d | d >= 1 ensures WaitOpens(entry, now, window, d) <==> d >= hint {
      WaitAtLeast(window as real - (now - entry.start), d);
    }
  }

  // ---- the storage and the limiter --------------------------------------------------

  class Storage {
    const maxEntries: nat
    var values: Values

    ghost predicate Valid()
      reads this
    {
      maxEntries > 0 && |values| <= maxEntries
    }

    constructor (maxEntries: nat)
      requires maxEntries > 0
      ensures Valid() && this.maxEntries == maxEntries && values == map[]
    {
      this.maxEntries := maxEntries;
      values := map[];
    }

    method Cleanup(now: real, window: int) returns (removed: nat)
      modifies this`values
      ensures values == Unexpired(old(values), now, window)
      ensures removed + |values| == |old(values)|
    {
      var expired := set key | key in values && Expired(values[key], now, window);
      removed := |expired|;
      var left := expired;
      while left != {}
        invariant left <= expired && values == old(values) - (expired - left)
        decreases left
      {
        var key :| key in left;
        left := left - {key};
        values := values - {key};
      }
      assert expired - left == expired;
      assert values == Unexpired(old(values), now, window);
      KeptPlusRemoved(old(values), expired);
    }

    // The storage never outgrows its bound, whatever is evicted.
    method Increment(key: Key, now: real, window: int) returns (entry: Entry)
      requires Valid()
      modifies this`values
      ensures Valid()
      ensures Incremented(old(values), maxEntries, key, now, window, values)
      ensures Accounts(old(values), maxEntries, key, now, window, values)
      ensures key in values && entry == values[key]
    {
      var _ := Cleanup(now, window);
      ghost var live := values;
      if key !in values && |values| >= maxEntries {
        var oldest := FindOldest(values);
        KeptPlusRemoved(values, {oldest});
        values := values - {oldest};
      }
      ghost var roomy := values;
      assert Roomy(live, maxEntries, key, roomy);
      entry := Counted(values, key, now, window);
      values := values[key := entry];
      assert values.Keys == roomy.Keys + {key};
      assert |values.Keys| <= |roomy.Keys| + 1;
      IncrementedMeans(old(values), maxEntries, key, now, window, values);
    }
  }

  method Check(storage: Storage, key: Key, now: real, limit: nat, window: int) returns (decision: Decision)
    requires storage.Valid()
    modifies storage`values
    ensures storage.Valid() && key in storage.values
    ensures Incremented(old(storage.values), storage.maxEntries, key, now, window, storage.values)
    ensures Accounts(old(storage.values), storage.maxEntries, key, now, window, storage.values)
    ensures decision == Decide(storage.values[key], now, limit, window)
    ensures Answers(decision, storage.values[key], now, limit, window)
  {
    var entry := storage.Increment(key, now, window);
    DecideAnswers(entry, now, limit, window);
    decision := Decide(entry, now, limit, window);
  }

  // ---- the retry hint -------------------------------------------------------------

  // Waiting d whole seconds opens a fresh window exactly when d is at least the hint.
  lemma {:induction false} RetryHintIsExact(entry: Entry, now: real, limit: nat, window: int, d: int)
    requires !Expired(entry, now, window) && d >= 1
    ensures Expired(entry, now + d as real, window) <==> d >= Decide(entry, now, limit, window).retryAfter
  {
    WaitAtLeast(window as real - (now - entry.start), d);
  }
}
