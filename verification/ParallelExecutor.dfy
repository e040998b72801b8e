// Batch execution, one task after another or on a pool: same items, same order, whatever the
// order of completion.
module ParallelExecutor {
  import opened Common

  type Source = string

  datatype Task = Task(sequence: nat, source: Source)

  // What a worker does with a source. A deterministic worker is a function of the source.
  datatype Reply = Value(product: string) | Raised(error: string)

  datatype Item = Succeeded(source: Source, product: string) | Failed(source: Source, error: string)

  type Worker = Source -> Reply

  // The clock readings, in order: one at the start and one for each notification.
  type Clock = nat -> real

  datatype Progress = Progress(
    completed: nat, total: nat, pending: seq<Source>, finished: Option<Item>, elapsed: real, eta: Option<real>)

  function Schedule(sources: seq<Source>): (r: seq<Task>)
    ensures |r| == |sources| && forall i :: 0 <= i < |r| ==> r[i] == Task(i, sources[i])
  {
    seq(|sources|, i requires 0 <= i < |sources| => Task(i, sources[i]))
  }

  // The item of a source: what the worker returned, or a failure when it raised.
  ghost predicate IsItem(worker: Worker, source: Source, item: Item) {
    match worker(source)
    case Value(product) => item == Succeeded(source, product)
    case Raised(error) => item == Failed(source, error)
  }

  function Execute(worker: Worker, task: Task): (item: Item)
    ensures IsItem(worker, task.source, item)
  {
    match worker(task.source)
    case Value(product) => Succeeded(task.source, product)
    case Raised(error) => Failed(task.source, error)
  }

  // One item per source, in source order.
  ghost function Expected(worker: Worker, sources: seq<Source>): (r: seq<Item>)
    ensures |r| == |sources|
  {
    seq(|sources|, i requires 0 <= i < |sources| => Execute(worker, Task(i, sources[i])))
  }

  // ---- pending tasks and progress -------------------------------------------------------

  // The first k tasks that are not done, in task order.
  function Pending(tasks: seq<Task>, outcomes: map<nat, Item>, k: nat): seq<Source>
    requires k <= |tasks|
  {
    if k == 0 then []
    else if tasks[k - 1].sequence in outcomes then Pending(tasks, outcomes, k - 1)
    else Pending(tasks, outcomes, k - 1) + [tasks[k - 1].source]
  }

  ghost function DoneBelow(outcomes: map<nat, Item>, k: nat): set<nat> {
    set d | d in outcomes && d < k
  }

  lemma {:induction false} PendingAndDone(sources: seq<Source>, outcomes: map<nat, Item>, k: nat)
    requires k <= |sources|
    ensures |Pending(Schedule(sources), outcomes, k)| + |DoneBelow(outcomes, k)| == k
  {
    if k == 0 {
      assert DoneBelow(outcomes, 0) == {};
    } else {
      PendingAndDone(sources, outcomes, k - 1);
      if k - 1 in outcomes {
        assert DoneBelow(outcomes, k) == DoneBelow(outcomes, k - 1) + {k - 1};
      } else {
        assert DoneBelow(outcomes, k) == DoneBelow(outcomes, k - 1);
      }
    }
  }

  lemma {:induction false} PendingCount(sources: seq<Source>, outcomes: map<nat, Item>)
    requires forall d :: d in outcomes ==> d < |sources|
    ensures |Pending(Schedule(sources), outcomes, |sources|)| + |outcomes| == |sources|
  {
    PendingAndDone(sources, outcomes, |sources|);
    assert DoneBelow(outcomes, |sources|) == outcomes.Keys;
  }

  ghost predicate Ascending(keys: seq<nat>, s: set<nat>) {
    && (forall x :: x in keys <==> x in s)
    && (forall i, j :: 0 <= i < j < |keys| ==> keys[i] < keys[j])
  }

  ghost predicate Picks(sources: seq<Source>, indices: seq<nat>, picked: seq<Source>) {
    && |picked| == |indices|
    && forall i :: 0 <= i < |indices| ==> indices[i] < |sources| && picked[i] == sources[indices[i]]
  }

  // The pending list names exactly the sources that are not done, in ascending order of task.
  ghost predicate LeftOver(sources: seq<Source>, done: set<nat>, pending: seq<Source>) {
    exists left: seq<nat> :: Ascending(left, Below(|sources|) - done) && Picks(sources, left, pending)
  }

  lemma {:induction false} LeftGrows(left: seq<nat>, done: set<nat>, k: nat)
    requires Ascending(left, Below(k) - done)
    ensures Ascending(if k in done then left else left + [k], Below(k + 1) - done)
  {
    var more := if k in done then left else left + [k];
    assert forall i :: 0 <= i < |left| ==> left[i] in left;
    forall x ensures x in more <==> x in Below(k + 1) - done {
      assert x in left <==> x in Below(k) - done;
    }
  }

  // The tasks before k that are not done.
  ghost function LeftIndices(done: set<nat>, k: nat): (r: seq<nat>)
    ensures Ascending(r, Below(k) - done)
  {
    if k == 0 then []
    else
      var before := LeftIndices(done, k - 1);
      LeftGrows(before, done, k - 1);
      if k - 1 in done then before else before + [k - 1]
  }

  lemma {:induction false} PicksOneMore(sources: seq<Source>, indices: seq<nat>, picked: seq<Source>, i: nat)
    requires Picks(sources, indices, picked) && i < |sources|
    ensures Picks(sources, indices + [i], picked + [sources[i]])
  {
  }

  lemma {:induction false} PendingPicks(sources: seq<Source>, outcomes: map<nat, Item>, k: nat)
    requires k <= |sources|
    ensures Picks(sources, LeftIndices(outcomes.Keys, k), Pending(Schedule(sources), outcomes, k))
  {
    if k > 0 {
      PendingPicks(sources, outcomes, k - 1);
      PicksOneMore(sources, LeftIndices(outcomes.Keys, k - 1), Pending(Schedule(sources), outcomes, k - 1), k - 1);
    }
  }

  lemma {:induction false} PendingIsLeftOver(sources: seq<Source>, outcomes: map<nat, Item>)
    ensures LeftOver(sources, outcomes.Keys, Pending(Schedule(sources), outcomes, |sources|))
  {
    PendingPicks(sources, outcomes, |sources|);
    assert Ascending(LeftIndices(outcomes.Keys, |sources|), Below(|sources|) - outcomes.Keys);
  }

  function Max(a: real, b: real): real {
    if a < b then b else a
  }

  lemma {:induction false} PaceTimesLeft(elapsed: real, completed: real, left: real)
    requires completed > 0.0
    ensures (elapsed / completed * left) * completed == elapsed * left
  {
    var pace := elapsed / completed;
    assert pace * completed == elapsed;
    assert (pace * left) * completed == (pace * completed) * left;
  }

  // The time left at the mean pace so far.
  function Remaining(elapsed: real, completed: nat, left: nat): (eta: real)
    requires completed > 0
    ensures eta * completed as real == elapsed * left as real
  {
    PaceTimesLeft(elapsed, completed as real, left as real);
    elapsed / completed as real * left as real
  }

  function Snapshot(completed: nat, total: nat, pending: seq<Source>, finished: Option<Item>, now: real, started: real)
    : Progress
  {
    var elapsed := Max(0.0, now - started);
    Progress(completed, total, pending, finished, elapsed,
             if completed > 0 then Some(Remaining(elapsed, completed, |pending|)) else None)
  }

  // The time to go is to the time so far as the tasks left are to the tasks done.
  ghost predicate AtMeanPace(p: Progress) {
    p.eta.Some? && p.eta.value * p.completed as real == p.elapsed * |p.pending| as real
  }

  lemma {:induction false} SnapshotKeepsPace(completed: nat, total: nat, pending: seq<Source>, finished: Option<Item>,
                                             now: real, started: real)
    requires completed > 0
    ensures AtMeanPace(Snapshot(completed, total, pending, finished, now, started))
  {
  }

  lemma {:induction false} EtaIsNonNegative(elapsed: real, completed: real, remaining: real)
    requires elapsed >= 0.0 && completed > 0.0 && remaining >= 0.0
    ensures elapsed / completed * remaining >= 0.0
  {
    assert elapsed / completed >= 0.0;
  }

  // What every progress event satisfies: the checks of its own constructor, and the count.
  ghost predicate ValidProgress(p: Progress) {
    && p.completed + |p.pending| == p.total
    && p.elapsed >= 0.0 && (p.eta.Some? ==> p.eta.value >= 0.0)
    && (p.eta.Some? <==> p.completed > 0) && (p.finished.Some? <==> p.completed > 0)
  }

  lemma {:induction false} SnapshotIsValid(completed: nat, total: nat, pending: seq<Source>, finished: Option<Item>,
                                           now: real, started: real)
    requires completed + |pending| == total && (finished.Some? <==> completed > 0)
    ensures ValidProgress(Snapshot(completed, total, pending, finished, now, started))
  {
    if completed > 0 {
      EtaIsNonNegative(Max(0.0, now - started), completed as real, |pending| as real);
    }
  }

  // ---- collecting outcomes ----------------------------------------------------------------

  // A completion order: every task once.
  ghost predicate IsOrder(order: seq<nat>, n: nat) {
    && |order| == n
    && (forall k :: 0 <= k < n ==> order[k] < n)
    && (forall j, k :: 0 <= j < k < n ==> order[j] != order[k])
  }

  ghost function Completed(order: seq<nat>, k: nat): set<nat>
    requires k <= |order|
  {
    if k == 0 then {} else Completed(order, k - 1) + {order[k - 1]}
  }

  lemma {:induction false} CompletedMembers(order: seq<nat>, n: nat, k: nat)
    requires IsOrder(order, n) && k <= n
    ensures |Completed(order, k)| == k
    ensures forall j :: k <= j < n ==> order[j] !in Completed(order, k)
    ensures forall d :: d in Completed(order, k) ==> d < n
  {
    if k > 0 {
      CompletedMembers(order, n, k - 1);
    }
  }

  lemma {:induction false} SameSize(small: set<nat>, big: set<nat>)
    requires small <= big && |small| == |big|
    ensures small == big
  {
    if x :| x in big && x !in small {
      SubsetCardinality(small, big - {x});
    }
  }

  lemma {:induction false} AllCompleted(order: seq<nat>, n: nat)
    requires IsOrder(order, n)
    ensures Completed(order, n) == Below(n)
  {
    CompletedMembers(order, n, n);
    SameSize(Completed(order, n), Below(n));
  }

  ghost predicate RightItem(worker: Worker, sources: seq<Source>, d: nat, item: Item) {
    d < |sources| && item == Execute(worker, Task(d, sources[d]))
  }

  // The outcomes of the first k completions.
  ghost predicate Collected(worker: Worker, sources: seq<Source>, order: seq<nat>, k: nat, outcomes: map<nat, Item>)
    requires k <= |order|
  {
    outcomes.Keys == Completed(order, k) && forall d :: d in outcomes ==> RightItem(worker, sources, d, outcomes[d])
  }

  lemma {:induction false} CollectOne(worker: Worker, sources: seq<Source>, order: seq<nat>, k: nat,
                                      outcomes: map<nat, Item>, item: Item)
    requires IsOrder(order, |sources|) && k < |order| && Collected(worker, sources, order, k, outcomes)
    requires RightItem(worker, sources, order[k], item)
    ensures Collected(worker, sources, order, k + 1, outcomes[order[k] := item])
  {
    assert outcomes[order[k] := item].Keys == outcomes.Keys + {order[k]};
  }

  lemma {:induction false} CollectedSize(worker: Worker, sources: seq<Source>, order: seq<nat>, k: nat,
                                         outcomes: map<nat, Item>)
    requires IsOrder(order, |sources|) && k <= |order| && Collected(worker, sources, order, k, outcomes)
    ensures |outcomes| == k && forall d :: d in outcomes ==> d < |sources|
  {
    CompletedMembers(order, |sources|, k);
    assert |outcomes| == |outcomes.Keys|;
  }

  // ---- putting outcomes in order ------------------------------------------------------------

  ghost predicate Least(x: nat, s: set<nat>) {
    x in s && forall y :: y in s ==> x <= y
  }

  lemma {:induction false} LeastExists(s: set<nat>)
    requires s != {}
    ensures exists x :: Least(x, s)
    decreases |s|
  {
    var a :| a in s;
    if s - {a} == {} {
      assert s == {a};
      assert Least(a, s);
    } else {
      LeastExists(s - {a});
      var b :| Least(b, s - {a});
      var least := if a < b then a else b;
      forall y | y in s ensures least <= y {
        assert y == a || y in s - {a};
      }
      assert Least(least, s);
    }
  }

  lemma {:induction false} PrependLeast(x: nat, s: set<nat>, keys: seq<nat>)
    requires Least(x, s) && Ascending(keys, s - {x})
    ensures Ascending([x] + keys, s)
  {
    var all := [x] + keys;
    forall i, j | 0 <= i < j < |all| ensures all[i] < all[j] {
      assert keys[j - 1] in keys;
      assert i > 0 ==> all[i] == keys[i - 1];
    }
  }

  function SortedKeys(s: set<nat>): (r: seq<nat>)
    ensures Ascending(r, s)
    decreases |s|
  {
    if s == {} then []
    else
      LeastExists(s);
      var x :| x in s && forall y :: y in s ==> x <= y;
      var rest := SortedKeys(s - {x});
      PrependLeast(x, s, rest);
      [x] + rest
  }

  lemma {:induction false} AtLeastIndex(keys: seq<nat>, n: nat, i: nat)
    requires Ascending(keys, Below(n)) && i < |keys|
    ensures keys[i] >= i
  {
    if i > 0 {
      AtLeastIndex(keys, n, i - 1);
      assert keys[i - 1] < keys[i];
    }
  }

  // The ascending list of 0..n-1 is the identity.
  lemma {:induction false} AscendingIsIdentity(keys: seq<nat>, n: nat, i: nat)
    requires Ascending(keys, Below(n)) && i < n
    ensures i < |keys| && keys[i] == i
  {
    assert i in keys;
    var at :| 0 <= at < |keys| && keys[at] == i;
    AtLeastIndex(keys, n, at);
    if i > 0 {
      AscendingIsIdentity(keys, n, i - 1);
    }
    assert at == i;
  }

  lemma {:induction false} AscendingLength(keys: seq<nat>, n: nat)
    requires Ascending(keys, Below(n))
    ensures |keys| == n
  {
    if n > 0 {
      AscendingIsIdentity(keys, n, n - 1);
    }
    if |keys| > 0 {
      AtLeastIndex(keys, n, |keys| - 1);
      assert keys[|keys| - 1] in keys;
    }
  }

  function Ordered(outcomes: map<nat, Item>): seq<Item> {
    var keys := SortedKeys(outcomes.Keys);
    seq(|keys|, i requires 0 <= i < |keys| => assert keys[i] in keys; outcomes[keys[i]])
  }

  // Sorting by sequence number undoes any completion order.
  lemma {:induction false} OrderedIsExpected(worker: Worker, sources: seq<Source>, order: seq<nat>,
                                             outcomes: map<nat, Item>)
    requires IsOrder(order, |sources|) && Collected(worker, sources, order, |sources|, outcomes)
    ensures Ordered(outcomes) == Expected(worker, sources)
  {
    var keys, n := SortedKeys(outcomes.Keys), |sources|;
    AllCompleted(order, n);
    AscendingLength(keys, n);
    var items, expected := Ordered(outcomes), Expected(worker, sources);
    forall i | 0 <= i < n ensures items[i] == expected[i] {
      AscendingIsIdentity(keys, n, i);
      assert items[i] == outcomes[i];
      assert RightItem(worker, sources, i, outcomes[i]);
    }
  }

  // ---- progress events -----------------------------------------------------------------------

  // The event after completion k: that item, the sources still to come, the time since the start,
  // and the time to go at the mean pace so far.
  ghost predicate EventFits(worker: Worker, sources: seq<Source>, order: seq<nat>, k: nat, now: real, started: real,
                            event: Progress)
    requires k < |order|
  {
    && ValidProgress(event) && event.completed == k + 1 && event.total == |sources|
    && order[k] < |sources|
    && event.finished.Some? && IsItem(worker, sources[order[k]], event.finished.value)
    && LeftOver(sources, Completed(order, k + 1), event.pending)
    && event.elapsed == (if now < started then 0.0 else now - started) && AtMeanPace(event)
  }

  ghost predicate EventsFit(worker: Worker, sources: seq<Source>, order: seq<nat>, clock: Clock, started: real, k: nat,
                            events: seq<Progress>)
    requires k <= |order|
  {
    |events| == k && forall j :: 0 <= j < k ==> EventFits(worker, sources, order, j, clock(j + 2), started, events[j])
  }

  lemma {:induction false} NextEvent(worker: Worker, sources: seq<Source>, order: seq<nat>, k: nat,
                                     outcomes: map<nat, Item>, now: real, started: real)
    requires IsOrder(order, |sources|) && k < |order| && Collected(worker, sources, order, k + 1, outcomes)
    ensures var d := order[k];
      var pending := Pending(Schedule(sources), outcomes, |sources|);
      var item := Some(Execute(worker, Task(d, sources[d])));
      EventFits(worker, sources, order, k, now, started,
                Snapshot(|outcomes|, |sources|, pending, item, now, started))
  {
    var pending, d := Pending(Schedule(sources), outcomes, |sources|), order[k];
    var item := Some(Execute(worker, Task(d, sources[d])));
    assert |outcomes| == k + 1 && k + 1 + |pending| == |sources| by {
      CollectedSize(worker, sources, order, k + 1, outcomes);
      PendingCount(sources, outcomes);
    }
    assert LeftOver(sources, Completed(order, k + 1), pending) by {
      PendingIsLeftOver(sources, outcomes);
    }
    SnapshotIsValid(|outcomes|, |sources|, pending, item, now, started);
    SnapshotKeepsPace(|outcomes|, |sources|, pending, item, now, started);
  }

  // ---- execution -----------------------------------------------------------------------------

  ghost function Identity(n: nat): (r: seq<nat>)
    ensures IsOrder(r, n) && forall i :: 0 <= i < n ==> r[i] == i
  {
    seq(n, i requires 0 <= i < n => i)
  }

  // Run task d, the k-th to complete, and report it.
  method Finish(sources: seq<Source>, worker: Worker, ghost order: seq<nat>, ghost k: nat, d: nat,
                earlier: map<nat, Item>, now: real, started: real)
    returns (outcomes: map<nat, Item>, event: Progress)
    requires IsOrder(order, |sources|) && k < |order| && d == order[k]
    requires Collected(worker, sources, order, k, earlier)
    ensures Collected(worker, sources, order, k + 1, outcomes)
    ensures EventFits(worker, sources, order, k, now, started, event)
  {
    var tasks := Schedule(sources);
    var item := Execute(worker, tasks[d]);
    CollectOne(worker, sources, order, k, earlier, item);
    outcomes := earlier[tasks[d].sequence := item];
    NextEvent(worker, sources, order, k, outcomes, now, started);
    var pending := Pending(tasks, outcomes, |tasks|);
    event := Snapshot(|outcomes|, |tasks|, pending, Some(item), now, started);
  }

  lemma {:induction false} EventsGrow(worker: Worker, sources: seq<Source>, order: seq<nat>, clock: Clock,
                                      started: real, k: nat, events: seq<Progress>, event: Progress)
    requires k < |order| && EventsFit(worker, sources, order, clock, started, k, events)
    requires EventFits(worker, sources, order, k, clock(k + 2), started, event)
    ensures EventsFit(worker, sources, order, clock, started, k + 1, events + [event])
  {
  }

  method RunSerial(sources: seq<Source>, worker: Worker, clock: Clock, started: real)
    returns (items: seq<Item>, events: seq<Progress>)
    ensures items == Expected(worker, sources)
    ensures EventsFit(worker, sources, Identity(|sources|), clock, started, |sources|, events)
  {
    ghost var order := Identity(|sources|);
    var outcomes: map<nat, Item> := map[];
    events := [];
    for i := 0 to |sources|
      invariant Collected(worker, sources, order, i, outcomes)
      invariant EventsFit(worker, sources, order, clock, started, i, events)
    {
      var event;
      outcomes, event := Finish(sources, worker, order, i, i, outcomes, clock(i + 2), started);
      EventsGrow(worker, sources, order, clock, started, i, events, event);
      events := events + [event];
    }
    OrderedIsExpected(worker, sources, order, outcomes);
    items := Ordered(outcomes);
  }

  // `order` is the order in which the pool's futures complete.
  method RunPool(sources: seq<Source>, worker: Worker, order: seq<nat>, clock: Clock, started: real)
    returns (items: seq<Item>, events: seq<Progress>)
    requires IsOrder(order, |sources|)
    ensures items == Expected(worker, sources)
    ensures EventsFit(worker, sources, order, clock, started, |sources|, events)
  {
    var outcomes: map<nat, Item> := map[];
    events := [];
    for i := 0 to |order|
      invariant Collected(worker, sources, order, i, outcomes)
      invariant EventsFit(worker, sources, order, clock, started, i, events)
    {
      var event;
      outcomes, event := Finish(sources, worker, order, i, order[i], outcomes, clock(i + 2), started);
      EventsGrow(worker, sources, order, clock, started, i, events, event);
      events := events + [event];
    }
    OrderedIsExpected(worker, sources, order, outcomes);
    items := Ordered(outcomes);
  }

  // The order the tasks complete in: one worker takes them in turn.
  ghost function Completions(workers: nat, order: seq<nat>): (r: seq<nat>)
    requires IsOrder(order, |order|)
    ensures IsOrder(r, |order|)
  {
    if workers == 1 then Identity(|order|) else order
  }

  lemma {:induction false} AllPending(sources: seq<Source>, k: nat)
    requires k <= |sources|
    ensures Pending(Schedule(sources), map[], k) == sources[..k]
    ensures sources[..|sources|] == sources
  {
    if k > 0 {
      AllPending(sources, k - 1);
    }
  }

  lemma {:induction false} FirstThenRest(first: Progress, rest: seq<Progress>)
    ensures ([first] + rest)[1..] == rest
  {
  }

  // The result does not depend on the number of workers or on the order of completion. The
  // first event lists every source; each later one names the item finished, what is left, and
  // the times.
  method Run(sources: seq<Source>, worker: Worker, workers: nat, order: seq<nat>, clock: Clock)
    returns (items: seq<Item>, events: seq<Progress>)
    requires IsOrder(order, |sources|)
    ensures items == Expected(worker, sources)
    ensures |items| == |sources| && forall i :: 0 <= i < |sources| ==> IsItem(worker, sources[i], items[i])
    ensures |events| == |sources| + 1
    ensures forall k :: 0 <= k < |events| ==>
      ValidProgress(events[k]) && events[k].completed == k && events[k].total == |sources|
    ensures events[0].pending == sources && events[0].finished == None
    ensures events[0].elapsed == if clock(1) < clock(0) then 0.0 else clock(1) - clock(0)
    ensures EventsFit(worker, sources, Completions(workers, order), clock, clock(0), |sources|, events[1..])
  {
    var tasks := Schedule(sources);
    var started := clock(0);
    AllPending(sources, |sources|);
    var all := Pending(tasks, map[], |tasks|);
    SnapshotIsValid(0, |tasks|, all, None, clock(1), started);
    var first := Snapshot(0, |tasks|, all, None, clock(1), started);
    if |tasks| == 0 {
      return [], [first];
    }
    var rest;
    if workers == 1 {
      items, rest := RunSerial(sources, worker, clock, started);
    } else {
      items, rest := RunPool(sources, worker, order, clock, started);
    }
    events := [first] + rest;
    FirstThenRest(first, rest);
    forall k | 1 <= k < |events|
      ensures ValidProgress(events[k]) && events[k].completed == k && events[k].total == |sources|
    {
      var at := k - 1;
      assert EventFits(worker, sources, Completions(workers, order), at, clock(at + 2), started, rest[at]);
    }
  }
}
