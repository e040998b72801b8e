// Every interleaving of the threads around the job registry. A ticket stands for one call
// of submit together with the worker that later runs its job.
module JobProtocol {
  import opened Common
  import opened JobManager

  datatype Config = Config(workers: nat, queueCapacity: nat, maxRecords: nat, retention: real) {
    predicate Valid() {
      workers > 0 && queueCapacity > 0 && maxRecords > 0
    }

    function Capacity(): nat {
      workers + queueCapacity
    }
  }

  datatype Outcome = Returned(value: string) | Raised

  // Where the ticket's current thread stands.
  datatype Phase =
    | Admitted                              // permit acquired, registry lock not yet taken
    | Registered(id: Id)                    // record inserted, not yet handed to the executor
    | Refused(id: Id)                       // the executor refused the job
    | Withdrawn                             // record deleted again, permit still held
    | Waiting(id: Id)                       // in the executor's queue
    | Started(id: Id)                       // on a worker, before its first transition
    | Working(id: Id)                       // running the operation
    | Returning(id: Id, outcome: Outcome)   // operation over, final transition due
    | Settled(id: Id)                       // final transition made, release due
    | Lost                                  // an exception skipped the release

  // `faults` counts internal exceptions; `admitted` and `released` are the tickets that
  // ever acquired a permit and the releases they made.
  datatype State = State(
    records: Records, free: nat, tickets: map<nat, Phase>,
    admitted: set<nat>, released: multiset<nat>, faults: nat)

  datatype Action =
    | Acquire(ticket: nat)
    | Register(ticket: nat, id: Id, request: string, now: real)
    | Enqueue(ticket: nat)
    | Refuse(ticket: nat)
    | Withdraw(ticket: nat)
    | Start(ticket: nat)
    | Begin(ticket: nat, now: real)
    | Operate(ticket: nat, outcome: Outcome)
    | Settle(ticket: nat, now: real)
    | Release(ticket: nat)
    | Clean(now: real)

  predicate OnWorker(phase: Phase) {
    phase.Started? || phase.Working? || phase.Returning? || phase.Settled?
  }

  ghost function Busy(tickets: map<nat, Phase>): set<nat> {
    set t | t in tickets && OnWorker(tickets[t])
  }

  function Initial(c: Config): State {
    State(map[], c.Capacity(), map[], {}, multiset{}, 0)
  }

  ghost predicate Enabled(c: Config, s: State, a: Action) {
    match a
    case Acquire(t) => t !in s.admitted && t !in s.tickets && s.free > 0
    case Register(t, id, _, _) => t in s.tickets && s.tickets[t].Admitted? && id !in s.records
    case Enqueue(t) => t in s.tickets && s.tickets[t].Registered?
    case Refuse(t) => t in s.tickets && s.tickets[t].Registered?
    case Withdraw(t) => t in s.tickets && s.tickets[t].Refused?
    case Start(t) => t in s.tickets && s.tickets[t].Waiting? && |Busy(s.tickets)| < c.workers
    case Begin(t, _) => t in s.tickets && s.tickets[t].Started?
    case Operate(t, _) => t in s.tickets && s.tickets[t].Working?
    case Settle(t, _) => t in s.tickets && s.tickets[t].Returning?
    case Release(t) => t in s.tickets && (s.tickets[t].Settled? || s.tickets[t].Withdrawn?)
    case Clean(_) => true
  }

  function At(s: State, t: nat, phase: Phase): State {
    s.(tickets := s.tickets[t := phase])
  }

  // The permit goes back, or the bounded semaphore raises; either way the thread is done.
  function Freed(c: Config, s: State, t: nat): State {
    if s.free < c.Capacity()
    then s.(free := s.free + 1, tickets := s.tickets - {t}, released := s.released + multiset{t})
    else s.(tickets := s.tickets - {t}, faults := s.faults + 1)
  }

  function Finish(outcome: Outcome): (JobState, Option<string>, Option<JobError>) {
    match outcome
    case Returned(value) => (Succeeded, Some(value), None)
    case Raised => (Failed, None, Some(ProcessingFailed))
  }

  // One atomic step. Raising is modelled where the code could raise: an exception before the
  // `try` of the worker, or in the rollback of submit, leaves the permit unreleased.
  ghost function Next(c: Config, s: State, a: Action): State
    requires Enabled(c, s, a)
  {
    match a
    case Acquire(t) => At(s, t, Admitted).(free := s.free - 1, admitted := s.admitted + {t})
    case Register(t, id, request, now) =>
      if |s.records| >= c.maxRecords then Freed(c, s, t)
      else At(s, t, Registered(id)).(records := s.records[id := NewRecord(id, request, now)])
    case Enqueue(t) => At(s, t, Waiting(s.tickets[t].id))
    case Refuse(t) => At(s, t, Refused(s.tickets[t].id))
    case Withdraw(t) =>
      var id := s.tickets[t].id;
      if id in s.records then At(s, t, Withdrawn).(records := s.records - {id})
      else At(s, t, Lost).(faults := s.faults + 1)
    case Start(t) => At(s, t, Started(s.tickets[t].id))
    case Begin(t, now) =>
      var id := s.tickets[t].id;
      var moved := Transitioned(s.records, id, Running, now, None, None);
      if moved.Done? then At(s, t, Working(id)).(records := moved.records)
      else At(s, t, Lost).(faults := s.faults + 1)
    case Operate(t, outcome) => At(s, t, Returning(s.tickets[t].id, outcome))
    case Settle(t, now) =>
      var id, last := s.tickets[t].id, Finish(s.tickets[t].outcome);
      var moved := Transitioned(s.records, id, last.0, now, last.1, last.2);
      if moved.Done? then At(s, t, Settled(id)).(records := moved.records)
      else At(s, t, Settled(id)).(faults := s.faults + 1)
    case Release(t) => Freed(c, s, t)
    case Clean(now) => s.(records := Cleaned(s.records, now - c.retention))
  }

  // ---- runs ---------------------------------------------------------------------

  ghost predicate IsRun(c: Config, from: State, run: seq<Action>)
    decreases |run|
  {
    run == [] || (Enabled(c, from, run[0]) && IsRun(c, Next(c, from, run[0]), run[1..]))
  }

  ghost function After(c: Config, from: State, run: seq<Action>): State
    requires IsRun(c, from, run)
    decreases |run|
  {
    if run == [] then from else After(c, Next(c, from, run[0]), run[1..])
  }

  // ---- the invariant ------------------------------------------------------------

  // The unfinished record a ticket answers for, and the state it must be in.
  predicate Holds(phase: Phase) {
    phase.Registered? || phase.Refused? || phase.Waiting? || phase.Started? || phase.Working? || phase.Returning?
  }

  function IdOf(phase: Phase): Id
    requires Holds(phase)
  {
    phase.id
  }

  function Expected(phase: Phase): JobState
    requires Holds(phase)
  {
    if phase.Working? || phase.Returning? then Running else Queued
  }

  // Some ticket still answers for this job.
  ghost predicate Answered(tickets: map<nat, Phase>, id: Id) {
    exists t :: t in tickets && Holds(tickets[t]) && IdOf(tickets[t]) == id
  }

  // Every ticket's record exists in the expected state, no two tickets share one, and no
  // unfinished record is orphaned.
  ghost predicate RecordsMatch(records: Records, tickets: map<nat, Phase>) {
    && (forall t :: t in tickets && Holds(tickets[t]) ==>
          IdOf(tickets[t]) in records && records[IdOf(tickets[t])].state == Expected(tickets[t]))
    && (forall t, u :: t in tickets && u in tickets && t != u && Holds(tickets[t]) && Holds(tickets[u]) ==>
          IdOf(tickets[t]) != IdOf(tickets[u]))
    && (forall id :: id in records && !Finished(records[id].state) ==> Answered(tickets, id))
  }

  ghost predicate PermitsMatch(c: Config, s: State) {
    && s.free + |s.tickets| == c.Capacity()
    && s.tickets.Keys <= s.admitted
    && (forall t :: s.released[t] == if t in s.admitted && t !in s.tickets then 1 else 0)
    && (forall t :: t in s.tickets ==> !s.tickets[t].Lost?)
  }

  ghost predicate Inv(c: Config, s: State) {
    && c.Valid() && s.faults == 0
    && PermitsMatch(c, s) && RecordsMatch(s.records, s.tickets)
    && |s.records| <= c.maxRecords
    && |Busy(s.tickets)| <= c.workers
  }

  lemma {:induction false} InitiallyInv(c: Config)
    requires c.Valid()
    ensures Inv(c, Initial(c))
  {
    assert Busy(map[]) == {};
  }

  // ---- preservation --------------------------------------------------------------

  lemma {:induction false} TicketMoves(c: Config, s: State, t: nat, phase: Phase)
    requires PermitsMatch(c, s) && t in s.tickets && !phase.Lost?
    ensures PermitsMatch(c, At(s, t, phase))
  {
    assert s.tickets[t := phase].Keys == s.tickets.Keys;
    assert |s.tickets[t := phase].Keys| == |s.tickets.Keys|;
  }

  lemma {:induction false} TicketEnters(c: Config, s: State, t: nat)
    requires PermitsMatch(c, s) && t !in s.tickets && t !in s.admitted && s.free > 0
    ensures PermitsMatch(c, At(s, t, Admitted).(free := s.free - 1, admitted := s.admitted + {t}))
  {
    var more := s.tickets[t := Admitted];
    assert more.Keys == s.tickets.Keys + {t};
    assert |more.Keys| == |s.tickets.Keys| + 1;
  }

  lemma {:induction false} TicketEnds(c: Config, s: State, t: nat)
    requires PermitsMatch(c, s) && t in s.tickets
    ensures PermitsMatch(c, Freed(c, s, t)) && Freed(c, s, t).faults == s.faults
  {
    var rest := s.tickets - {t};
    assert rest.Keys == s.tickets.Keys - {t};
    assert |rest.Keys| == |s.tickets.Keys| - 1;
  }

  lemma {:induction false} BusyShrinks(before: map<nat, Phase>, after: map<nat, Phase>)
    requires Busy(after) <= Busy(before)
    ensures |Busy(after)| <= |Busy(before)|
  {
    SubsetCardinality(Busy(after), Busy(before));
  }

  lemma {:induction false} FewerRecords(before: Records, after: Records)
    requires after.Keys <= before.Keys
    ensures |after| <= |before|
  {
    SubsetCardinality(after.Keys, before.Keys);
    assert |after| == |after.Keys| && |before| == |before.Keys|;
  }

  // A ticket moves on but keeps answering for its record, now in the expected state.
  lemma {:induction false} RecordMoves(records: Records, tickets: map<nat, Phase>, t: nat, phase: Phase, record: Record)
    requires RecordsMatch(records, tickets) && t in tickets && Holds(tickets[t])
    requires Holds(phase) && IdOf(phase) == IdOf(tickets[t]) && record.state == Expected(phase)
    ensures RecordsMatch(records[IdOf(phase) := record], tickets[t := phase])
  {
    var after, more := records[IdOf(phase) := record], tickets[t := phase];
    forall id | id in after && !Finished(after[id].state) ensures Answered(more, id) {
      if id != IdOf(phase) {
        assert Answered(tickets, id);
        var u :| u in tickets && Holds(tickets[u]) && IdOf(tickets[u]) == id;
        assert u in more;
      } else {
        assert t in more;
      }
    }
  }

  // A ticket stops answering: its record is deleted, or finished with `record`.
  lemma {:induction false} RecordDropped(records: Records, tickets: map<nat, Phase>, t: nat, phase: Phase)
    requires RecordsMatch(records, tickets) && t in tickets && Holds(tickets[t]) && !Holds(phase)
    ensures RecordsMatch(records - {IdOf(tickets[t])}, tickets[t := phase])
  {
    var after, more := records - {IdOf(tickets[t])}, tickets[t := phase];
    forall id | id in after && !Finished(after[id].state) ensures Answered(more, id) {
      assert Answered(tickets, id);
      var u :| u in tickets && Holds(tickets[u]) && IdOf(tickets[u]) == id;
      assert u in more;
    }
  }

  lemma {:induction false} RecordFinished(records: Records, tickets: map<nat, Phase>, t: nat, phase: Phase,
                                          record: Record)
    requires RecordsMatch(records, tickets) && t in tickets && Holds(tickets[t]) && !Holds(phase)
    requires Finished(record.state)
    ensures RecordsMatch(records[IdOf(tickets[t]) := record], tickets[t := phase])
  {
    var after, more := records[IdOf(tickets[t]) := record], tickets[t := phase];
    forall id | id in after && !Finished(after[id].state) ensures Answered(more, id) {
      assert Answered(tickets, id);
      var u :| u in tickets && Holds(tickets[u]) && IdOf(tickets[u]) == id;
      assert u in more;
    }
  }

  lemma {:induction false} RecordInserted(records: Records, tickets: map<nat, Phase>, t: nat, id: Id, record: Record)
    requires RecordsMatch(records, tickets) && t in tickets && !Holds(tickets[t]) && id !in records
    requires record.state == Queued
    ensures RecordsMatch(records[id := record], tickets[t := Registered(id)])
  {
    var after, more := records[id := record], tickets[t := Registered(id)];
    forall other | other in after && !Finished(after[other].state) ensures Answered(more, other) {
      if other == id {
        assert t in more;
      } else {
        assert Answered(tickets, other);
        var u :| u in tickets && Holds(tickets[u]) && IdOf(tickets[u]) == other;
        assert u in more;
      }
    }
  }

  // A ticket that answers for nothing may come and go freely.
  lemma {:induction false} BystanderEnters(records: Records, tickets: map<nat, Phase>, t: nat, phase: Phase)
    requires RecordsMatch(records, tickets) && t !in tickets && !Holds(phase)
    ensures RecordsMatch(records, tickets[t := phase])
  {
    var more := tickets[t := phase];
    forall id | id in records && !Finished(records[id].state) ensures Answered(more, id) {
      assert Answered(tickets, id);
      var u :| u in tickets && Holds(tickets[u]) && IdOf(tickets[u]) == id;
      assert u in more;
    }
  }

  lemma {:induction false} BystanderLeaves(records: Records, tickets: map<nat, Phase>, t: nat)
    requires RecordsMatch(records, tickets) && t in tickets && !Holds(tickets[t])
    ensures RecordsMatch(records, tickets - {t})
  {
    var fewer := tickets - {t};
    forall id | id in records && !Finished(records[id].state) ensures Answered(fewer, id) {
      assert Answered(tickets, id);
      var u :| u in tickets && Holds(tickets[u]) && IdOf(tickets[u]) == id;
      assert u in fewer;
    }
  }

  // Cleanup deletes finished records only.
  lemma {:induction false} RecordsCleaned(records: Records, tickets: map<nat, Phase>, kept: Records)
    requires RecordsMatch(records, tickets) && kept.Keys <= records.Keys
    requires forall id :: id in kept ==> kept[id] == records[id]
    requires forall id :: id in records && !Finished(records[id].state) ==> id in kept
    ensures RecordsMatch(kept, tickets) && |kept| <= |records|
  {
    FewerRecords(records, kept);
  }

  lemma {:induction false} AcquireKeepsInv(c: Config, s: State, a: Action)
    requires Inv(c, s) && Enabled(c, s, a) && a.Acquire?
    ensures Inv(c, Next(c, s, a))
  {
    var s' := Next(c, s, a);
    TicketEnters(c, s, a.ticket);
    BystanderEnters(s.records, s.tickets, a.ticket, Admitted);
    BusyShrinks(s.tickets, s'.tickets);
  }

  lemma {:induction false} OneMoreRecord(records: Records, id: Id, record: Record)
    requires id !in records
    ensures |records[id := record]| == |records| + 1
  {
    assert records[id := record].Keys == records.Keys + {id};
    assert |records[id := record].Keys| == |records.Keys| + 1;
  }

  lemma {:induction false} NoBusier(tickets: map<nat, Phase>, t: nat, phase: Phase)
    requires t in tickets && (OnWorker(phase) ==> OnWorker(tickets[t]))
    ensures |Busy(tickets[t := phase])| <= |Busy(tickets)|
  {
    BusyShrinks(tickets, tickets[t := phase]);
  }

  // A ticket that answers for nothing hands its permit back and is gone.
  lemma {:induction false} FreedKeepsInv(c: Config, s: State, t: nat)
    requires Inv(c, s) && t in s.tickets && !Holds(s.tickets[t])
    ensures Inv(c, Freed(c, s, t))
  {
    TicketEnds(c, s, t);
    BystanderLeaves(s.records, s.tickets, t);
    BusyShrinks(s.tickets, s.tickets - {t});
  }

  lemma {:induction false} RecordAccepted(c: Config, s: State, t: nat, id: Id, record: Record)
    requires Inv(c, s) && t in s.tickets && s.tickets[t].Admitted? && id !in s.records
    requires |s.records| < c.maxRecords && record.state == Queued
    ensures Inv(c, At(s, t, Registered(id)).(records := s.records[id := record]))
  {
    TicketMoves(c, s, t, Registered(id));
    RecordInserted(s.records, s.tickets, t, id, record);
    OneMoreRecord(s.records, id, record);
    NoBusier(s.tickets, t, Registered(id));
  }

  lemma {:induction false} RegisterKeepsInv(c: Config, s: State, a: Action)
    requires Inv(c, s) && Enabled(c, s, a) && a.Register?
    ensures Inv(c, Next(c, s, a))
  {
    if |s.records| >= c.maxRecords {
      FreedKeepsInv(c, s, a.ticket);
    } else {
      RecordAccepted(c, s, a.ticket, a.id, NewRecord(a.id, a.request, a.now));
    }
  }

  lemma {:induction false} Unchanged(records: Records, id: Id)
    requires id in records
    ensures records[id := records[id]] == records
  {
  }

  // A ticket moves on without touching its record.
  lemma {:induction false} PhaseKeepsInv(c: Config, s: State, t: nat, phase: Phase)
    requires Inv(c, s) && t in s.tickets && Holds(s.tickets[t]) && Holds(phase)
    requires IdOf(phase) == IdOf(s.tickets[t]) && Expected(phase) == Expected(s.tickets[t])
    requires |Busy(s.tickets[t := phase])| <= c.workers
    ensures Inv(c, At(s, t, phase))
  {
    var id := IdOf(phase);
    TicketMoves(c, s, t, phase);
    RecordMoves(s.records, s.tickets, t, phase, s.records[id]);
    Unchanged(s.records, id);
  }

  lemma {:induction false} HandOverKeepsInv(c: Config, s: State, a: Action)
    requires Inv(c, s) && Enabled(c, s, a) && (a.Enqueue? || a.Refuse? || a.Operate?)
    ensures Inv(c, Next(c, s, a))
  {
    var t := a.ticket;
    var phase := Next(c, s, a).tickets[t];
    NoBusier(s.tickets, t, phase);
    PhaseKeepsInv(c, s, t, phase);
  }

  // The rollback of submit always finds the record it deletes.
  lemma {:induction false} WithdrawKeepsInv(c: Config, s: State, a: Action)
    requires Inv(c, s) && Enabled(c, s, a) && a.Withdraw?
    ensures Inv(c, Next(c, s, a))
  {
    var s', t := Next(c, s, a), a.ticket;
    assert IdOf(s.tickets[t]) in s.records;
    TicketMoves(c, s, t, Withdrawn);
    RecordDropped(s.records, s.tickets, t, Withdrawn);
    FewerRecords(s.records, s'.records);
    NoBusier(s.tickets, t, Withdrawn);
  }

  lemma {:induction false} StartKeepsInv(c: Config, s: State, a: Action)
    requires Inv(c, s) && Enabled(c, s, a) && a.Start?
    ensures Inv(c, Next(c, s, a))
  {
    var t := a.ticket;
    var id := IdOf(s.tickets[t]);
    assert Busy(s.tickets[t := Started(id)]) == Busy(s.tickets) + {t};
    PhaseKeepsInv(c, s, t, Started(id));
  }

  lemma {:induction false} SameRecordCount(records: Records, id: Id, record: Record)
    requires id in records
    ensures |records[id := record]| == |records|
  {
    assert records[id := record].Keys == records.Keys;
    assert |records[id := record].Keys| == |records.Keys|;
  }

  // The first transition of a worker, made outside the `try`, never raises.
  lemma {:induction false} BeginKeepsInv(c: Config, s: State, a: Action)
    requires Inv(c, s) && Enabled(c, s, a) && a.Begin?
    ensures Inv(c, Next(c, s, a))
  {
    var s', t := Next(c, s, a), a.ticket;
    var id := IdOf(s.tickets[t]);
    assert id in s.records && s.records[id].state == Queued;
    TicketMoves(c, s, t, Working(id));
    RecordMoves(s.records, s.tickets, t, Working(id), s'.records[id]);
    SameRecordCount(s.records, id, s'.records[id]);
    NoBusier(s.tickets, t, Working(id));
  }

  lemma {:induction false} SettleKeepsInv(c: Config, s: State, a: Action)
    requires Inv(c, s) && Enabled(c, s, a) && a.Settle?
    ensures Inv(c, Next(c, s, a))
  {
    var s', t := Next(c, s, a), a.ticket;
    var id := IdOf(s.tickets[t]);
    assert id in s.records && s.records[id].state == Running;
    TicketMoves(c, s, t, Settled(id));
    RecordFinished(s.records, s.tickets, t, Settled(id), s'.records[id]);
    SameRecordCount(s.records, id, s'.records[id]);
    NoBusier(s.tickets, t, Settled(id));
  }

  lemma {:induction false} ReleaseKeepsInv(c: Config, s: State, a: Action)
    requires Inv(c, s) && Enabled(c, s, a) && a.Release?
    ensures Inv(c, Next(c, s, a))
  {
    FreedKeepsInv(c, s, a.ticket);
  }

  lemma {:induction false} FewerRecordsKeepInv(c: Config, s: State, next: State)
    requires Inv(c, s) && next == s.(records := next.records)
    requires RecordsMatch(next.records, s.tickets) && |next.records| <= |s.records|
    ensures Inv(c, next)
  {
  }

  lemma {:induction false} CleanKeepsInv(c: Config, s: State, a: Action)
    requires Inv(c, s) && a.Clean?
    ensures Inv(c, Next(c, s, a))
  {
    var next := Next(c, s, a);
    RecordsCleaned(s.records, s.tickets, next.records);
    FewerRecordsKeepInv(c, s, next);
  }

  lemma {:induction false} StepKeepsInv(c: Config, s: State, a: Action)
    requires Inv(c, s) && Enabled(c, s, a)
    ensures Inv(c, Next(c, s, a))
  {
    match a
    case Acquire(_) => AcquireKeepsInv(c, s, a);
    case Register(_, _, _, _) => RegisterKeepsInv(c, s, a);
    case Enqueue(_) => HandOverKeepsInv(c, s, a);
    case Refuse(_) => HandOverKeepsInv(c, s, a);
    case Withdraw(_) => WithdrawKeepsInv(c, s, a);
    case Start(_) => StartKeepsInv(c, s, a);
    case Begin(_, _) => BeginKeepsInv(c, s, a);
    case Operate(_, _) => HandOverKeepsInv(c, s, a);
    case Settle(_, _) => SettleKeepsInv(c, s, a);
    case Release(_) => ReleaseKeepsInv(c, s, a);
    case Clean(_) => CleanKeepsInv(c, s, a);
  }

  // In every interleaving: no internal exception, permits conserved, every unfinished job
  // answered for by exactly one ticket.
  lemma {:induction false} EveryRunKeepsInv(c: Config, from: State, run: seq<Action>)
    requires Inv(c, from) && IsRun(c, from, run)
    ensures Inv(c, After(c, from, run))
    decreases |run|
  {
    if run != [] {
      StepKeepsInv(c, from, run[0]);
      EveryRunKeepsInv(c, Next(c, from, run[0]), run[1..]);
    }
  }

  // ---- what one step may do to a job -----------------------------------------------

  // A job's state only moves forward; once finished its record is never written again and
  // disappears only in a cleanup after its retention; unfinished it disappears only when
  // submit withdraws it.
  lemma {:induction false} StepRespectsJob(c: Config, s: State, a: Action, id: Id)
    requires Inv(c, s) && Enabled(c, s, a) && id in s.records
    ensures var s', before := Next(c, s, a), s.records[id];
      && (id in s'.records && s'.records[id] != before ==>
            MayMove(before.state, s'.records[id].state) && s'.records[id].createdAt == before.createdAt)
      && (id !in s'.records && Finished(before.state) ==> a.Clean? && before.updatedAt < a.now - c.retention)
      && (id !in s'.records && !Finished(before.state) ==> a.Withdraw?)
  {
    if a.Withdraw? {
      assert IdOf(s.tickets[a.ticket]) in s.records;
      assert s.records[IdOf(s.tickets[a.ticket])].state == Queued;
    }
  }

  // Only a start occupies a worker, and only a release frees one.
  ghost predicate BusyFits(before: map<nat, Phase>, after: map<nat, Phase>, a: Action) {
    Busy(after) == if a.Start? then Busy(before) + {a.ticket}
                   else if a.Release? then Busy(before) - {a.ticket} else Busy(before)
  }

  lemma {:induction false} BusyMoves(before: map<nat, Phase>, t: nat, phase: Phase, a: Action)
    requires !a.Release? && (a.Start? ==> a.ticket == t && OnWorker(phase))
    requires !a.Start? ==> (OnWorker(phase) <==> t in before && OnWorker(before[t]))
    ensures BusyFits(before, before[t := phase], a)
  {
  }

  lemma {:induction false} BusyLeaves(before: map<nat, Phase>, t: nat, a: Action)
    requires !a.Start? && (a.Release? ==> a.ticket == t)
    requires a.Release? || (t in before ==> !OnWorker(before[t]))
    ensures BusyFits(before, before - {t}, a)
  {
  }

  lemma {:induction false} EntryKeepsBusy(c: Config, s: State, a: Action)
    requires Inv(c, s) && Enabled(c, s, a) && (a.Acquire?)
    ensures BusyFits(s.tickets, Next(c, s, a).tickets, a)
  {
    BusyMoves(s.tickets, a.ticket, Admitted, a);
  }

  lemma {:induction false} RegisterKeepsBusy(c: Config, s: State, a: Action)
    requires Inv(c, s) && Enabled(c, s, a) && (a.Register?)
    ensures BusyFits(s.tickets, Next(c, s, a).tickets, a)
  {
    if |s.records| >= c.maxRecords {
      BusyLeaves(s.tickets, a.ticket, a);
    } else {
      BusyMoves(s.tickets, a.ticket, Registered(a.id), a);
    }
  }

  lemma {:induction false} HandOverKeepsBusy(c: Config, s: State, a: Action)
    requires Inv(c, s) && Enabled(c, s, a) && (a.Enqueue? || a.Refuse?)
    ensures BusyFits(s.tickets, Next(c, s, a).tickets, a)
  {
    var id := s.tickets[a.ticket].id;
    BusyMoves(s.tickets, a.ticket, if a.Enqueue? then Waiting(id) else Refused(id), a);
  }

  lemma {:induction false} StartAndOperateBusy(c: Config, s: State, a: Action)
    requires Inv(c, s) && Enabled(c, s, a) && (a.Start? || a.Operate?)
    ensures BusyFits(s.tickets, Next(c, s, a).tickets, a)
  {
    var id := s.tickets[a.ticket].id;
    BusyMoves(s.tickets, a.ticket, if a.Start? then Started(id) else Returning(id, a.outcome), a);
  }

  lemma {:induction false} RecordedStepKeepsBusy(c: Config, s: State, a: Action)
    requires Inv(c, s) && Enabled(c, s, a) && (a.Withdraw? || a.Begin? || a.Settle?)
    ensures BusyFits(s.tickets, Next(c, s, a).tickets, a)
  {
    var id := IdOf(s.tickets[a.ticket]);
    assert id in s.records && s.records[id].state == Expected(s.tickets[a.ticket]);
    BusyMoves(s.tickets, a.ticket, if a.Withdraw? then Withdrawn else if a.Begin? then Working(id) else Settled(id), a);
  }

  lemma {:induction false} ReleaseFreesWorker(c: Config, s: State, a: Action)
    requires Inv(c, s) && Enabled(c, s, a) && (a.Release?)
    ensures BusyFits(s.tickets, Next(c, s, a).tickets, a)
  {
    BusyLeaves(s.tickets, a.ticket, a);
  }

  // A worker is busy with a job from its start to its release, and with nothing else.
  lemma {:induction false} BusyFromStartToRelease(c: Config, s: State, a: Action)
    requires Inv(c, s) && Enabled(c, s, a)
    ensures BusyFits(s.tickets, Next(c, s, a).tickets, a)
  {
    match a
    case Acquire(_) => EntryKeepsBusy(c, s, a);
    case Register(_, _, _, _) => RegisterKeepsBusy(c, s, a);
    case Enqueue(_) => HandOverKeepsBusy(c, s, a);
    case Refuse(_) => HandOverKeepsBusy(c, s, a);
    case Withdraw(_) => RecordedStepKeepsBusy(c, s, a);
    case Start(_) => StartAndOperateBusy(c, s, a);
    case Begin(_, _) => RecordedStepKeepsBusy(c, s, a);
    case Operate(_, _) => StartAndOperateBusy(c, s, a);
    case Settle(_, _) => RecordedStepKeepsBusy(c, s, a);
    case Release(_) => ReleaseFreesWorker(c, s, a);
    case Clean(_) =>
  }

  // ---- no deadlock -------------------------------------------------------------------

  lemma {:induction false} LongerThanAll(ids: set<Id>) returns (n: nat)
    ensures forall id :: id in ids ==> |id| < n
    decreases |ids|
  {
    if ids == {} {
      n := 0;
    } else {
      var id :| id in ids;
      var m := LongerThanAll(ids - {id});
      n := if |id| < m then m else |id| + 1;
    }
  }

  lemma {:induction false} FreshId(records: Records) returns (id: Id)
    ensures id !in records
  {
    var n := LongerThanAll(records.Keys);
    id := seq(n, i => 'x');
  }

  function Remaining(phase: Phase): nat {
    match phase
    case Admitted => 7
    case Registered(_) => 6
    case Waiting(_) => 5
    case Started(_) => 4
    case Working(_) => 3
    case Returning(_, _) => 2
    case Settled(_) => 1
    case Refused(_) => 2
    case Withdrawn => 1
    case Lost => 0
  }

  ghost predicate NoNewCalls(run: seq<Action>) {
    forall a :: a in run ==> !a.Acquire?
  }

  // The ticket still has to be taken on by a worker.
  predicate NeedsWorker(phase: Phase) {
    phase.Admitted? || phase.Registered? || phase.Waiting?
  }

  predicate TicketStep(a: Action) {
    !a.Acquire? && !a.Clean?
  }

  // The step the ticket's thread takes next, whatever its operation's outcome. Only a job in
  // the queue depends on the others: it needs a worker that is free.
  lemma {:induction false} NextStep(c: Config, s: State, t: nat, now: real,
                                    outcomes: nat -> Outcome) returns (a: Action)
    requires Inv(c, s) && t in s.tickets && (s.tickets[t].Waiting? ==> |Busy(s.tickets)| < c.workers)
    ensures Enabled(c, s, a) && TicketStep(a) && !a.Refuse? && a.ticket == t
  {
    match s.tickets[t] {
      case Admitted =>
        var id := FreshId(s.records);
        a := Register(t, id, id, now);
      case Registered(_) => a := Enqueue(t);
      case Refused(id) => a := Withdraw(t);
      case Withdrawn => a := Release(t);
      case Waiting(_) => a := Start(t);
      case Started(id) => a := Begin(t, now);
      case Working(_) => a := Operate(t, outcomes(t));
      case Returning(_, _) => a := Settle(t, now);
      case Settled(_) => a := Release(t);
    }
  }

  predicate Nearer(before: Phase, after: Phase) {
    Remaining(after) < Remaining(before) && (NeedsWorker(after) ==> NeedsWorker(before))
  }

  // The ticket ends or comes nearer its end, and the others are left alone.
  ghost predicate Advances(before: map<nat, Phase>, after: map<nat, Phase>, t: nat) {
    && t in before
    && (after == before - {t} || (t in after && after == before[t := after[t]] && Nearer(before[t], after[t])))
  }

  lemma {:induction false} MovesOn(before: map<nat, Phase>, t: nat, phase: Phase)
    requires t in before && Nearer(before[t], phase)
    ensures Advances(before, before[t := phase], t)
  {
  }

  lemma {:induction false} RecordedStepAdvances(c: Config, s: State, a: Action)
    requires Inv(c, s) && Enabled(c, s, a) && (a.Withdraw? || a.Begin? || a.Settle?)
    ensures Advances(s.tickets, Next(c, s, a).tickets, a.ticket)
  {
    var t := a.ticket;
    var id := IdOf(s.tickets[t]);
    assert id in s.records && s.records[id].state == Expected(s.tickets[t]);
    MovesOn(s.tickets, t, if a.Withdraw? then Withdrawn else if a.Begin? then Working(id) else Settled(id));
  }

  // A ticket's own step, the executor's refusal included, ends it or brings it nearer its
  // end, and leaves the others alone.
  lemma {:induction false} StepAdvances(c: Config, s: State, a: Action)
    requires Inv(c, s) && Enabled(c, s, a) && TicketStep(a)
    ensures Advances(s.tickets, Next(c, s, a).tickets, a.ticket)
  {
    if a.Withdraw? || a.Begin? || a.Settle? {
      RecordedStepAdvances(c, s, a);
    } else if a.ticket in Next(c, s, a).tickets {
      MovesOn(s.tickets, a.ticket, Next(c, s, a).tickets[a.ticket]);
    }
  }

  lemma {:induction false} RunCons(c: Config, s: State, a: Action, rest: seq<Action>)
    requires Enabled(c, s, a) && IsRun(c, Next(c, s, a), rest)
    ensures IsRun(c, s, [a] + rest) && After(c, s, [a] + rest) == After(c, Next(c, s, a), rest)
  {
    assert ([a] + rest)[1..] == rest;
  }

  lemma {:induction false} RoomStays(c: Config, before: map<nat, Phase>, t: nat, phase: Phase)
    requires t in before && (OnWorker(phase) ==> OnWorker(before[t])) && |Busy(before)| < c.workers
    ensures |Busy(before[t := phase])| < c.workers
  {
    BusyShrinks(before, before[t := phase]);
  }

  lemma {:induction false} Advanced(c: Config, before: map<nat, Phase>, after: map<nat, Phase>, t: nat)
    requires Advances(before, after, t) && (NeedsWorker(before[t]) ==> |Busy(before)| < c.workers)
    ensures t !in after ==> after.Keys == before.Keys - {t}
    ensures t in after ==>
      && after.Keys == before.Keys && Remaining(after[t]) < Remaining(before[t])
      && (NeedsWorker(after[t]) ==> |Busy(after)| < c.workers)
  {
    if t in after && NeedsWorker(after[t]) {
      RoomStays(c, before, t, after[t]);
    }
  }

  // One own step of a ticket: it ends there, or comes nearer its end without losing its chance
  // of a worker.
  lemma {:induction false} OwnStep(c: Config, s: State, t: nat, now: real, outcomes: nat -> Outcome)
    returns (a: Action, next: State)
    requires Inv(c, s) && t in s.tickets && (NeedsWorker(s.tickets[t]) ==> |Busy(s.tickets)| < c.workers)
    ensures Enabled(c, s, a) && !a.Acquire? && next == Next(c, s, a) && Inv(c, next)
    ensures t !in next.tickets ==> next.tickets.Keys == s.tickets.Keys - {t}
    ensures t in next.tickets ==>
      && next.tickets.Keys == s.tickets.Keys && Remaining(next.tickets[t]) < Remaining(s.tickets[t])
      && (NeedsWorker(next.tickets[t]) ==> |Busy(next.tickets)| < c.workers)
  {
    a := NextStep(c, s, t, now, outcomes);
    next := Next(c, s, a);
    StepAdvances(c, s, a);
    StepKeepsInv(c, s, a);
    Advanced(c, s.tickets, next.tickets, t);
  }

  // A ticket can be run to its end by its own steps, if a worker is free or it needs none.
  lemma {:induction false} EndTicket(c: Config, s: State, t: nat, now: real, outcomes: nat -> Outcome)
    returns (run: seq<Action>)
    requires Inv(c, s) && t in s.tickets && (NeedsWorker(s.tickets[t]) ==> |Busy(s.tickets)| < c.workers)
    ensures IsRun(c, s, run) && NoNewCalls(run) && Inv(c, After(c, s, run))
    ensures After(c, s, run).tickets.Keys == s.tickets.Keys - {t}
    decreases Remaining(s.tickets[t])
  {
    var a, next := OwnStep(c, s, t, now, outcomes);
    var rest := [];
    if t in next.tickets {
      rest := EndTicket(c, next, t, now, outcomes);
    }
    RunCons(c, s, a, rest);
    run := [a] + rest;
  }

  // ---- every run drains ---------------------------------------------------------------

  // The steps all tickets together can still take.
  ghost function Load(tickets: map<nat, Phase>): nat {
    Sum(tickets.Keys, t => if t in tickets then Remaining(tickets[t]) else 0)
  }

  lemma {:induction false} LoadSplits(tickets: map<nat, Phase>, t: nat)
    requires t in tickets
    ensures Load(tickets) == Remaining(tickets[t]) + Load(tickets - {t})
  {
    var rest := tickets - {t};
    var f := u => if u in tickets then Remaining(tickets[u]) else 0;
    var g := u => if u in rest then Remaining(rest[u]) else 0;
    SumPick(tickets.Keys, f, t);
    assert rest.Keys == tickets.Keys - {t};
    SumSame(rest.Keys, f, g);
  }

  lemma {:induction false} LoadFalls(before: map<nat, Phase>, after: map<nat, Phase>, t: nat)
    requires t in before && !before[t].Lost?
    requires after == before - {t}
      || (t in after && after == before[t := after[t]] && Remaining(after[t]) < Remaining(before[t]))
    ensures Load(after) < Load(before)
  {
    LoadSplits(before, t);
    if t in after {
      LoadSplits(after, t);
      assert after - {t} == before - {t};
    }
  }

  // Every step of a thread, of whatever kind, uses up some of the load.
  lemma {:induction false} StepUsesLoad(c: Config, s: State, a: Action)
    requires Inv(c, s) && Enabled(c, s, a) && TicketStep(a)
    ensures Load(Next(c, s, a).tickets) < Load(s.tickets)
  {
    StepAdvances(c, s, a);
    LoadFalls(s.tickets, Next(c, s, a).tickets, a.ticket);
  }

  ghost function TicketSteps(run: seq<Action>): nat {
    if run == [] then 0 else (if TicketStep(run[0]) then 1 else 0) + TicketSteps(run[1..])
  }

  // Without new calls every run takes at most `Load` steps of the threads, however they
  // interleave and however often cleanup runs in between.
  lemma {:induction false} EveryRunIsBounded(c: Config, s: State, run: seq<Action>)
    requires Inv(c, s) && IsRun(c, s, run) && NoNewCalls(run)
    ensures TicketSteps(run) + Load(After(c, s, run).tickets) <= Load(s.tickets)
    decreases |run|
  {
    if run != [] {
      var a, rest := run[0], run[1..];
      assert a in run && forall b :: b in rest ==> b in run;
      StepKeepsInv(c, s, a);
      if TicketStep(a) {
        StepUsesLoad(c, s, a);
      }
      EveryRunIsBounded(c, Next(c, s, a), rest);
    }
  }

  // Nothing is left in flight: every permit is free and every remaining record is finished.
  ghost predicate Drained(c: Config, s: State) {
    && s.tickets == map[] && s.free == c.Capacity() && s.faults == 0
    && forall id :: id in s.records ==> Finished(s.records[id].state)
  }

  lemma {:induction false} EmptyIsDrained(c: Config, s: State)
    requires Inv(c, s) && s.tickets == map[]
    ensures Drained(c, s)
  {
    forall id | id in s.records ensures Finished(s.records[id].state) {
      assert !Answered(s.tickets, id);
    }
  }

  // A run can only come to rest drained: while a ticket is alive some thread can move.
  lemma {:induction false} RestIsDrained(c: Config, s: State)
    requires Inv(c, s)
    ensures Drained(c, s) <==> forall a :: TicketStep(a) ==> !Enabled(c, s, a)
  {
    if s.tickets == map[] {
      EmptyIsDrained(c, s);
    } else {
      var t :| t in s.tickets && (Busy(s.tickets) == {} || t in Busy(s.tickets));
      var a := NextStep(c, s, t, 0.0, _ => Raised);
      assert TicketStep(a) && Enabled(c, s, a);
    }
  }

  lemma {:induction false} FirstThenRest(first: seq<Action>, second: seq<Action>)
    requires first != []
    ensures first + second == [first[0]] + (first[1..] + second)
  {
  }

  lemma {:induction false} RunsCompose(c: Config, s: State, first: seq<Action>, second: seq<Action>)
    requires IsRun(c, s, first) && IsRun(c, After(c, s, first), second)
    ensures IsRun(c, s, first + second)
    ensures After(c, s, first + second) == After(c, After(c, s, first), second)
    decreases |first|
  {
    if first == [] {
      assert first + second == second;
    } else {
      var a, rest := first[0], first[1..];
      var next := Next(c, s, a);
      RunsCompose(c, next, rest, second);
      RunCons(c, s, a, rest + second);
      FirstThenRest(first, second);
    }
  }

  // From every reachable state the threads can run to the end, whatever their operations
  // return.
  lemma {:induction false} AlwaysDrains(c: Config, s: State, now: real, outcomes: nat -> Outcome)
    returns (run: seq<Action>)
    requires Inv(c, s)
    ensures IsRun(c, s, run) && NoNewCalls(run) && Drained(c, After(c, s, run))
    decreases |s.tickets.Keys|
  {
    if s.tickets == map[] {
      run := [];
      EmptyIsDrained(c, s);
    } else {
      var t :| t in s.tickets && (Busy(s.tickets) == {} || t in Busy(s.tickets));
      var first := EndTicket(c, s, t, now, outcomes);
      var middle := After(c, s, first);
      var second := AlwaysDrains(c, middle, now, outcomes);
      RunsCompose(c, s, first, second);
      run := first + second;
    }
  }

  // A full registry is the only thing that turns a submit away: an acquire is possible
  // exactly when fewer tickets than the capacity are alive.
  lemma {:induction false} AcquireExactlyWhenRoom(c: Config, s: State, t: nat)
    requires Inv(c, s) && t !in s.admitted
    ensures Enabled(c, s, Acquire(t)) <==> |s.tickets| < c.workers + c.queueCapacity
  {
  }
}
