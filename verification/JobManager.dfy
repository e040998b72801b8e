// The bounded job registry: its records, its permits and its operations, each undisturbed by
// other threads.
module JobManager {
  import opened Common

  type Id = string

  datatype JobState = Queued | Running | Succeeded | Failed

  // The one message the manager stores for a job that raised.
  datatype JobError = ProcessingFailed

  datatype Record = Record(
    id: Id, state: JobState, request: string, createdAt: real, updatedAt: real,
    result: Option<string>, error: Option<JobError>)

  type Records = map<Id, Record>

  predicate Finished(state: JobState) {
    state == Succeeded || state == Failed
  }

  predicate Allowed(from: JobState, to: JobState) {
    (from == Queued && to == Running) || (from == Running && Finished(to))
  }

  // ---- what each locked section computes -------------------------------------

  datatype Moved = Done(records: Records) | UnknownJob | InvalidTransition

  // A queued job may start running and a running one may end; nothing else may happen to it.
  ghost predicate MayMove(from: JobState, to: JobState) {
    match from
    case Queued => to == Running
    case Running => to == Succeeded || to == Failed
    case Succeeded => false
    case Failed => false
  }

  // The record as it was, but for its state, its time and its outcome.
  ghost predicate MovesOnly(before: Record, after: Record, to: JobState, now: real, result: Option<string>,
                            error: Option<JobError>)
  {
    && after.id == before.id && after.request == before.request && after.createdAt == before.createdAt
    && after.state == to && after.updatedAt == now && after.result == result && after.error == error
  }

  function Transitioned(records: Records, id: Id, to: JobState, now: real,
                        result: Option<string>, error: Option<JobError>): (moved: Moved)
    ensures moved.UnknownJob? <==> id !in records
    ensures moved.Done? <==> id in records && MayMove(records[id].state, to)
    ensures moved.Done? ==>
      && moved.records.Keys == records.Keys && MovesOnly(records[id], moved.records[id], to, now, result, error)
      && forall other :: other in records && other != id ==> moved.records[other] == records[other]
  {
    if id !in records then UnknownJob
    else if !Allowed(records[id].state, to) then InvalidTransition
    else Done(records[id := records[id].(state := to, updatedAt := now, result := result, error := error)])
  }

  // A job that waits and has no outcome yet.
  ghost predicate IsWaiting(record: Record, id: Id, request: string, now: real) {
    && record.id == id && record.request == request && record.state == Queued
    && record.createdAt == now == record.updatedAt && record.result == None && record.error == None
  }

  function NewRecord(id: Id, request: string, now: real): (record: Record)
    ensures IsWaiting(record, id, request, now)
  {
    Record(id, Queued, request, now, now, None, None)
  }

  predicate Ready(records: Records, id: Id) {
    id in records && records[id].state == Queued
  }

  // The record of a job that returned a result, or raised: only one of result and error is set.
  function FinalRecord(record: Record, result: Option<string>, now: real): Record {
    var error := if result.Some? then None else Some(ProcessingFailed);
    record.(state := if result.Some? then Succeeded else Failed, updatedAt := now, result := result, error := error)
  }

  predicate Expired(record: Record, cutoff: real) {
    record.updatedAt < cutoff && Finished(record.state)
  }

  ghost function Cleaned(records: Records, cutoff: real): Records {
    map id | id in records
      && !(records[id].updatedAt < cutoff && (records[id].state == Succeeded || records[id].state == Failed))
      :: records[id]
  }

  lemma {:induction false} InsertThenDelete(records: Records, id: Id, record: Record)
    requires id !in records
    ensures records[id := record] - {id} == records
  {
  }

  datatype Submission = Accepted(record: Record) | QueueFull | RegistryFull | ExecutorRefused

  // ---- the object ---------------------------------------------------------------

  class Manager {
    const capacity: nat
    const maxRecords: nat
    const retention: real
    var records: Records
    var free: nat

    constructor (workers: nat, queueCapacity: nat, maxRecords: nat, retention: real)
      requires workers > 0 && queueCapacity > 0 && maxRecords > 0
      ensures capacity == workers + queueCapacity && this.maxRecords == maxRecords
      ensures this.retention == retention && records == map[] && free == capacity
    {
      this.capacity := workers + queueCapacity;
      this.maxRecords := maxRecords;
      this.retention := retention;
      records := map[];
      free := workers + queueCapacity;
    }

    // Non-blocking acquire of one permit.
    method TryAcquire() returns (acquired: bool)
      modifies this`free
      ensures acquired <==> old(free) > 0
      ensures free == if acquired then old(free) - 1 else old(free)
    {
      acquired := free > 0;
      if acquired {
        free := free - 1;
      }
    }

    // The bounded semaphore refuses a release beyond its initial value.
    method Release() returns (raised: bool)
      modifies this`free
      ensures raised <==> old(free) >= capacity
      ensures free == if raised then old(free) else old(free) + 1
    {
      raised := free >= capacity;
      if !raised {
        free := free + 1;
      }
    }

    // The locked part of submit; `id` is the first generated token not in use.
    method Register(id: Id, request: string, now: real) returns (registered: bool, releaseRaised: bool)
      requires id !in records
      modifies this
      ensures registered <==> old(|records|) < maxRecords
      ensures registered ==> free == old(free) && !releaseRaised
      ensures registered ==> records == old(records)[id := NewRecord(id, request, now)]
      ensures !registered ==> records == old(records) && (releaseRaised <==> old(free) >= capacity)
      ensures !registered ==> free == if releaseRaised then old(free) else old(free) + 1
    {
      releaseRaised := false;
      registered := |records| < maxRecords;
      if !registered {
        releaseRaised := Release();
        return;
      }
      records := records[id := NewRecord(id, request, now)];
    }

    method DeleteRecord(id: Id) returns (raised: bool)
      modifies this`records
      ensures raised <==> id !in old(records)
      ensures records == old(records) - {id}
    {
      raised := id !in records;
      records := records - {id};
    }

    method Transition(id: Id, to: JobState, now: real, result: Option<string>, error: Option<JobError>)
      returns (outcome: Moved)
      modifies this`records
      ensures outcome == Transitioned(old(records), id, to, now, result, error)
      ensures records == if outcome.Done? then outcome.records else old(records)
    {
      outcome := Transitioned(records, id, to, now, result, error);
      if outcome.Done? {
        records := outcome.records;
      }
    }

    method DeleteAll(ids: set<Id>)
      modifies this`records
      ensures records == old(records) - ids
    {
      var left := ids;
      while left != {}
        invariant left <= ids && records == old(records) - (ids - left)
        decreases left
      {
        var id :| id in left;
        left := left - {id};
        records := records - {id};
      }
      assert ids - left == ids;
    }

    // Collect the expired ids, then delete them one by one.
    method Cleanup(now: real) returns (count: nat)
      modifies this`records
      ensures records == Cleaned(old(records), now - retention)
      ensures count == |old(records)| - |records|
    {
      var cutoff := now - retention;
      var expired := set id | id in records && Expired(records[id], cutoff);
      count := |expired|;
      DeleteAll(expired);
      assert records == Cleaned(old(records), cutoff);
      KeptPlusRemoved(old(records), expired);
    }

    // A whole submit, undisturbed: unless the job is accepted, nothing of it remains. It reads
    // the clock for its cleanup and again for the record.
    method Submit(id: Id, request: string, cleanedAt: real, now: real, executorAccepts: bool)
      returns (outcome: Submission)
      requires id !in Cleaned(records, cleanedAt - retention) && free <= capacity
      modifies this
      ensures var kept := Cleaned(old(records), cleanedAt - retention);
        && (outcome.Accepted? <==> old(free) > 0 && |kept| < maxRecords && executorAccepts)
        && (outcome.QueueFull? <==> old(free) == 0)
        && (outcome.RegistryFull? <==> old(free) > 0 && |kept| >= maxRecords)
        && (outcome.Accepted? ==>
              && IsWaiting(outcome.record, id, request, now) && outcome.record == NewRecord(id, request, now)
              && records == kept[id := outcome.record] && free == old(free) - 1)
        && (!outcome.Accepted? ==> records == kept && free == old(free))
    {
      var _ := Cleanup(cleanedAt);
      ghost var kept := records;
      var acquired := TryAcquire();
      if !acquired {
        return QueueFull;
      }
      var registered, _ := Register(id, request, now);
      if !registered {
        return RegistryFull;
      }
      if !executorAccepts {
        var _ := DeleteRecord(id);
        var _ := Release();
        InsertThenDelete(kept, id, NewRecord(id, request, now));
        return ExecutorRefused;
      }
      outcome := Accepted(NewRecord(id, request, now));
    }

    // A whole worker run, undisturbed. With a queued record it ends in the state the outcome
    // demands and gives its permit back; without one the first transition raises before the
    // `try`, and the permit stays taken.
    method Run(id: Id, result: Option<string>, begun: real, ended: real) returns (faulted: bool)
      modifies this
      ensures var ready := Ready(old(records), id);
        && (faulted <==> !ready || old(free) >= capacity)
        && (!ready ==> records == old(records) && free == old(free))
        && (ready ==>
              && free == (if old(free) < capacity then old(free) + 1 else old(free))
              && records == old(records)[id := FinalRecord(old(records)[id], result, ended)])
    {
      var moved := Transition(id, Running, begun, None, None);
      if !moved.Done? {
        return true;
      }
      if result.Some? {
        moved := Transition(id, Succeeded, ended, result, None);
      } else {
        moved := Transition(id, Failed, ended, None, Some(ProcessingFailed));
      }
      var raised := Release();
      faulted := raised || !moved.Done?;
    }

    // Cleanup, then look the job up.
    method Lookup(id: Id, now: real) returns (found: Option<Record>)
      modifies this`records
      ensures records == Cleaned(old(records), now - retention)
      ensures found == if id in records then Some(records[id]) else None
    {
      var _ := Cleanup(now);
      found := if id in records then Some(records[id]) else None;
    }
  }
}
