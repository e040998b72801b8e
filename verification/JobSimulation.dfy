// The undisturbed operations of the registry object are runs of the protocol: what the
// protocol proves about all interleavings speaks of the same calls.
module JobSimulation {
  import opened Common
  import opened JobManager
  import opened JobProtocol

  // `run` leads from s to `end`.
  ghost predicate Leads(c: Config, s: State, run: seq<Action>, end: State) {
    IsRun(c, s, run) && After(c, s, run) == end
  }

  lemma {:induction false} Stays(c: Config, s: State)
    ensures Leads(c, s, [], s)
  {
  }

  lemma {:induction false} ThenStep(c: Config, s: State, run: seq<Action>, middle: State, a: Action, end: State)
    requires Leads(c, s, run, middle) && Enabled(c, middle, a) && end == Next(c, middle, a)
    ensures Leads(c, s, run + [a], end)
  {
    RunCons(c, middle, a, []);
    assert [a] + [] == [a];
    RunsCompose(c, s, run, [a]);
  }

  // ---- submit ------------------------------------------------------------------------------

  ghost function CleanedState(c: Config, s: State, cleanedAt: real): State {
    s.(records := Cleaned(s.records, cleanedAt - c.retention))
  }

  // A call that acquired a permit and gave it back.
  ghost function TurnedAway(s: State, t: nat): State {
    s.(admitted := s.admitted + {t}, released := s.released + multiset{t})
  }

  ghost function QueuedState(s: State, t: nat, record: Record): State
    requires s.free > 0
  {
    s.(records := s.records[record.id := record], tickets := s.tickets[t := Waiting(record.id)],
       free := s.free - 1, admitted := s.admitted + {t})
  }

  // Where the protocol stands after a call with this outcome.
  ghost function SubmitEnd(c: Config, s: State, t: nat, cleanedAt: real, outcome: Submission): State
    requires outcome.Accepted? ==> s.free > 0
  {
    var kept := CleanedState(c, s, cleanedAt);
    match outcome
    case QueueFull => kept
    case RegistryFull => TurnedAway(kept, t)
    case ExecutorRefused => TurnedAway(kept, t)
    case Accepted(record) => QueuedState(kept, t, record)
  }

  lemma {:induction false} AddedThenRemoved(tickets: map<nat, Phase>, t: nat, phase: Phase)
    requires t !in tickets
    ensures tickets[t := phase] - {t} == tickets
  {
  }

  lemma {:induction false} CleanedRun(c: Config, s: State, cleanedAt: real)
    ensures Leads(c, s, [Clean(cleanedAt)], CleanedState(c, s, cleanedAt))
  {
    Stays(c, s);
    ThenStep(c, s, [], s, Clean(cleanedAt), CleanedState(c, s, cleanedAt));
    assert [] + [Clean(cleanedAt)] == [Clean(cleanedAt)];
  }

  ghost function AdmittedState(s: State, t: nat): State
    requires s.free > 0
  {
    At(s, t, Admitted).(free := s.free - 1, admitted := s.admitted + {t})
  }

  lemma {:induction false} AdmittedRun(c: Config, s: State, t: nat, cleanedAt: real) returns (run: seq<Action>)
    requires t !in s.tickets && t !in s.admitted && s.free > 0
    ensures Leads(c, s, run, AdmittedState(CleanedState(c, s, cleanedAt), t))
  {
    var kept := CleanedState(c, s, cleanedAt);
    CleanedRun(c, s, cleanedAt);
    ThenStep(c, s, [Clean(cleanedAt)], kept, Acquire(t), AdmittedState(kept, t));
    run := [Clean(cleanedAt)] + [Acquire(t)];
  }

  ghost function RegisteredState(s: State, t: nat, record: Record): State
    requires s.free > 0
  {
    At(AdmittedState(s, t), t, Registered(record.id)).(records := s.records[record.id := record])
  }

  lemma {:induction false} RegisterOrNot(c: Config, s: State, t: nat, id: Id, request: string, now: real)
    requires t !in s.tickets && 0 < s.free <= c.Capacity() && id !in s.records
    ensures var admitted, register := AdmittedState(s, t), Register(t, id, request, now);
      && Enabled(c, admitted, register)
      && Next(c, admitted, register)
      == if |s.records| >= c.maxRecords then TurnedAway(s, t) else RegisteredState(s, t, NewRecord(id, request, now))
  {
    AddedThenRemoved(s.tickets, t, Admitted);
  }

  ghost function WithdrawnState(s: State, t: nat): State
    requires s.free > 0
  {
    At(AdmittedState(s, t), t, Withdrawn)
  }

  lemma {:induction false} WithdrawnRun(c: Config, s: State, t: nat, record: Record) returns (run: seq<Action>)
    requires s.free > 0 && record.id !in s.records
    ensures Leads(c, RegisteredState(s, t, record), run, WithdrawnState(s, t))
  {
    var registered := RegisteredState(s, t, record);
    var refused, withdrawn := At(registered, t, Refused(record.id)), WithdrawnState(s, t);
    Stays(c, registered);
    ThenStep(c, registered, [], registered, Refuse(t), refused);
    assert refused.records - {record.id} == s.records;
    assert refused.tickets[t := Withdrawn] == withdrawn.tickets;
    ThenStep(c, registered, [] + [Refuse(t)], refused, Withdraw(t), withdrawn);
    run := [] + [Refuse(t)] + [Withdraw(t)];
  }

  // The refused job leaves the queue, its record goes and its permit comes back.
  lemma {:induction false} RefusedRun(c: Config, s: State, t: nat, record: Record) returns (run: seq<Action>)
    requires t !in s.tickets && 0 < s.free <= c.Capacity() && record.id !in s.records
    ensures Leads(c, RegisteredState(s, t, record), run, TurnedAway(s, t))
  {
    var withdrawn := WithdrawnState(s, t);
    run := WithdrawnRun(c, s, t, record);
    assert withdrawn.tickets - {t} == s.tickets;
    ThenStep(c, RegisteredState(s, t, record), run, withdrawn, Release(t), TurnedAway(s, t));
    run := run + [Release(t)];
  }

  lemma {:induction false} AcceptedRun(c: Config, s: State, t: nat, record: Record) returns (run: seq<Action>)
    requires s.free > 0
    ensures Leads(c, RegisteredState(s, t, record), run, QueuedState(s, t, record))
  {
    var registered := RegisteredState(s, t, record);
    Stays(c, registered);
    assert registered.tickets[t := Waiting(record.id)] == s.tickets[t := Waiting(record.id)];
    ThenStep(c, registered, [], registered, Enqueue(t), QueuedState(s, t, record));
    run := [] + [Enqueue(t)];
  }

  lemma {:induction false} Onward(c: Config, s: State, first: seq<Action>, middle: State, second: seq<Action>,
                                  end: State)
    requires Leads(c, s, first, middle) && Leads(c, middle, second, end)
    ensures Leads(c, s, first + second, end)
  {
    RunsCompose(c, s, first, second);
  }

  lemma {:induction false} RegisteredRun(c: Config, s: State, kept: State, t: nat, id: Id, request: string,
                                         cleanedAt: real, now: real)
    returns (run: seq<Action>)
    requires t !in s.tickets && t !in s.admitted && 0 < s.free <= c.Capacity()
    requires kept == CleanedState(c, s, cleanedAt) && id !in kept.records
    ensures Leads(c, s, run,
                  if |kept.records| >= c.maxRecords then TurnedAway(kept, t)
                  else RegisteredState(kept, t, NewRecord(id, request, now)))
  {
    run := AdmittedRun(c, s, t, cleanedAt);
    RegisterOrNot(c, kept, t, id, request, now);
    var admitted, register := AdmittedState(kept, t), Register(t, id, request, now);
    ThenStep(c, s, run, admitted, register, Next(c, admitted, register));
    run := run + [register];
  }

  lemma {:induction false} HandedOverRun(c: Config, s: State, t: nat, record: Record, accepted: bool)
    returns (run: seq<Action>)
    requires t !in s.tickets && 0 < s.free <= c.Capacity() && record.id !in s.records
    ensures Leads(c, RegisteredState(s, t, record), run,
                  if accepted then QueuedState(s, t, record) else TurnedAway(s, t))
  {
    if accepted {
      run := AcceptedRun(c, s, t, record);
    } else {
      run := RefusedRun(c, s, t, record);
    }
  }

  // The steps of one call of submit that no other thread interrupts.
  lemma {:induction false} SubmitRun(c: Config, s: State, t: nat, id: Id, request: string, cleanedAt: real, now: real,
                                     outcome: Submission)
    returns (run: seq<Action>)
    requires t !in s.tickets && t !in s.admitted && s.free <= c.Capacity()
    requires var kept := Cleaned(s.records, cleanedAt - c.retention);
      && id !in kept
      && (outcome.QueueFull? <==> s.free == 0)
      && (outcome.RegistryFull? <==> s.free > 0 && |kept| >= c.maxRecords)
      && (outcome.Accepted? ==> outcome.record == NewRecord(id, request, now))
    ensures Leads(c, s, run, SubmitEnd(c, s, t, cleanedAt, outcome))
  {
    var kept := CleanedState(c, s, cleanedAt);
    if outcome.QueueFull? {
      CleanedRun(c, s, cleanedAt);
      run := [Clean(cleanedAt)];
    } else {
      run := RegisteredRun(c, s, kept, t, id, request, cleanedAt, now);
      if !outcome.RegistryFull? {
        var record, end := NewRecord(id, request, now), SubmitEnd(c, s, t, cleanedAt, outcome);
        var rest := HandedOverRun(c, kept, t, record, outcome.Accepted?);
        Onward(c, s, run, RegisteredState(kept, t, record), rest, end);
        run := run + rest;
      }
    }
  }

  // ---- run -----------------------------------------------------------------------------------

  function Ending(result: Option<string>): Outcome {
    if result.Some? then Returned(result.value) else Raised
  }

  // Where the protocol stands after a worker's run: without a queued record the worker is gone
  // and keeps the permit.
  ghost function RunEnd(c: Config, s: State, t: nat, id: Id, result: Option<string>, ended: real): State {
    if Ready(s.records, id)
    then Freed(c, s.(records := s.records[id := FinalRecord(s.records[id], result, ended)]), t)
    else At(s, t, Lost).(faults := s.faults + 1)
  }

  ghost function WorkingState(s: State, t: nat, id: Id, begun: real): State
    requires Ready(s.records, id)
  {
    var record := s.records[id].(state := Running, updatedAt := begun, result := None, error := None);
    At(s, t, Working(id)).(records := s.records[id := record])
  }

  lemma {:induction false} BegunRun(c: Config, s: State, t: nat, id: Id, begun: real) returns (run: seq<Action>)
    requires t in s.tickets && s.tickets[t] == Waiting(id) && |Busy(s.tickets)| < c.workers
    ensures Leads(c, s, run, if Ready(s.records, id) then WorkingState(s, t, id, begun)
                             else At(s, t, Lost).(faults := s.faults + 1))
  {
    var started := At(s, t, Started(id));
    Stays(c, s);
    ThenStep(c, s, [], s, Start(t), started);
    var next := Next(c, started, Begin(t, begun));
    assert next.tickets == s.tickets[t := next.tickets[t]];
    ThenStep(c, s, [] + [Start(t)], started, Begin(t, begun), next);
    run := [] + [Start(t)] + [Begin(t, begun)];
  }

  ghost function SettledState(s: State, t: nat, id: Id, result: Option<string>, ended: real): State
    requires Ready(s.records, id)
  {
    At(s, t, Settled(id)).(records := s.records[id := FinalRecord(s.records[id], result, ended)])
  }

  lemma {:induction false} SettledRun(c: Config, s: State, t: nat, id: Id, result: Option<string>, begun: real,
                                      ended: real)
    returns (run: seq<Action>)
    requires Ready(s.records, id)
    ensures Leads(c, WorkingState(s, t, id, begun), run, SettledState(s, t, id, result, ended))
  {
    var working := WorkingState(s, t, id, begun);
    var back := At(working, t, Returning(id, Ending(result)));
    Stays(c, working);
    ThenStep(c, working, [], working, Operate(t, Ending(result)), back);
    var settled := SettledState(s, t, id, result, ended);
    assert back.tickets[t := Settled(id)] == settled.tickets;
    var last := FinalRecord(s.records[id], result, ended);
    assert back.records[id := last] == settled.records;
    ThenStep(c, working, [] + [Operate(t, Ending(result))], back, Settle(t, ended), settled);
    run := [] + [Operate(t, Ending(result))] + [Settle(t, ended)];
  }

  // The steps of one job on its worker, from the queue to its release.
  lemma {:induction false} JobRun(c: Config, s: State, t: nat, id: Id, result: Option<string>, begun: real, ended: real)
    returns (run: seq<Action>)
    requires t in s.tickets && s.tickets[t] == Waiting(id) && |Busy(s.tickets)| < c.workers
    ensures Leads(c, s, run, RunEnd(c, s, t, id, result, ended))
  {
    run := BegunRun(c, s, t, id, begun);
    if Ready(s.records, id) {
      var rest := SettledRun(c, s, t, id, result, begun, ended);
      var settled := SettledState(s, t, id, result, ended);
      Onward(c, s, run, WorkingState(s, t, id, begun), rest, settled);
      run := run + rest;
      var end := RunEnd(c, s, t, id, result, ended);
      assert settled.tickets - {t} == s.tickets - {t};
      ThenStep(c, s, run, settled, Release(t), end);
      run := run + [Release(t)];
    }
  }

  // ---- the object and the protocol ---------------------------------------------------------------

  // The object holds what the protocol says it holds.
  ghost predicate Matches(m: Manager, c: Config, s: State)
    reads m
  {
    && m.capacity == c.Capacity() && m.maxRecords == c.maxRecords && m.retention == c.retention
    && m.records == s.records && m.free == s.free
  }

  // A whole submit takes the object where a run of the protocol takes its state.
  method SubmitFollowsProtocol(m: Manager, ghost c: Config, ghost s: State, ghost t: nat, id: Id, request: string,
                               cleanedAt: real, now: real, executorAccepts: bool)
    returns (outcome: Submission, ghost run: seq<Action>, ghost end: State)
    requires Matches(m, c, s) && t !in s.tickets && t !in s.admitted && s.free <= c.Capacity()
    requires id !in Cleaned(s.records, cleanedAt - c.retention)
    modifies m
    ensures Leads(c, s, run, end) && Matches(m, c, end) && end.faults == s.faults
    ensures end.tickets == if outcome.Accepted? then s.tickets[t := Waiting(id)] else s.tickets
  {
    outcome := m.Submit(id, request, cleanedAt, now, executorAccepts);
    run := SubmitRun(c, s, t, id, request, cleanedAt, now, outcome);
    end := SubmitEnd(c, s, t, cleanedAt, outcome);
  }

  // So does a whole run of a job by a worker, which raises exactly when the protocol's thread does.
  method RunFollowsProtocol(m: Manager, ghost c: Config, ghost s: State, ghost t: nat, id: Id, result: Option<string>,
                            begun: real, ended: real)
    returns (faulted: bool, ghost run: seq<Action>, ghost end: State)
    requires Matches(m, c, s) && t in s.tickets && s.tickets[t] == Waiting(id) && |Busy(s.tickets)| < c.workers
    modifies m
    ensures Leads(c, s, run, end) && Matches(m, c, end) && (faulted <==> end.faults > s.faults)
    ensures end.tickets == if Ready(s.records, id) then s.tickets - {t} else s.tickets[t := Lost]
  {
    faulted := m.Run(id, result, begun, ended);
    run := JobRun(c, s, t, id, result, begun, ended);
    end := RunEnd(c, s, t, id, result, ended);
  }
}
