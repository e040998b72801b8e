// The executor's threads. A hand-over that finds no idle worker starts a thread; when that
// fails, the executor has queued the job and raises all the same. Submit then rolls back while
// a worker may still run the job.
module JobStranding {
  import opened Common
  import opened JobManager
  import opened JobProtocol

  // The registry and the number of live worker threads.
  datatype Pool = Pool(jobs: State, threads: nat)

  // An ordinary step, a hand-over that starts a thread, or one that fails to start a thread:
  // it queues the job, as `copy`, and raises.
  datatype Step = Ordinary(action: Action) | Hire(ticket: nat) | Strand(ticket: nat, copy: nat)

  ghost predicate Idle(p: Pool) {
    |Busy(p.jobs.tickets)| < p.threads
  }

  // Only a live thread can take a job on. Whether a hand-over finds the worker that has just
  // become idle is left open.
  ghost predicate CanStep(c: Config, p: Pool, step: Step) {
    match step
    case Ordinary(a) =>
      && Enabled(c, p.jobs, a) && (a.Start? ==> Idle(p))
      && (a.Enqueue? ==> Idle(p) || p.threads == c.workers)
    case Hire(t) => Enabled(c, p.jobs, Enqueue(t)) && p.threads < c.workers
    case Strand(t, u) =>
      Enabled(c, p.jobs, Enqueue(t)) && p.threads < c.workers && u !in p.jobs.tickets && u !in p.jobs.admitted
  }

  ghost function Stepped(c: Config, p: Pool, step: Step): Pool
    requires CanStep(c, p, step)
  {
    match step
    case Ordinary(a) => Pool(Next(c, p.jobs, a), p.threads)
    case Hire(t) => Pool(Next(c, p.jobs, Enqueue(t)), p.threads + 1)
    case Strand(t, u) =>
      var id := p.jobs.tickets[t].id;
      Pool(p.jobs.(tickets := p.jobs.tickets[t := Refused(id)][u := Waiting(id)]), p.threads)
  }

  function NewPool(c: Config): Pool {
    Pool(Initial(c), 0)
  }

  ghost predicate CanRun(c: Config, from: Pool, run: seq<Step>)
    decreases |run|
  {
    run == [] || (CanStep(c, from, run[0]) && CanRun(c, Stepped(c, from, run[0]), run[1..]))
  }

  ghost function Reached(c: Config, from: Pool, run: seq<Step>): Pool
    requires CanRun(c, from, run)
    decreases |run|
  {
    if run == [] then from else Reached(c, Stepped(c, from, run[0]), run[1..])
  }

  // ---- without stranding -----------------------------------------------------------------

  ghost predicate NeverStrands(run: seq<Step>) {
    forall step :: step in run ==> !step.Strand?
  }

  ghost predicate JobsQueue(tickets: map<nat, Phase>) {
    exists t :: t in tickets && tickets[t].Waiting?
  }

  // The protocol's invariant, and enough threads for what is running and what is queued.
  ghost predicate PoolInv(c: Config, p: Pool) {
    && Inv(c, p.jobs) && |Busy(p.jobs.tickets)| <= p.threads <= c.workers
    && (JobsQueue(p.jobs.tickets) ==> p.threads > 0)
  }

  lemma {:induction false} NewPoolInv(c: Config)
    requires c.Valid()
    ensures PoolInv(c, NewPool(c))
  {
    InitiallyInv(c);
    assert Busy(map[]) == {};
  }

  // Only a start occupies a worker, and only a hand-over lengthens the queue.
  lemma {:induction false} OnlyStartsOccupy(c: Config, s: State, a: Action)
    requires Enabled(c, s, a)
    ensures var after := Next(c, s, a).tickets;
      if a.Start? then Busy(after) <= Busy(s.tickets) + {a.ticket} else Busy(after) <= Busy(s.tickets)
  {
  }

  lemma {:induction false} OnlyHandOversQueue(c: Config, s: State, a: Action)
    requires Enabled(c, s, a) && !a.Enqueue? && JobsQueue(Next(c, s, a).tickets)
    ensures JobsQueue(s.tickets)
  {
  }

  lemma {:induction false} AtMostOneMore(c: Config, s: State, a: Action)
    requires Enabled(c, s, a)
    ensures |Busy(Next(c, s, a).tickets)| <= |Busy(s.tickets)| + if a.Start? then 1 else 0
  {
    var before, after := Busy(s.tickets), Busy(Next(c, s, a).tickets);
    OnlyStartsOccupy(c, s, a);
    SubsetCardinality(after, if a.Start? then before + {a.ticket} else before);
  }

  lemma {:induction false} StepKeepsPoolInv(c: Config, p: Pool, step: Step)
    requires PoolInv(c, p) && CanStep(c, p, step) && !step.Strand?
    ensures PoolInv(c, Stepped(c, p, step))
  {
    var a := if step.Hire? then Enqueue(step.ticket) else step.action;
    StepKeepsInv(c, p.jobs, a);
    AtMostOneMore(c, p.jobs, a);
    if !a.Enqueue? && JobsQueue(Next(c, p.jobs, a).tickets) {
      OnlyHandOversQueue(c, p.jobs, a);
    }
  }

  // Without stranding this is the protocol, and its invariant holds throughout.
  lemma {:induction false} RunKeepsPoolInv(c: Config, from: Pool, run: seq<Step>)
    requires PoolInv(c, from) && CanRun(c, from, run) && NeverStrands(run)
    ensures PoolInv(c, Reached(c, from, run))
    decreases |run|
  {
    if run != [] {
      assert run[0] in run && forall step :: step in run[1..] ==> step in run;
      StepKeepsPoolInv(c, from, run[0]);
      RunKeepsPoolInv(c, Stepped(c, from, run[0]), run[1..]);
    }
  }

  // Some thread can go on with a job.
  ghost predicate CanProceed(c: Config, p: Pool) {
    exists step: Step :: !step.Strand? && (step.Ordinary? ==> TicketStep(step.action)) && CanStep(c, p, step)
  }

  // However few threads were started, the pool only comes to rest with nothing in flight.
  lemma {:induction false} PoolRestIsDrained(c: Config, p: Pool)
    requires PoolInv(c, p)
    ensures Drained(c, p.jobs) <==> !CanProceed(c, p)
  {
    var s := p.jobs;
    if s.tickets == map[] {
      EmptyIsDrained(c, s);
    } else {
      var t :| t in s.tickets && (Busy(s.tickets) == {} || t in Busy(s.tickets));
      var a := NextStep(c, s, t, 0.0, _ => Raised);
      var step := if a.Enqueue? && p.threads < c.workers then Hire(t) else Ordinary(a);
      assert a.Start? ==> JobsQueue(s.tickets);
      assert CanStep(c, p, step);
    }
  }

  // ---- with stranding ------------------------------------------------------------------------

  lemma {:induction false} RunOn(c: Config, p: Pool, step: Step, rest: seq<Step>)
    requires CanStep(c, p, step) && CanRun(c, Stepped(c, p, step), rest)
    ensures CanRun(c, p, [step] + rest) && Reached(c, p, [step] + rest) == Reached(c, Stepped(c, p, step), rest)
  {
    assert ([step] + rest)[1..] == rest;
  }

  lemma {:induction false} FirstThenRest(first: seq<Step>, second: seq<Step>)
    requires first != []
    ensures first + second == [first[0]] + (first[1..] + second)
  {
  }

  lemma {:induction false} Compose(c: Config, p: Pool, first: seq<Step>, second: seq<Step>)
    requires CanRun(c, p, first) && CanRun(c, Reached(c, p, first), second)
    ensures CanRun(c, p, first + second)
    ensures Reached(c, p, first + second) == Reached(c, Reached(c, p, first), second)
    decreases |first|
  {
    if first == [] {
      assert first + second == second;
    } else {
      var next := Stepped(c, p, first[0]);
      Compose(c, next, first[1..], second);
      RunOn(c, p, first[0], first[1..] + second);
      FirstThenRest(first, second);
    }
  }

  lemma {:induction false} OneStep(c: Config, p: Pool, step: Step, next: Pool)
    requires CanStep(c, p, step) && next == Stepped(c, p, step)
    ensures CanRun(c, p, [step]) && Reached(c, p, [step]) == next
  {
    assert [step] + [] == [step];
    RunOn(c, p, step, []);
  }

  // `run` leads from p to `end`.
  ghost predicate Leads(c: Config, p: Pool, run: seq<Step>, end: Pool) {
    CanRun(c, p, run) && Reached(c, p, run) == end
  }

  lemma {:induction false} Onward(c: Config, p: Pool, first: seq<Step>, middle: Pool, second: seq<Step>, end: Pool)
    requires Leads(c, p, first, middle) && Leads(c, middle, second, end)
    ensures Leads(c, p, first + second, end)
  {
    Compose(c, p, first, second);
  }

  lemma {:induction false} ThenStep(c: Config, p: Pool, run: seq<Step>, middle: Pool, step: Step, end: Pool)
    requires Leads(c, p, run, middle) && CanStep(c, middle, step) && end == Stepped(c, middle, step)
    ensures Leads(c, p, run + [step], end)
  {
    OneStep(c, middle, step, end);
    Onward(c, p, run, middle, [step], end);
  }

  ghost function RolledBack(p: Pool, t: nat, id: Id): Pool {
    var s := p.jobs;
    p.(jobs := s.(records := s.records - {id}, tickets := s.tickets - {t}, free := s.free + 1,
                  released := s.released + multiset{t}))
  }

  // The rollback deletes the record of the stranded job and gives the permit back, wherever the
  // queued copy stands.
  lemma {:induction false} RollbackLeavesCopy(c: Config, p: Pool, t: nat, u: nat, id: Id) returns (run: seq<Step>)
    requires t in p.jobs.tickets && p.jobs.tickets[t] == Refused(id) && id in p.jobs.records
    requires u in p.jobs.tickets && u != t && p.jobs.free < c.Capacity()
    ensures Leads(c, p, run, RolledBack(p, t, id))
    ensures var end := RolledBack(p, t, id).jobs;
      u in end.tickets && end.tickets[u] == p.jobs.tickets[u] && id !in end.records
  {
    var s := p.jobs;
    var gone := p.(jobs := At(s, t, Withdrawn).(records := s.records - {id}));
    OneStep(c, p, Ordinary(Withdraw(t)), gone);
    assert gone.jobs.tickets - {t} == s.tickets - {t};
    ThenStep(c, p, [Ordinary(Withdraw(t))], gone, Ordinary(Action.Release(t)), RolledBack(p, t, id));
    run := [Ordinary(Withdraw(t))] + [Ordinary(Action.Release(t))];
  }

  ghost function Submitted(p: Pool, v: nat, id: Id, now: real): Pool
    requires p.jobs.free > 0
  {
    var s := p.jobs;
    Pool(s.(records := s.records[id := NewRecord(id, id, now)], tickets := s.tickets[v := Waiting(id)],
            free := s.free - 1, admitted := s.admitted + {v}), p.threads + 1)
  }

  // Another call of submit starts the thread that the stranding one could not start.
  lemma {:induction false} SubmitHires(c: Config, p: Pool, v: nat, id: Id, now: real) returns (run: seq<Step>)
    requires v !in p.jobs.tickets && v !in p.jobs.admitted && p.jobs.free > 0 && id !in p.jobs.records
    requires |p.jobs.records| < c.maxRecords && p.threads < c.workers
    requires |Busy(p.jobs.tickets)| <= p.threads
    ensures Leads(c, p, run, Submitted(p, v, id, now)) && Idle(Submitted(p, v, id, now))
  {
    var s, register := p.jobs, Action.Register(v, id, id, now);
    var admitted := p.(jobs := Next(c, s, Acquire(v)));
    OneStep(c, p, Ordinary(Acquire(v)), admitted);
    var registered := p.(jobs := Next(c, admitted.jobs, register));
    ThenStep(c, p, [Ordinary(Acquire(v))], admitted, Ordinary(register), registered);
    var end := Submitted(p, v, id, now);
    assert end.jobs.tickets == s.tickets[v := Admitted][v := Registered(id)][v := Waiting(id)];
    assert end == Stepped(c, registered, Hire(v));
    ThenStep(c, p, [Ordinary(Acquire(v))] + [Ordinary(register)], registered, Hire(v), end);
    run := [Ordinary(Acquire(v))] + [Ordinary(register)] + [Hire(v)];
    BusyShrinks(s.tickets, end.jobs.tickets);
  }

  ghost function TakenOn(p: Pool, u: nat, id: Id, now: real): Pool {
    var moved := Transitioned(p.jobs.records, id, Running, now, None, None);
    if moved.Done? then p.(jobs := At(p.jobs, u, Working(id)).(records := moved.records))
    else p.(jobs := At(p.jobs, u, Lost).(faults := p.jobs.faults + 1))
  }

  // A worker takes the queued copy on; without a record its first transition raises.
  lemma {:induction false} CopyIsTakenOn(c: Config, p: Pool, u: nat, id: Id, now: real) returns (run: seq<Step>)
    requires u in p.jobs.tickets && p.jobs.tickets[u] == Waiting(id) && Idle(p) && p.threads <= c.workers
    ensures Leads(c, p, run, TakenOn(p, u, id, now))
  {
    var started := p.(jobs := At(p.jobs, u, Started(id)));
    OneStep(c, p, Ordinary(Start(u)), started);
    var end := TakenOn(p, u, id, now);
    assert started.jobs.tickets[u := end.jobs.tickets[u]] == p.jobs.tickets[u := end.jobs.tickets[u]];
    assert end == Stepped(c, started, Ordinary(Begin(u, now)));
    ThenStep(c, p, [Ordinary(Start(u))], started, Ordinary(Begin(u, now)), end);
    run := [Ordinary(Start(u))] + [Ordinary(Begin(u, now))];
  }

  lemma {:induction false} OperationEnds(c: Config, p: Pool, u: nat, id: Id, now: real)
    returns (run: seq<Step>, end: Pool)
    requires u in p.jobs.tickets && p.jobs.tickets[u] == Working(id) && id !in p.jobs.records
    ensures end == p.(jobs := At(p.jobs, u, Settled(id)).(faults := p.jobs.faults + 1))
    ensures Leads(c, p, run, end)
  {
    var back := p.(jobs := At(p.jobs, u, Returning(id, Raised)));
    OneStep(c, p, Ordinary(Operate(u, Raised)), back);
    end := p.(jobs := At(p.jobs, u, Settled(id)).(faults := p.jobs.faults + 1));
    assert back.jobs.tickets[u := Settled(id)] == p.jobs.tickets[u := Settled(id)];
    ThenStep(c, p, [Ordinary(Operate(u, Raised))], back, Ordinary(Settle(u, now)), end);
    run := [Ordinary(Operate(u, Raised))] + [Ordinary(Settle(u, now))];
  }

  // The job's last transition raises, and its release comes on top of the rollback's.
  lemma {:induction false} JobEndsWithoutRecord(c: Config, p: Pool, u: nat, id: Id, now: real)
    returns (run: seq<Step>, end: Pool)
    requires u in p.jobs.tickets && p.jobs.tickets[u] == Working(id) && id !in p.jobs.records
    ensures Leads(c, p, run, end) && end.threads == p.threads
    ensures end.jobs.faults > p.jobs.faults && end.jobs.admitted == p.jobs.admitted
    ensures if p.jobs.free < c.Capacity()
            then end.jobs.free == p.jobs.free + 1 && end.jobs.released == p.jobs.released + multiset{u}
            else end.jobs.free == p.jobs.free && end.jobs.released == p.jobs.released
                 && end.jobs.faults > p.jobs.faults + 1
  {
    var over, settled := OperationEnds(c, p, u, id, now);
    end := p.(jobs := Freed(c, settled.jobs, u));
    ThenStep(c, p, over, settled, Ordinary(Action.Release(u)), end);
    run := over + [Ordinary(Action.Release(u))];
  }

  lemma {:induction false} Unused(taken: set<nat>) returns (n: nat)
    ensures forall t :: t in taken ==> t < n
    decreases |taken|
  {
    if taken == {} {
      n := 0;
    } else {
      var t :| t in taken;
      var m := Unused(taken - {t});
      n := if t < m then m else t + 1;
      assert taken == (taken - {t}) + {t};
    }
  }

  // Where a stranded job stands before anything else happens: its submit is about to roll back,
  // and its record still waits for a worker.
  ghost predicate Stranded(c: Config, p: Pool, t: nat, u: nat, id: Id) {
    && t in p.jobs.tickets && p.jobs.tickets[t] == Refused(id) && p.jobs.free < c.Capacity()
    && u in p.jobs.tickets && p.jobs.tickets[u] == Waiting(id) && u !in p.jobs.admitted && u != t
    && id in p.jobs.records && p.jobs.records[id].state == Queued
  }

  lemma {:induction false} PermitTaken(c: Config, s: State, t: nat)
    requires Inv(c, s) && t in s.tickets
    ensures s.free < c.Capacity() && t in s.admitted && s.released[t] == 0
  {
    assert t in s.tickets.Keys;
    assert |s.tickets| == |s.tickets.Keys|;
  }

  lemma {:induction false} NobodyBusier(tickets: map<nat, Phase>, t: nat, u: nat, id: Id)
    requires t in tickets && tickets[t].Registered? && u !in tickets
    ensures var after := tickets[t := Refused(id)][u := Waiting(id)];
      after.Keys == tickets.Keys + {u} && Busy(after) == Busy(tickets)
  {
  }

  lemma {:induction false} StrandStrands(c: Config, p: Pool, t: nat, u: nat, id: Id)
    requires PoolInv(c, p) && CanStep(c, p, Strand(t, u)) && id == p.jobs.tickets[t].id
    ensures var next := Stepped(c, p, Strand(t, u));
      && Stranded(c, next, t, u, id) && Busy(next.jobs.tickets) == Busy(p.jobs.tickets)
      && next.jobs.tickets.Keys <= p.jobs.admitted + {u}
  {
    PermitTaken(c, p.jobs, t);
    assert IdOf(p.jobs.tickets[t]) in p.jobs.records;
    NobodyBusier(p.jobs.tickets, t, u, id);
  }

  lemma {:induction false} RecordGone(records: Records, id: Id)
    requires id in records
    ensures |records - {id}| < |records|
  {
    KeptPlusRemoved(records, {id});
  }

  // Wherever a job can be stranded, the registry can run into an internal exception: the next
  // submit starts the missing thread, which takes on a job that has no record any more.
  lemma {:induction false} StrandedJobFaults(c: Config, p: Pool, t: nat, u: nat, now: real) returns (run: seq<Step>)
    requires PoolInv(c, p) && CanStep(c, p, Strand(t, u))
    ensures CanRun(c, p, [Strand(t, u)] + run)
    ensures Reached(c, p, [Strand(t, u)] + run).jobs.faults > 0
  {
    var id, strand := p.jobs.tickets[t].id, Strand(t, u);
    var p1 := Stepped(c, p, strand);
    StrandStrands(c, p, t, u, id);
    var rollback := RollbackLeavesCopy(c, p1, t, u, id);
    var p2 := RolledBack(p1, t, id);
    var v := Unused(p.jobs.admitted + {u});
    var other := FreshId(p1.jobs.records);
    RecordGone(p1.jobs.records, id);
    BusyShrinks(p1.jobs.tickets, p2.jobs.tickets);
    var submit := SubmitHires(c, p2, v, other, now);
    var p3 := Submitted(p2, v, other, now);
    var copy := CopyIsTakenOn(c, p3, u, id, now);
    var end := TakenOn(p3, u, id, now);
    Onward(c, p2, submit, p3, copy, end);
    Onward(c, p1, rollback, p2, submit + copy, end);
    run := rollback + (submit + copy);
    RunOn(c, p, strand, run);
  }

  // A worker takes the copy on before the rollback.
  lemma {:induction false} CopyOutlivesRollback(c: Config, p: Pool, t: nat, u: nat, id: Id, now: real)
    returns (run: seq<Step>, end: Pool)
    requires Stranded(c, p, t, u, id) && Idle(p) && p.threads <= c.workers
    ensures Leads(c, p, run, end) && end.jobs.faults > p.jobs.faults && end.jobs.admitted == p.jobs.admitted
    ensures end.jobs.released[t] > p.jobs.released[t]
    ensures if p.jobs.free + 1 < c.Capacity()
            then end.jobs.free == p.jobs.free + 2 && end.jobs.released[u] > p.jobs.released[u]
            else end.jobs.free == c.Capacity() && end.jobs.faults > p.jobs.faults + 1
  {
    var copy := CopyIsTakenOn(c, p, u, id, now);
    var working := TakenOn(p, u, id, now);
    var rollback := RollbackLeavesCopy(c, working, t, u, id);
    var alone := RolledBack(working, t, id);
    var tail, last := JobEndsWithoutRecord(c, alone, u, id, now);
    end := last;
    Onward(c, p, copy, working, rollback, alone);
    run := copy + rollback;
    Onward(c, p, run, alone, tail, end);
    run := run + tail;
  }

  // With a thread free, or with room for another submit that starts one, the rollback and the
  // job both give the one permit back: it is out twice, unless the semaphore itself raises.
  lemma {:induction false} PermitGivenTwice(c: Config, p: Pool, t: nat, u: nat, now: real)
    returns (run: seq<Step>, end: Pool)
    requires PoolInv(c, p) && CanStep(c, p, Strand(t, u))
    requires Idle(p) || (p.jobs.free > 0 && |p.jobs.records| < c.maxRecords)
    ensures Leads(c, p, [Strand(t, u)] + run, end) && end.jobs.faults > 0 && u !in end.jobs.admitted
    ensures end.jobs.released[t] > 0 && (end.jobs.released[u] > 0 || end.jobs.faults > 1)
    ensures var others := if Idle(p) then p.jobs.free else p.jobs.free - 1;
      end.jobs.free == if others + 1 < c.Capacity() then others + 2 else c.Capacity()
  {
    var id, strand := p.jobs.tickets[t].id, Strand(t, u);
    var p1 := Stepped(c, p, strand);
    StrandStrands(c, p, t, u, id);
    var ready, hire := p1, [];
    if !Idle(p) {
      var v := Unused(p.jobs.admitted + {u});
      var other := FreshId(p1.jobs.records);
      hire := SubmitHires(c, p1, v, other, now);
      ready := Submitted(p1, v, other, now);
    }
    var tail, last := CopyOutlivesRollback(c, ready, t, u, id, now);
    end := last;
    Onward(c, p1, hire, ready, tail, end);
    run := hire + tail;
    RunOn(c, p, strand, run);
  }

  // A registered job is one submission away in every configuration.
  lemma {:induction false} FirstJob(c: Config, id: Id, now: real) returns (run: seq<Step>, p: Pool)
    requires c.Valid()
    ensures Leads(c, NewPool(c), run, p) && PoolInv(c, p) && CanStep(c, p, Strand(0, 1))
  {
    NewPoolInv(c);
    var start, acquire, register := NewPool(c), Ordinary(Acquire(0)), Ordinary(Action.Register(0, id, id, now));
    var admitted := Stepped(c, start, acquire);
    OneStep(c, start, acquire, admitted);
    StepKeepsPoolInv(c, start, acquire);
    p := Stepped(c, admitted, register);
    ThenStep(c, start, [acquire], admitted, register, p);
    StepKeepsPoolInv(c, admitted, register);
    run := [acquire] + [register];
  }

  ghost predicate FaultFree(c: Config, mayStrand: bool) {
    forall run: seq<Step> :: CanRun(c, NewPool(c), run) && (mayStrand || NeverStrands(run)) ==>
      Reached(c, NewPool(c), run).jobs.faults == 0
  }

  // The registry is free of internal exceptions in every interleaving exactly when the executor
  // never queues a job it raises on.
  lemma {:induction false} FaultFreeExactlyWhen(c: Config, mayStrand: bool)
    requires c.Valid()
    ensures FaultFree(c, mayStrand) <==> !mayStrand
  {
    if mayStrand {
      var first, p := FirstJob(c, [], 0.0);
      var rest := StrandedJobFaults(c, p, 0, 1, 0.0);
      Compose(c, NewPool(c), first, [Strand(0, 1)] + rest);
    } else {
      forall run: seq<Step> | CanRun(c, NewPool(c), run) && NeverStrands(run)
        ensures Reached(c, NewPool(c), run).jobs.faults == 0
      {
        NewPoolInv(c);
        RunKeepsPoolInv(c, NewPool(c), run);
      }
    }
  }
}
