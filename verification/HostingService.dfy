/**
 The automation service as it is written (apps/worker/src/renewal/hosting-automation.service.ts), proved
 to take the steps of the protocol and so to keep its invariant.
 */
module HostingService {
  import opened HostingAutomation
  import opened HostingSafety
  import opened Options

  /** The operation a preparation hands over. */
  datatype Handed = Handed(row: nat, operation: Operation, fresh_: bool)

  /** A job ends quietly or throws an error of a kind. */
  datatype Outcome = Done | Thrown(kind: ErrorKind)

  datatype Answers = Answers(readable: bool, invoice: Option<Invoice>, skipStored: bool, panel: Panel, completeStored: bool)

  class Automation {
    var service: Service
    var ops: seq<Operation>
    var cancellations: map<Id, Cancellation>
    var jobs: map<Job, Scheduled>
    ghost var workers: map<Id, Worker>
    ghost var mutations: seq<nat>
    var clock: int

    constructor (nextDueAt: int, now: int)
      ensures Valid() && Rows() == Initial(nextDueAt, now)
    {
      service := Service(Pending, None, nextDueAt, None);
      ops, cancellations, jobs := [], map[], map[];
      workers, mutations, clock := map[], [], now;
    }

    ghost function Rows(): State
      reads this
    {
      State(service, ops, cancellations, jobs, workers, mutations, clock)
    }

    ghost predicate Valid()
      reads this
    {
      Inv(Rows())
    }

    /** The attempt with the highest number among the rows of a source. */
    method FindLatest(source: Source) returns (latest: int)
      requires Valid()
      ensures latest == Latest(ops, source)
    {
      hide Latest, RowsSound, OneRunning, AllHold, OneOwner, MutationsSound, ServiceSound, JobsSound;
      latest := -1;
      LatestOfNone(source);
      for i := 0 to |ops|
        invariant -1 <= latest < i && latest == Latest(ops[..i], source)
        invariant latest >= 0 ==> ops[latest].source == source
      {
        LatestSnoc(ops, i, source);
        if ops[i].source == source && (latest < 0 || ops[i].attempt > ops[latest].attempt) { latest := i; }
      }
      assert ops[..|ops|] == ops;
    }

    method FindRunning(but: int) returns (found: bool)
      ensures found <==> OtherRunning(ops, but)
    {
      for i := 0 to |ops|
        invariant forall k | 0 <= k < i :: k == but || ops[k].status != Running
      {
        if i != but && ops[i].status == Running { return true; }
      }
      return false;
    }

    /** createMany with skipDuplicates on the key of the job that is put off. */
    method DeferCancellation(job: Job, next: Scheduled)
      modifies this`jobs
      ensures Rows() == Deferred(old(Rows()), job, next)
    {
      if After(job) !in jobs { jobs := jobs[After(job) := next]; }
    }

    /** The part of the preparation that only a cancellation runs; true when it goes on to an operation. */
    method PrepareCancellation(ghost w: Id, c: Id, job: Job, running: bool, now: int) returns (goOn: bool, outcome: Outcome)
      requires job in jobs && jobs[job].cancellation == c && jobs[job].availableAt <= now
      modifies this`service, this`cancellations, this`jobs
      ensures !goOn ==> Rows() == CancellationPrepared(old(Rows()), w, c, job, running, now)
      ensures goOn ==> Rows() == old(Rows())
                       && CancellationPrepared(Rows(), w, c, job, running, now) == Opened(Rows(), w, Cancelled(c))
    {
      hide Opened;
      goOn, outcome := false, Done;
      if c !in cancellations || cancellations[c].status != Open { return; }
      var request := cancellations[c];
      var due := Due(request);
      if due.None? || due.value > now { return; }
      if running {
        if now - due.value >= BUSY_WINDOW { return false, Thrown(Temporary); }
        DeferCancellation(job, BusyAgain(jobs[job], due.value, now));
        return;
      }
      if request.effectiveAt.Some? && service.nextDueAt > request.effectiveAt.value {
        cancellations := cancellations[c := request.(effectiveAt := Some(service.nextDueAt))];
        DeferCancellation(job, Scheduled(c, service.nextDueAt, Some(service.nextDueAt), 0));
        return;
      }
      if service.status == Suspended || service.status == Terminated {
        if service.suspensionInvoice.Some? { service := service.(suspensionInvoice := None); }
        cancellations := cancellations[c := request.(status := Completed)];
        return;
      }
      if service.status != Active { return false, Thrown(Permanent); }
      return true, Done;
    }

    /** The preparation transaction.  A worker that is handed an open row holds it from then on. */
    method Prepare(w: Id, source: Source, job: Job, otherRunning: bool)
      returns (handed: Option<Handed>, outcome: Outcome)
      requires Valid() && w !in workers
      requires source.Cancelled? ==>
                 job in jobs && jobs[job].cancellation == source.cancellation && jobs[job].availableAt <= clock
      modifies this
      ensures Valid() && clock == old(clock) && Rows() == Prepared(old(Rows()), w, source, job, otherRunning, clock)
      ensures handed.Some? ==>
                && handed.value.row < |ops| && handed.value.operation == ops[handed.value.row]
                && handed.value.operation.source == source
                && (handed.value.operation.status == Running <==> w in workers)
                && (w in workers ==> workers[w] == Worker(handed.value.row, handed.value.fresh_,
                                                          if handed.value.fresh_ then Deciding else Failing(Inconsistent)))
                && (handed.value.fresh_ ==> handed.value.operation.status == Running)
      ensures handed.None? ==> w !in workers
    {
      hide Inv, Latest, OtherRunning, CancellationPrepared;
      PreparedKeeps(Rows(), w, source, job, otherRunning, clock);
      ghost var before := Rows();
      handed, outcome := None, Done;
      var existing := FindLatest(source);
      if !source.Cancelled? && existing >= 0 && ops[existing].status == Succeeded {
        return Some(Handed(existing, ops[existing], false)), Done;
      }
      var other := FindRunning(existing);
      var running := otherRunning || other;
      if running && !source.Cancelled? { return None, Thrown(Temporary); }
      if source.Cancelled? {
        var goOn;
        goOn, outcome := PrepareCancellation(w, source.cancellation, job, running, clock);
        if !goOn { return; }
        assert Rows() == before;
      }
      var row := |ops|;
      if existing >= 0 && Retries(ops[existing]) {
        ops := ops + [NewRow(source, ops[existing].attempt + 1, Some(existing))];
      } else if existing >= 0 {
        if ops[existing].status == Running { workers := workers[w := Worker(existing, false, Failing(Inconsistent))]; }
        return Some(Handed(existing, ops[existing], false)), Done;
      } else {
        ops := ops + [NewRow(source, 1, None)];
      }
      workers := workers[w := Worker(row, true, Deciding)];
      return Some(Handed(row, ops[row], true)), Done;
    }

    /** The query for a cancellation that keeps a service from being reactivated. */
    method FindStanding(now: int) returns (found: bool)
      ensures found <==> CancellationStands(Rows(), now)
    {
      var standing := set c | c in cancellations && BlocksReactivation(cancellations[c], now);
      found := standing != {};
      if CancellationStands(Rows(), now) {
        ghost var c :| c in cancellations && BlocksReactivation(cancellations[c], now);
        assert c in standing;
      }
    }

    method IsEligible(source: Source, invoice: Option<Invoice>, now: int) returns (ok: bool)
      ensures ok <==> Eligible(Rows(), source, invoice, now)
    {
      if source.Cancelled? { return service.status == Active; }
      if invoice.None? || invoice.value.id != source.invoice || !invoice.value.coversService { return false; }
      if source.Unsuspension? {
        var standing := FindStanding(now);
        if standing { return false; }
      }
      return if source.Suspension? then service.status == Active && invoice.value.overdue && invoice.value.balanceDue > 0
             else service.status == Suspended && service.suspensionInvoice == Some(invoice.value.id)
                  && invoice.value.paid && invoice.value.balanceDue == 0;
    }

    method CompleteSkipped(row: nat)
      requires row < |ops|
      modifies this`ops
      ensures ops == old(ops)[row := if old(ops)[row].status == Running then old(ops)[row].(status := Succeeded) else old(ops)[row]]
    {
      if ops[row].status == Running { ops := ops[row := ops[row].(status := Succeeded)]; }
    }

    method Close(row: nat, kind: ErrorKind)
      requires row < |ops|
      modifies this`ops
      ensures ops == old(ops)[row := Closed(old(ops)[row], kind)]
    {
      var op := ops[row];
      if op.status == Running {
        ops := ops[row := op.(status := if kind == Inconsistent then Unknown else Failed,
                              retryable := kind == Temporary && op.attempt < MAX_ATTEMPTS, errorKind := Some(kind))];
      }
    }

    /** The completing transaction; false when it throws, and then nothing of it is kept. */
    method CompleteRow(row: nat, stored: bool) returns (ok: bool)
      requires row < |ops|
      modifies this`service, this`cancellations, this`ops
      ensures ok <==> stored && Completes(old(Rows()), old(ops)[row].source)
      ensures Rows() == if ok then RowSet(Applied(old(Rows()), old(ops)[row].source), row, old(ops)[row].(status := Succeeded))
                        else old(Rows())
    {
      var source := ops[row].source;
      var next := service;
      match source {
        case Suspension(invoice) =>
          if service.status != Active { return false; }
          next := service.(status := Suspended, suspensionInvoice := Some(invoice), suspendedBy := Some(invoice));
        case Unsuspension(invoice) =>
          if service.status != Suspended || service.suspensionInvoice != Some(invoice) { return false; }
          next := service.(status := Active, suspensionInvoice := None);
        case Cancelled(c) =>
          if service.status != Active || c !in cancellations || cancellations[c].status != Open { return false; }
          next := service.(status := Suspended, suspensionInvoice := None);
      }
      if !stored { return false; }
      service := next;
      if source.Cancelled? {
        cancellations := cancellations[source.cancellation := cancellations[source.cancellation].(status := Completed)];
      }
      ops := ops[row := ops[row].(status := Succeeded)];
      return true;
    }

    /** One delivery of a job, from start to end. */
    method Process(w: Id, source: Source, job: Job, otherRunning: bool, answers: Answers, start: int, later: int)
      returns (outcome: Outcome, ghost trace: seq<Timed>)
      requires Valid() && w !in workers && clock <= start <= later
      requires source.Cancelled? ==>
                 job in jobs && jobs[job].cancellation == source.cancellation && jobs[job].availableAt <= start
      modifies this
      ensures Valid() && w !in workers
      ensures Rows() == Run(old(Rows()), trace)
      ensures trace != [] && OnlyBy(w, answers, trace[1..]) && trace[0] == Timed(Event.Prepare(w, source, job, otherRunning), start)
    {
      hide Inv, Prepared, Run, Opened, Step, Apply;
      ghost var before := Rows();
      trace := [Timed(Event.Prepare(w, source, job, otherRunning), start)];
      RunOne(before, trace[0]);
      PrepareStep(before, w, source, job, otherRunning, start);
      TickKeeps(Rows(), start);
      clock := start;
      var handed;
      handed, outcome := Prepare(w, source, job, otherRunning);
      ghost var rest: seq<Timed> := [];
      if handed.Some? {
        outcome, rest := Handle(w, handed.value, answers, later);
        RunAppend(before, trace, rest);
      }
      assert rest == [] ==> trace + rest == trace;
      assert (trace + rest)[1..] == rest;
      RunKeeps(before, trace + rest);
      trace := trace + rest;
    }

    /** What follows a preparation that handed over an operation. */
    method Handle(w: Id, handed: Handed, answers: Answers, later: int) returns (outcome: Outcome, ghost trace: seq<Timed>)
      requires handed.row < |ops| && handed.operation == ops[handed.row] && clock <= later
      requires w in workers <==> handed.operation.status == Running
      requires w in workers ==>
                 workers[w] == Worker(handed.row, handed.fresh_, if handed.fresh_ then Deciding else Failing(Inconsistent))
      requires handed.fresh_ ==> handed.operation.status == Running
      modifies this
      ensures w !in workers && Rows() == Run(old(Rows()), trace) && OnlyBy(w, answers, trace)
    {
      hide Run, Step, Apply, Eligible, Completes, Applied, Closed, Advance;
      ghost var before := Rows();
      trace := [];
      NoEvents(before);
      var op := handed.operation;
      if op.status == Succeeded { return Done, trace; }
      if op.status == Running && !handed.fresh_ {
        trace := FailRow(w, handed.row, Inconsistent, answers, before, trace, later);
        return Thrown(Inconsistent), trace;
      }
      if op.status != Running {
        if op.errorKind == Some(Temporary) && !op.retryable { return Thrown(Permanent), trace; }
        return Thrown(match op.errorKind case Some(kind) => kind case None => Permanent), trace;
      }
      var mutate;
      mutate, outcome, trace := DecideRow(w, handed.row, answers, before, trace, later);
      if mutate { outcome, trace := MutateRow(w, handed.row, answers, before, trace, later); }
    }

    ghost predicate Reached(before: State, trace: seq<Timed>, w: Id, answers: Answers, row: nat, stage: Stage)
      reads this
    {
      && Rows() == Run(before, trace) && OnlyBy(w, answers, trace) && row < |ops|
      && w in workers && workers[w] == Worker(row, true, stage)
    }

    /** Eligibility, and the end of the run when the operation is no longer wanted. */
    method DecideRow(w: Id, row: nat, answers: Answers, ghost before: State, ghost soFar: seq<Timed>, now: int)
      returns (mutate: bool, outcome: Outcome, ghost trace: seq<Timed>)
      requires Reached(before, soFar, w, answers, row, Deciding) && clock <= now
      modifies this
      ensures mutate ==> Reached(before, trace, w, answers, row, Mutating) && clock == now
      ensures !mutate ==> w !in workers && Rows() == Run(before, trace) && OnlyBy(w, answers, trace)
    {
      hide Run, Eligible, Closed, Step, Apply;
      outcome := Done;
      trace := Took(before, soFar, w, answers, Timed(Decide(w, answers.readable, answers.invoice), now));
      clock := now;
      if !answers.readable {
        workers := workers[w := Worker(row, true, Failing(Temporary))];
        trace := FailRow(w, row, Temporary, answers, before, trace, now);
        return false, Thrown(Temporary), trace;
      }
      var eligible := IsEligible(ops[row].source, answers.invoice, now);
      if eligible {
        workers := workers[w := Worker(row, true, Mutating)];
        return true, Done, trace;
      }
      workers := workers[w := Worker(row, true, Skipping)];
      trace := Took(before, trace, w, answers, Timed(Skip(w, answers.skipStored), now));
      if !answers.skipStored {
        workers := workers[w := Worker(row, true, Failing(Temporary))];
        trace := FailRow(w, row, Temporary, answers, before, trace, now);
        return false, Thrown(Temporary), trace;
      }
      CompleteSkipped(row);
      workers := workers - {w};
      return false, Done, trace;
    }

    /** The panel mutation and what becomes of it. */
    method MutateRow(w: Id, row: nat, answers: Answers, ghost before: State, ghost soFar: seq<Timed>, now: int)
      returns (outcome: Outcome, ghost trace: seq<Timed>)
      requires Reached(before, soFar, w, answers, row, Mutating) && clock == now
      modifies this
      ensures w !in workers && Rows() == Run(before, trace) && OnlyBy(w, answers, trace)
    {
      hide Run, Completes, Applied, Closed, Step, Apply;
      trace := Took(before, soFar, w, answers, Timed(Mutate(w, answers.panel), now));
      mutations := mutations + [row];
      if answers.panel.Error? {
        workers := workers[w := Worker(row, true, Failing(answers.panel.kind))];
        trace := FailRow(w, row, answers.panel.kind, answers, before, trace, now);
        return Thrown(answers.panel.kind), trace;
      }
      workers := workers[w := Worker(row, true, Completing)];
      trace := Took(before, trace, w, answers, Timed(Complete(w, answers.completeStored), now));
      var ok := CompleteRow(row, answers.completeStored);
      if !ok {
        workers := workers[w := Worker(row, true, Failing(Inconsistent))];
        trace := FailRow(w, row, Inconsistent, answers, before, trace, now);
        return Thrown(Inconsistent), trace;
      }
      workers := workers - {w};
      return Done, trace;
    }

    /** The row is marked failed if it is still RUNNING, and the worker is done. */
    method FailRow(w: Id, row: nat, kind: ErrorKind, ghost answers: Answers, ghost before: State, ghost soFar: seq<Timed>, now: int)
      returns (ghost trace: seq<Timed>)
      requires Rows() == Run(before, soFar) && OnlyBy(w, answers, soFar) && row < |ops| && clock <= now
      requires w in workers && workers[w].row == row && workers[w].stage == Failing(kind)
      modifies this
      ensures w !in workers && Rows() == Run(before, trace) && OnlyBy(w, answers, trace)
    {
      hide Run, Closed, Step, Apply;
      trace := Took(before, soFar, w, answers, Timed(Fail(w), now));
      clock := now;
      Close(row, kind);
      workers := workers - {w};
    }

    /** The next event of the trace; the code after it makes the rows follow. */
    ghost method Took(before: State, trace: seq<Timed>, w: Id, answers: Answers, e: Timed) returns (longer: seq<Timed>)
      requires Rows() == Run(before, trace) && OnlyBy(w, answers, trace) && clock <= e.now
      requires w in workers && workers[w].row < |ops| && Allowed(w, answers, e.event)
      ensures longer == trace + [e] && OnlyBy(w, answers, longer)
      ensures Run(before, longer) == Advance(Rows().(clock := e.now), w, e.event, e.now)
    {
      hide Run, Advance;
      longer := trace + [e];
      RunAppend(before, trace, [e]);
      RunOne(Rows(), e);
    }
  }

  /** An event of one delivery, with the answer it gets; stopping half-way is not one of them. */
  predicate Allowed(w: Id, answers: Answers, e: Event) {
    match e
    case Decide(v, readable, invoice) => v == w && readable == answers.readable && invoice == answers.invoice
    case Skip(v, stored) => v == w && stored == answers.skipStored
    case Mutate(v, answer) => v == w && answer == answers.panel
    case Complete(v, stored) => v == w && stored == answers.completeStored
    case Fail(v) => v == w
    case _ => false
  }

  ghost predicate OnlyBy(w: Id, answers: Answers, trace: seq<Timed>) {
    forall i | 0 <= i < |trace| :: Allowed(w, answers, trace[i].event)
  }

  lemma PrepareStep(s: State, w: Id, source: Source, job: Job, otherRunning: bool, now: int)
    requires w !in s.workers && s.clock <= now
    ensures Step(s, Timed(Event.Prepare(w, source, job, otherRunning), now))
         == Prepared(s.(clock := now), w, source, job, otherRunning, now)
  {
  }

  lemma NoEvents(s: State)
    ensures Run(s, []) == s
  {
  }

  lemma RunOne(s: State, e: Timed)
    ensures Run(s, [e]) == Step(s, e)
  {
  }

  lemma {:induction false} RunAppend(s: State, xs: seq<Timed>, ys: seq<Timed>)
    ensures Run(s, xs + ys) == Run(Run(s, xs), ys)
    decreases |xs|
  {
    hide Step;
    if xs == [] {
      assert xs + ys == ys;
    } else {
      RunAppend(Step(s, xs[0]), xs[1..], ys);
      assert (xs + ys)[1..] == xs[1..] + ys;
    }
  }

  lemma LatestOfNone(source: Source)
    ensures Latest([], source) == -1
  {
  }

  lemma LatestSnoc(ops: seq<Operation>, i: nat, source: Source)
    requires i < |ops|
    ensures Latest(ops[..i + 1], source) == if ops[i].source == source then i else Latest(ops[..i], source)
  {
    assert ops[..i + 1][..i] == ops[..i];
  }
}
