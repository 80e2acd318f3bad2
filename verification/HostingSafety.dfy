/**
 What every run of hosting automation keeps: bounded chains of attempts, one panel mutation per row, one
 running row per service, and suspensions that end only the way they may.
 */
module HostingSafety {
  import opened HostingAutomation
  import opened Options

  // ----- the table of attempts ----------------------------------------------------------------

  ghost predicate RowSound(ops: seq<Operation>, i: nat)
    requires i < |ops|
  {
    var op := ops[i];
    && 1 <= op.attempt <= MAX_ATTEMPTS
    && (op.retryable ==> op.status == Failed && op.errorKind == Some(Temporary) && op.attempt < MAX_ATTEMPTS)
    && (op.retryOf.None? <==> op.attempt == 1)
    && (op.retryOf.Some? ==>
          && op.retryOf.value < i && ops[op.retryOf.value].source == op.source
          && ops[op.retryOf.value].attempt == op.attempt - 1)
  }

  ghost predicate RowsSound(ops: seq<Operation>) {
    forall i | 0 <= i < |ops| :: RowSound(ops, i)
  }

  /** Among the rows of a source each later one has a higher attempt number and follows a retryable failure. */
  ghost predicate Chained(ops: seq<Operation>) {
    forall i, j | 0 <= i < j < |ops| && ops[i].source == ops[j].source ::
      ops[i].attempt < ops[j].attempt && Retries(ops[i])
  }

  ghost predicate OneRunning(ops: seq<Operation>) {
    forall i, j | 0 <= i < |ops| && 0 <= j < |ops| && ops[i].status == Running && ops[j].status == Running :: i == j
  }

  ghost predicate TableSound(ops: seq<Operation>) {
    RowsSound(ops) && Chained(ops) && OneRunning(ops)
  }

  // ----- workers ------------------------------------------------------------------------------

  ghost predicate Holds(s: State, w: Id)
    requires w in s.workers
  {
    var run := s.workers[w];
    && run.row < |s.ops|
    && (run.owner ==> s.ops[run.row].status == Running || s.ops[run.row].status == Unknown)
    && (!run.owner ==> run.stage == Failing(Inconsistent))
    && (run.stage.Deciding? || run.stage.Mutating? ==> run.row !in s.mutations)
    && (run.stage.Completing? ==> run.row in s.mutations)
  }

  ghost predicate AllHold(s: State) {
    forall w | w in s.workers :: Holds(s, w)
  }

  ghost predicate OneOwner(s: State) {
    forall v, w | v in s.workers && w in s.workers && s.workers[v].owner && s.workers[w].owner
      && s.workers[v].row == s.workers[w].row :: v == w
  }

  ghost predicate MutationsSound(s: State) {
    && (forall i | 0 <= i < |s.mutations| :: s.mutations[i] < |s.ops|)
    && (forall i, j | 0 <= i < j < |s.mutations| :: s.mutations[i] != s.mutations[j])
  }

  // ----- the service and its cancellations ----------------------------------------------------

  predicate SomeCompleted(s: State) {
    exists c | c in s.cancellations :: s.cancellations[c].status == Completed
  }

  ghost predicate ServiceSound(s: State) {
    && (SomeCompleted(s) ==> Finishable(s.service.status) && s.service.suspensionInvoice.None?)
    && (s.service.suspensionInvoice.Some? ==> s.service.suspendedBy == s.service.suspensionInvoice)
    && (s.service.status == Active ==> s.service.suspensionInvoice.None?)
    && (s.service.status == Pending ==> s.service.suspensionInvoice.None?)
  }

  /** The k-th deferral in a row for one due time becomes available k minutes after it at the earliest. */
  ghost predicate JobsSound(s: State) {
    forall job | job in s.jobs && s.jobs[job].depth > 0 ::
      && s.jobs[job].depth <= 5 && s.jobs[job].due.Some?
      && s.jobs[job].availableAt >= s.jobs[job].due.value + DEFERRAL * s.jobs[job].depth
  }

  ghost predicate Inv(s: State) {
    TableSound(s.ops) && AllHold(s) && OneOwner(s) && MutationsSound(s) && ServiceSound(s) && JobsSound(s)
  }

  // ----- opening a row ------------------------------------------------------------------------

  lemma OpenKeepsTable(ops: seq<Operation>, source: Source)
    requires TableSound(ops) && !OtherRunning(ops, Latest(ops, source))
    ensures var e := Latest(ops, source);
      && (e < 0 ==> TableSound(ops + [NewRow(source, 1, None)]))
      && (e >= 0 && Retries(ops[e]) ==> TableSound(ops + [NewRow(source, ops[e].attempt + 1, Some(e))]))
  {
    var e := Latest(ops, source);
    if e < 0 || Retries(ops[e]) {
      var row := if e < 0 then NewRow(source, 1, None) else NewRow(source, ops[e].attempt + 1, Some(e));
      var all := ops + [row];
      forall i | 0 <= i < |all| ensures RowSound(all, i) {
        if i < |ops| { assert RowSound(ops, i); }
        if e >= 0 { assert RowSound(ops, e); }
      }
    }
  }

  lemma OpenedKeeps(s: State, w: Id, source: Source)
    requires Inv(s) && w !in s.workers && !OtherRunning(s.ops, Latest(s.ops, source))
    ensures Inv(Opened(s, w, source))
  {
    hide RowsSound, Chained, ServiceSound, JobsSound, Latest;
    OpenKeepsTable(s.ops, source);
    var t := Opened(s, w, source);
    OpenedKeepsWorkers(s, w, source);
    assert t.service == s.service && t.cancellations == s.cancellations && t.jobs == s.jobs;
    SameService(s, t);
  }

  /** A worker joins, on a new row as its owner or on an old one only to close it. */
  lemma JoinKeepsWorkers(s: State, t: State, w: Id)
    requires AllHold(s) && OneOwner(s) && MutationsSound(s) && w !in s.workers
    requires t.mutations == s.mutations && |t.ops| >= |s.ops| && t.ops[..|s.ops|] == s.ops
    requires w in t.workers && t.workers == s.workers[w := t.workers[w]] && Holds(t, w)
    requires t.workers[w].owner ==> t.workers[w].row == |s.ops|
    ensures AllHold(t) && OneOwner(t) && MutationsSound(t)
  {
    forall v | v in t.workers ensures Holds(t, v) {
      if v != w {
        assert Holds(s, v);
        assert t.ops[s.workers[v].row] == t.ops[..|s.ops|][s.workers[v].row];
      }
    }
    assert forall v | v in s.workers :: Holds(s, v);
  }

  lemma OpenedKeepsWorkers(s: State, w: Id, source: Source)
    requires Inv(s) && w !in s.workers
    ensures var t := Opened(s, w, source); AllHold(t) && OneOwner(t) && MutationsSound(t)
  {
    hide TableSound, ServiceSound, JobsSound, Latest, AllHold, OneOwner;
    var t := Opened(s, w, source);
    if t != s { JoinKeepsWorkers(s, t, w); }
  }

  lemma SameService(s: State, t: State)
    requires ServiceSound(s) && JobsSound(s)
    requires t.service == s.service && t.cancellations == s.cancellations && t.jobs == s.jobs
    ensures ServiceSound(t) && JobsSound(t)
  {
  }

  // ----- deferring and finishing a cancellation -----------------------------------------------

  lemma DeferredKeeps(s: State, job: Job, next: Scheduled)
    requires Inv(s)
    requires next.depth > 0 ==>
      next.depth <= 5 && next.due.Some? && next.availableAt >= next.due.value + DEFERRAL * next.depth
    ensures Inv(Deferred(s, job, next))
  {
    hide TableSound, AllHold, OneOwner, MutationsSound;
    var t := Deferred(s, job, next);
    assert SomeCompleted(t) == SomeCompleted(s);
    SameWorkers(s, t);
  }

  lemma SameWorkers(s: State, t: State)
    requires AllHold(s) && OneOwner(s) && MutationsSound(s)
    requires t.ops == s.ops && t.workers == s.workers && t.mutations == s.mutations
    ensures AllHold(t) && OneOwner(t) && MutationsSound(t)
  {
  }

  /** A busy service puts a job off by a minute, five times at most for one due time. */
  lemma BusyDeferral(s: State, job: Job, due: int, now: int)
    requires JobsSound(s) && job in s.jobs && s.jobs[job].availableAt <= now && due <= now && now - due < BUSY_WINDOW
    ensures var next := BusyAgain(s.jobs[job], due, now);
      0 < next.depth <= 5 && next.due == Some(due) && next.availableAt >= due + DEFERRAL * next.depth
  {
  }

  /** Ending a cancellation while the service is suspended or terminated and no invoice holds it. */
  lemma FinishedKeeps(s: State, c: Id)
    requires Inv(s) && c in s.cancellations && Finishable(s.service.status) && s.service.suspensionInvoice.None?
    ensures Inv(Finished(s, c))
  {
  }

  /** Changing a cancellation without completing it. */
  lemma RequestKeeps(s: State, c: Id, request: Cancellation)
    requires Inv(s) && request.status != Completed && (c in s.cancellations ==> s.cancellations[c].status != Completed)
    ensures Inv(s.(cancellations := s.cancellations[c := request]))
  {
  }

  /** Changing the service in a way no completed cancellation forbids. */
  lemma ServiceKeeps(s: State, service: Service)
    requires Inv(s) && ServiceSound(s.(service := service))
    ensures Inv(s.(service := service))
  {
  }

  lemma CancellationPreparedKeeps(s: State, w: Id, c: Id, job: Job, running: bool, now: int)
    requires Inv(s) && w !in s.workers && (OtherRunning(s.ops, Latest(s.ops, Cancelled(c))) ==> running)
    ensures Inv(CancellationPrepared(s, w, c, job, running, now))
  {
    hide TableSound, AllHold, OneOwner, MutationsSound, Opened, Deferred, OtherRunning, Latest, BusyAgain, Finished, Inv;
    if job in s.jobs && s.jobs[job].availableAt <= now && c in s.cancellations && s.cancellations[c].status == Open {
      var request := s.cancellations[c];
      var due := Due(request);
      if due.Some? && due.value <= now {
        if running {
          if now - due.value < BUSY_WINDOW {
            JobsOf(s);
            BusyDeferral(s, job, due.value, now);
            DeferredKeeps(s, job, BusyAgain(s.jobs[job], due.value, now));
          }
        } else if request.effectiveAt.Some? && s.service.nextDueAt > request.effectiveAt.value {
          RequestKeeps(s, c, request.(effectiveAt := Some(s.service.nextDueAt)));
          DeferredKeeps(s.(cancellations := s.cancellations[c := request.(effectiveAt := Some(s.service.nextDueAt))]),
                        job, Scheduled(c, s.service.nextDueAt, Some(s.service.nextDueAt), 0));
        } else if Finishable(s.service.status) {
          Unheld(s);
          FinishedKeeps(s.(service := s.service.(suspensionInvoice := None)), c);
        } else if s.service.status == Active {
          OpenedKeeps(s, w, Cancelled(c));
        }
      }
    }
  }

  lemma JobsOf(s: State)
    requires Inv(s)
    ensures JobsSound(s)
  {
  }

  lemma Unheld(s: State)
    requires Inv(s) && Finishable(s.service.status)
    ensures Inv(s.(service := s.service.(suspensionInvoice := None)))
  {
  }

  lemma PreparedKeeps(s: State, w: Id, source: Source, job: Job, otherRunning: bool, now: int)
    requires Inv(s) && w !in s.workers
    ensures Inv(Prepared(s, w, source, job, otherRunning, now))
  {
    hide Inv, Opened, CancellationPrepared, Latest;
    var e := Latest(s.ops, source);
    var running := otherRunning || OtherRunning(s.ops, e);
    if source.Cancelled? {
      CancellationPreparedKeeps(s, w, source.cancellation, job, running, now);
    } else if !running {
      OpenedKeeps(s, w, source);
    }
  }

  // ----- a worker's own steps -----------------------------------------------------------------

  /** Rewriting a row that was still open for its owner. */
  ghost predicate Closes(s: State, i: nat, op: Operation)
    requires i < |s.ops|
  {
    var was := s.ops[i];
    && op.source == was.source && op.attempt == was.attempt && op.retryOf == was.retryOf
    && (op == was || op.status != Running)
    && (was.status == Running || op == was || (was.status == Unknown && op.status == Succeeded))
    && (op.retryable ==> op.status == Failed && op.errorKind == Some(Temporary) && op.attempt < MAX_ATTEMPTS)
  }

  lemma CloseKeepsTable(s: State, i: nat, op: Operation)
    requires Inv(s) && i < |s.ops| && Closes(s, i, op)
    ensures TableSound(s.ops[i := op])
  {
    hide AllHold, OneOwner, MutationsSound, ServiceSound, JobsSound;
    var ops := s.ops[i := op];
    forall k | 0 <= k < |ops| ensures RowSound(ops, k) {
      assert RowSound(s.ops, k);
    }
  }

  /** The worker that closes a row leaves; any other that holds the row can only be closing it too. */
  lemma CloseKeepsWorkers(s: State, w: Id, op: Operation)
    requires Inv(s) && w in s.workers && Holds(s, w) && Closes(s, s.workers[w].row, op)
    requires s.workers[w].owner || op.status == s.ops[s.workers[w].row].status || op.status == Unknown
    ensures var t := Gone(RowSet(s, s.workers[w].row, op), w); AllHold(t) && OneOwner(t) && MutationsSound(t)
  {
    hide TableSound, ServiceSound, JobsSound;
    var t := Gone(RowSet(s, s.workers[w].row, op), w);
    forall v | v in t.workers ensures Holds(t, v) {
      assert Holds(s, v);
    }
  }

  lemma CloseKeeps(s: State, w: Id, op: Operation)
    requires Inv(s) && w in s.workers && Holds(s, w) && Closes(s, s.workers[w].row, op)
    requires s.workers[w].owner || op.status == s.ops[s.workers[w].row].status || op.status == Unknown
    ensures Inv(Gone(RowSet(s, s.workers[w].row, op), w))
  {
    hide TableSound, AllHold, OneOwner, MutationsSound, ServiceSound, JobsSound, Closes;
    CloseKeepsTable(s, s.workers[w].row, op);
    CloseKeepsWorkers(s, w, op);
    SameService(s, Gone(RowSet(s, s.workers[w].row, op), w));
  }

  /** Moving on without touching a row. */
  lemma AtKeeps(s: State, w: Id, stage: Stage, mutates: bool)
    requires Inv(s) && w in s.workers && s.workers[w].owner
    requires mutates == s.workers[w].stage.Mutating?
    requires stage.Completing? ==> mutates
    requires stage.Mutating? ==> s.workers[w].stage.Deciding?
    requires !stage.Deciding?
    ensures Inv(At(s, w, stage).(mutations := if mutates then s.mutations + [s.workers[w].row] else s.mutations))
  {
    hide TableSound, ServiceSound, JobsSound;
    var t := At(s, w, stage).(mutations := if mutates then s.mutations + [s.workers[w].row] else s.mutations);
    assert Holds(s, w);
    forall v | v in t.workers ensures Holds(t, v) {
      assert Holds(s, v);
    }
    SameService(s, t);
  }

  lemma GoneKeeps(s: State, w: Id)
    requires Inv(s)
    ensures Inv(Gone(s, w))
  {
  }

  lemma ClosedCloses(s: State, i: nat, kind: ErrorKind)
    requires i < |s.ops|
    ensures Inv(s) ==> Closes(s, i, Closed(s.ops[i], kind))
    ensures kind == Inconsistent ==>
      Closed(s.ops[i], kind).status == s.ops[i].status || Closed(s.ops[i], kind).status == Unknown
  {
    hide AllHold, OneOwner, MutationsSound, ServiceSound, JobsSound, Chained, OneRunning;
    if Inv(s) { assert RowSound(s.ops, i); }
  }

  lemma SucceededCloses(s: State, i: nat)
    requires Inv(s) && i < |s.ops| && (s.ops[i].status == Running || s.ops[i].status == Unknown)
    ensures Closes(s, i, s.ops[i].(status := Succeeded))
  {
    hide AllHold, OneOwner, MutationsSound, ServiceSound, JobsSound, Chained, OneRunning;
    assert RowSound(s.ops, i);
  }

  /** The completing transaction leaves the service as its cancellations allow. */
  lemma AppliedKeeps(s: State, source: Source)
    requires Inv(s) && Completes(s, source)
    ensures Inv(Applied(s, source))
  {
    hide TableSound, AllHold, OneOwner, MutationsSound, JobsSound;
    match source {
      case Suspension(i) =>
        var service := s.service.(status := Suspended, suspensionInvoice := Some(i), suspendedBy := Some(i));
        assert SomeCompleted(s.(service := service)) == SomeCompleted(s);
        ServiceKeeps(s, service);
      case Unsuspension(_) =>
        var service := s.service.(status := Active, suspensionInvoice := None);
        assert SomeCompleted(s.(service := service)) == SomeCompleted(s);
        ServiceKeeps(s, service);
      case Cancelled(c) =>
        var service := s.service.(status := Suspended, suspensionInvoice := None);
        assert SomeCompleted(s.(service := service)) == SomeCompleted(s);
        ServiceKeeps(s, service);
        FinishedKeeps(s.(service := service), c);
    }
  }

  lemma HeldBy(s: State, w: Id)
    requires Inv(s) && w in s.workers
    ensures Holds(s, w)
  {
  }

  lemma AdvanceKeeps(s: State, w: Id, e: Event, now: int)
    requires Inv(s) && w in s.workers && s.workers[w].row < |s.ops|
    ensures Inv(Advance(s, w, e, now))
  {
    hide Inv, Eligible, Completes, Applied, Closed, Closes, Gone, RowSet;
    HeldBy(s, w);
    var run := s.workers[w];
    var op := s.ops[run.row];
    match run.stage {
      case Deciding =>
        if e.Decide? {
          AtKeeps(s, w, if !e.readable then Failing(Temporary)
                        else if Eligible(s, op.source, e.invoice, now) then Mutating else Skipping, false);
        }
      case Skipping =>
        if e.Skip? {
          if !e.stored {
            AtKeeps(s, w, Failing(Temporary), false);
          } else {
            SucceededCloses(s, run.row);
            SameCloses(s, run.row);
            CloseKeeps(s, w, if op.status == Running then op.(status := Succeeded) else op);
          }
        }
      case Mutating =>
        if e.Mutate? { AtKeeps(s, w, if e.answer.Verified? then Completing else Failing(e.answer.kind), true); }
      case Completing =>
        if e.Complete? {
          if !e.stored || !Completes(s, op.source) {
            AtKeeps(s, w, Failing(Inconsistent), false);
          } else {
            AppliedKeeps(s, op.source);
            AppliedRows(s, op.source);
            SucceededCloses(Applied(s, op.source), run.row);
            HeldBy(Applied(s, op.source), w);
            CloseKeeps(Applied(s, op.source), w, op.(status := Succeeded));
          }
        }
      case Failing(kind) =>
        if e.Fail? {
          ClosedCloses(s, run.row, kind);
          CloseKeeps(s, w, Closed(op, kind));
        }
    }
  }

  lemma SameCloses(s: State, i: nat)
    requires Inv(s) && i < |s.ops|
    ensures Closes(s, i, s.ops[i])
  {
    hide AllHold, OneOwner, MutationsSound, ServiceSound, JobsSound, Chained, OneRunning;
    assert RowSound(s.ops, i);
  }

  lemma AppliedRows(s: State, source: Source)
    requires Completes(s, source)
    ensures var t := Applied(s, source); t.ops == s.ops && t.workers == s.workers && t.mutations == s.mutations
  {
  }

  // ----- every step and every run -------------------------------------------------------------

  lemma RequestEventsKeep(s: State, e: Event, now: int)
    requires Inv(s) && (e.Ask? || e.Approve? || e.Withdraw?)
    ensures Inv(Apply(s, e, now))
  {
    hide Inv;
    match e {
      case Ask(id, c) => if id !in s.cancellations && c.status == Open { RequestKeeps(s, id, c); }
      case Approve(id, at) =>
        if id in s.cancellations && s.cancellations[id].status == Open && Due(s.cancellations[id]).None? {
          RequestKeeps(s, id, s.cancellations[id].(approvedAt := Some(at)));
        }
      case Withdraw(id) =>
        if id in s.cancellations && s.cancellations[id].status == Open {
          RequestKeeps(s, id, s.cancellations[id].(status := Withdrawn));
        }
    }
  }

  lemma ServiceEventsKeep(s: State, e: Event, now: int)
    requires Inv(s) && (e.Renew? || e.Terminate? || e.Activate?)
    ensures Inv(Apply(s, e, now))
  {
    hide TableSound, AllHold, OneOwner, MutationsSound, JobsSound;
    var service := Apply(s, e, now).service;
    assert SomeCompleted(s.(service := service)) == SomeCompleted(s);
    ServiceKeeps(s, service);
  }

  lemma EnqueueKeeps(s: State, c: Id, availableAt: int, now: int)
    requires Inv(s)
    ensures Inv(Apply(s, Enqueue(c, availableAt), now))
  {
    hide TableSound, AllHold, OneOwner, MutationsSound;
    var t := Apply(s, Enqueue(c, availableAt), now);
    assert SomeCompleted(t) == SomeCompleted(s);
    SameWorkers(s, t);
  }

  lemma ApplyKeeps(s: State, e: Event, now: int)
    requires Inv(s)
    ensures Inv(Apply(s, e, now))
  {
    hide Inv, Prepared, Advance, Gone;
    if e.Ask? || e.Approve? || e.Withdraw? { RequestEventsKeep(s, e, now); }
    else if e.Renew? || e.Terminate? || e.Activate? { ServiceEventsKeep(s, e, now); }
    else if e.Enqueue? { EnqueueKeeps(s, e.cancellation, e.availableAt, now); }
    else if e.Stop? { GoneKeeps(s, e.worker); }
    else if e.Prepare? { if e.worker !in s.workers { PreparedKeeps(s, e.worker, e.source, e.job, e.otherRunning, now); } }
    else if e.worker in s.workers && s.workers[e.worker].row < |s.ops| { AdvanceKeeps(s, e.worker, e, now); }
  }

  lemma TickKeeps(s: State, now: int)
    requires Inv(s)
    ensures Inv(s.(clock := now))
  {
  }

  lemma StepKeeps(s: State, t: Timed)
    requires Inv(s)
    ensures Inv(Step(s, t))
  {
    hide Inv, Apply;
    TickKeeps(s, t.now);
    ApplyKeeps(s.(clock := t.now), t.event, t.now);
  }

  lemma {:induction false} RunKeeps(s: State, events: seq<Timed>)
    requires Inv(s)
    ensures Inv(Run(s, events))
    decreases |events|
  {
    hide Inv, Step;
    if events != [] {
      StepKeeps(s, events[0]);
      RunKeeps(Step(s, events[0]), events[1..]);
    }
  }

  lemma Reachable(nextDueAt: int, clock: int, events: seq<Timed>)
    ensures Inv(Run(Initial(nextDueAt, clock), events))
  {
    hide Run;
    RunKeeps(Initial(nextDueAt, clock), events);
  }

  // ----- what holds in every run --------------------------------------------------------------

  predicate HasAttempt(ops: seq<Operation>, source: Source, n: int) {
    exists k | 0 <= k < |ops| :: ops[k].source == source && ops[k].attempt == n
  }

  /** Following retryOf from a row leads through every earlier attempt of its source. */
  lemma {:induction false} EarlierAttempts(ops: seq<Operation>, i: nat, n: int) returns (j: nat)
    requires RowsSound(ops) && i < |ops| && 1 <= n <= ops[i].attempt
    ensures j <= i && ops[j].source == ops[i].source && ops[j].attempt == n
  {
    assert RowSound(ops, i);
    if n == ops[i].attempt { j := i; } else { j := EarlierAttempts(ops, ops[i].retryOf.value, n); }
  }

  /**
   The attempts of a source are numbered 1 to n without gap or repeat, n is at most three, and every
   attempt but the last failed in a temporary and retryable way.
   */
  lemma AttemptsFormOneChain(nextDueAt: int, clock: int, events: seq<Timed>, i: nat, j: nat)
    requires var ops := Run(Initial(nextDueAt, clock), events).ops;
      i < |ops| && j < |ops| && ops[i].source == ops[j].source && i != j
    ensures var ops := Run(Initial(nextDueAt, clock), events).ops;
      && 1 <= ops[i].attempt <= MAX_ATTEMPTS
      && ops[i].attempt != ops[j].attempt
      && (i < j <==> ops[i].attempt < ops[j].attempt)
      && (i < j ==> ops[i].status == Failed && ops[i].errorKind == Some(Temporary) && ops[i].retryable)
  {
    hide Run, AllHold, OneOwner, MutationsSound, ServiceSound, JobsSound, OneRunning;
    Reachable(nextDueAt, clock, events);
    var ops := Run(Initial(nextDueAt, clock), events).ops;
    assert RowSound(ops, i);
  }

  /** Every earlier attempt of a row's source is there. */
  lemma NoAttemptMissing(nextDueAt: int, clock: int, events: seq<Timed>, i: nat, n: int)
    requires var ops := Run(Initial(nextDueAt, clock), events).ops; i < |ops| && 1 <= n <= ops[i].attempt
    ensures var ops := Run(Initial(nextDueAt, clock), events).ops; HasAttempt(ops, ops[i].source, n)
  {
    hide Run, AllHold, OneOwner, MutationsSound, ServiceSound, JobsSound, OneRunning, Chained;
    Reachable(nextDueAt, clock, events);
    var k := EarlierAttempts(Run(Initial(nextDueAt, clock), events).ops, i, n);
  }

  /** A row of unknown result is never followed by another attempt. */
  lemma UnknownIsLast(nextDueAt: int, clock: int, events: seq<Timed>, i: nat)
    requires var ops := Run(Initial(nextDueAt, clock), events).ops;
      i < |ops| && (ops[i].status == Unknown || ops[i].errorKind == Some(Inconsistent))
    ensures var ops := Run(Initial(nextDueAt, clock), events).ops;
      forall j | i < j < |ops| :: ops[j].source != ops[i].source
  {
    hide Run, AllHold, OneOwner, MutationsSound, ServiceSound, JobsSound, OneRunning, RowsSound;
    Reachable(nextDueAt, clock, events);
  }

  /** No row enters the panel twice, and no two rows are RUNNING at once. */
  lemma OneMutationPerRow(nextDueAt: int, clock: int, events: seq<Timed>)
    ensures var s := Run(Initial(nextDueAt, clock), events);
      && (forall i, j | 0 <= i < j < |s.mutations| :: s.mutations[i] != s.mutations[j])
      && (forall i, j | 0 <= i < |s.ops| && 0 <= j < |s.ops| && s.ops[i].status == Running && s.ops[j].status == Running :: i == j)
  {
    hide Run, AllHold, OneOwner, ServiceSound, JobsSound, RowsSound, Chained;
    Reachable(nextDueAt, clock, events);
  }

  // ----- the jobs of a cancellation -------------------------------------------------------------

  function RootOf(job: Job): Id {
    match job case Requested(c) => c case After(earlier) => RootOf(earlier)
  }

  /** A deferral is for a later due time than its job, or counts one more for the same. */
  predicate Later(a: Scheduled, b: Scheduled) {
    b.due.Some? && (a.due.Some? ==> a.due.value < b.due.value || (a.due == b.due && a.depth < b.depth))
  }

  ghost predicate JobChained(s: State, job: Job)
    requires job in s.jobs
  {
    var it := s.jobs[job];
    && it.cancellation == RootOf(job)
    && (job.After? ==> job.job in s.jobs && Later(s.jobs[job.job], it))
    && (it.depth > 0 ==> it.due.Some?)
    && (it.due.Some? ==>
          && it.cancellation in s.cancellations && Due(s.cancellations[it.cancellation]).Some?
          && it.due.value <= Due(s.cancellations[it.cancellation]).value)
  }

  ghost predicate Chains(s: State) {
    forall job | job in s.jobs :: JobChained(s, job)
  }

  /** No cancellation becomes due earlier than it was. */
  predicate DueLater(s: State, t: State) {
    forall c | c in s.cancellations && Due(s.cancellations[c]).Some? ::
      c in t.cancellations && Due(t.cancellations[c]).Some?
      && Due(s.cancellations[c]).value <= Due(t.cancellations[c]).value
  }

  lemma ChainsStand(s: State, t: State)
    requires Chains(s) && t.jobs == s.jobs && DueLater(s, t)
    ensures Chains(t)
  {
    hide Due, RootOf;
    forall job | job in t.jobs ensures JobChained(t, job) { assert JobChained(s, job); }
  }

  lemma DeferralChains(s: State, job: Job, next: Scheduled)
    requires Chains(s) && job in s.jobs && next.cancellation == s.jobs[job].cancellation && Later(s.jobs[job], next)
    requires var c := next.cancellation; c in s.cancellations && next.due.Some? && next.due == Due(s.cancellations[c])
    ensures Chains(Deferred(s, job, next))
  {
    hide Due;
    var t := Deferred(s, job, next);
    assert JobChained(s, job);
    forall j | j in t.jobs ensures JobChained(t, j) {
      if j in s.jobs { assert JobChained(s, j); }
    }
  }

  lemma PreparedChains(s: State, w: Id, c: Id, job: Job, running: bool, now: int)
    requires Chains(s)
    ensures Chains(CancellationPrepared(s, w, c, job, running, now))
  {
    hide Opened, Latest, Deferred, Chains;
    var t := CancellationPrepared(s, w, c, job, running, now);
    if t.jobs == s.jobs && DueLater(s, t) { ChainsStand(s, t); }
    OpenedLeaves(s, w, Cancelled(c));
    if job in s.jobs && s.jobs[job].cancellation == c && c in s.cancellations && Due(s.cancellations[c]).Some? {
      DueOf(s, job);
      var request := s.cancellations[c];
      if running {
        DeferralChains(s, job, BusyAgain(s.jobs[job], Due(request).value, now));
      } else if request.effectiveAt.Some? && s.service.nextDueAt > request.effectiveAt.value {
        var u := s.(cancellations := s.cancellations[c := request.(effectiveAt := Some(s.service.nextDueAt))]);
        ChainsStand(s, u);
        DeferralChains(u, job, Scheduled(c, s.service.nextDueAt, Some(s.service.nextDueAt), 0));
      }
    }
  }

  lemma DueOf(s: State, job: Job)
    requires Chains(s) && job in s.jobs
    ensures JobChained(s, job)
  {
  }

  lemma OpenedLeaves(s: State, w: Id, source: Source)
    ensures Opened(s, w, source).jobs == s.jobs && Opened(s, w, source).cancellations == s.cancellations
  {
    hide Latest;
  }

  lemma AdvanceLeaves(s: State, w: Id, e: Event, now: int)
    requires w in s.workers && s.workers[w].row < |s.ops|
    ensures Advance(s, w, e, now).jobs == s.jobs && DueLater(s, Advance(s, w, e, now))
  {
    hide Eligible, Closed;
  }

  lemma ApplyChains(s: State, e: Event, now: int)
    requires Chains(s)
    ensures Chains(Apply(s, e, now))
  {
    hide Chains, JobChained, Prepared, Advance, Latest;
    var t := Apply(s, e, now);
    match e {
      case Enqueue(c, availableAt) => EnqueueChains(s, c, availableAt, now);
      case Prepare(w, source, job, otherRunning) =>
        if w !in s.workers {
          OpenedLeaves(s, w, source);
          var running := otherRunning || OtherRunning(s.ops, Latest(s.ops, source));
          PreparedIs(s, w, source, job, otherRunning, now);
          if source.Cancelled? { PreparedChains(s, w, source.cancellation, job, running, now); } else { ChainsStand(s, t); }
        }
      case Ask(_, _) => ChainsStand(s, t);
      case Approve(_, _) => ChainsStand(s, t);
      case Withdraw(_) => ChainsStand(s, t);
      case Renew(_) => ChainsStand(s, t);
      case Terminate => ChainsStand(s, t);
      case Activate => ChainsStand(s, t);
      case Stop(_) => ChainsStand(s, t);
      case _ =>
        if e.worker in s.workers && s.workers[e.worker].row < |s.ops| {
          AdvanceLeaves(s, e.worker, e, now);
          ChainsStand(s, t);
        }
    }
  }

  lemma PreparedIs(s: State, w: Id, source: Source, job: Job, otherRunning: bool, now: int)
    ensures var running := otherRunning || OtherRunning(s.ops, Latest(s.ops, source));
      var t := Prepared(s, w, source, job, otherRunning, now);
      if source.Cancelled? then t == CancellationPrepared(s, w, source.cancellation, job, running, now)
      else t == s || t == Opened(s, w, source)
  {
    hide Opened, CancellationPrepared, Latest, OtherRunning;
  }

  lemma EnqueueChains(s: State, c: Id, availableAt: int, now: int)
    requires Chains(s)
    ensures Chains(Apply(s, Enqueue(c, availableAt), now))
  {
    var t := Apply(s, Enqueue(c, availableAt), now);
    forall job | job in t.jobs ensures JobChained(t, job) {
      if job in s.jobs { assert JobChained(s, job); }
    }
  }

  lemma {:induction false} RunChains(s: State, events: seq<Timed>)
    requires Chains(s)
    ensures Chains(Run(s, events))
    decreases |events|
  {
    hide Chains, Apply;
    if events != [] {
      assert Chains(s.(clock := events[0].now)) by { Ticks(s, events[0].now); }
      ApplyChains(s.(clock := events[0].now), events[0].event, events[0].now);
      RunChains(Step(s, events[0]), events[1..]);
    }
  }

  lemma Ticks(s: State, now: int)
    requires Chains(s)
    ensures Chains(s.(clock := now))
  {
    ChainsStand(s, s.(clock := now));
  }

  /** One job comes from deferring the other, maybe more than once. */
  predicate Before(a: Job, b: Job) {
    b.After? && (b.job == a || Before(a, b.job))
  }

  lemma {:induction false} OneLine(a: Job, b: Job)
    requires RootOf(a) == RootOf(b) && a != b
    ensures Before(a, b) || Before(b, a)
    decreases b
  {
    match b {
      case Requested(_) => AfterItsRequest(a);
      case After(earlier) =>
        if a != earlier {
          OneLine(a, earlier);
          if Before(earlier, a) { NextAfter(earlier, a); }
        }
    }
  }

  lemma {:induction false} AfterItsRequest(a: Job)
    requires a.After?
    ensures Before(Requested(RootOf(a)), a)
  {
    if a.job.After? { AfterItsRequest(a.job); }
  }

  /** Every job has one deferral, so what comes after a job comes after it, or is it. */
  lemma {:induction false} NextAfter(a: Job, b: Job)
    requires Before(a, b)
    ensures b == After(a) || Before(After(a), b)
  {
    if b.job != a { NextAfter(a, b.job); }
  }

  lemma {:induction false} DeferredLater(s: State, a: Job, b: Job)
    requires Chains(s) && b in s.jobs && Before(a, b)
    ensures a in s.jobs && Later(s.jobs[a], s.jobs[b])
    decreases b
  {
    hide Due, RootOf;
    assert JobChained(s, b);
    if b.job != a { DeferredLater(s, a, b.job); }
  }

  /** The jobs put off because the service was busy when the cancellation was due at this time. */
  function BusyDeferrals(s: State, c: Id, due: int): set<Job> {
    set job | job in s.jobs && s.jobs[job].cancellation == c && s.jobs[job].due == Some(due) && s.jobs[job].depth > 0
  }

  lemma DepthsDiffer(s: State, a: Job, b: Job, c: Id, due: int)
    requires Chains(s) && a in BusyDeferrals(s, c, due) && b in BusyDeferrals(s, c, due) && a != b
    ensures s.jobs[a].depth != s.jobs[b].depth
  {
    hide Due;
    assert JobChained(s, a) && JobChained(s, b);
    OneLine(a, b);
    if Before(a, b) { DeferredLater(s, a, b); } else { DeferredLater(s, b, a); }
  }

  /** As many jobs as depths at most. */
  lemma {:induction false} AsManyAsDepths(jobs: map<Job, Scheduled>, some: set<Job>, n: nat)
    requires forall a | a in some :: a in jobs && 1 <= jobs[a].depth <= n
    requires forall a, b | a in some && b in some && a != b :: jobs[a].depth != jobs[b].depth
    ensures |some| <= n
    decreases n
  {
    if some != {} {
      if deepest :| deepest in some && jobs[deepest].depth == n {
        AsManyAsDepths(jobs, some - {deepest}, n - 1);
      } else {
        AsManyAsDepths(jobs, some, n - 1);
      }
    }
  }

  /** A busy service puts a cancellation off at most five times for one due time. */
  lemma FiveDeferralsAtMost(nextDueAt: int, clock: int, events: seq<Timed>, c: Id, due: int)
    ensures |BusyDeferrals(Run(Initial(nextDueAt, clock), events), c, due)| <= 5
  {
    hide Run, TableSound, AllHold, OneOwner, MutationsSound, ServiceSound, JobChained;
    Reachable(nextDueAt, clock, events);
    RunChains(Initial(nextDueAt, clock), events);
    var s := Run(Initial(nextDueAt, clock), events);
    var some := BusyDeferrals(s, c, due);
    forall a, b | a in some && b in some && a != b ensures s.jobs[a].depth != s.jobs[b].depth {
      DepthsDiffer(s, a, b, c, due);
    }
    AsManyAsDepths(s.jobs, some, 5);
  }

  /** A completed cancellation stays completed. */
  lemma CompletedStaysOnce(s: State, t: Timed, c: Id)
    requires c in s.cancellations && s.cancellations[c].status == Completed
    ensures c in Step(s, t).cancellations && Step(s, t).cancellations[c].status == Completed
  {
    hide Latest, OtherRunning, Eligible, Closed, Retries, Prepared, Advance;
    var u := s.(clock := t.now);
    if t.event.Prepare? {
      PreparedKeepsCompleted(u, t.event.worker, t.event.source, t.event.job, t.event.otherRunning, t.now, c);
    } else if t.event.Decide? || t.event.Skip? || t.event.Mutate? || t.event.Complete? || t.event.Fail? {
      if t.event.worker in u.workers && u.workers[t.event.worker].row < |u.ops| {
        AdvanceKeepsCompleted(u, t.event.worker, t.event, t.now, c);
      }
    }
  }

  lemma PreparedKeepsCompleted(s: State, w: Id, source: Source, job: Job, otherRunning: bool, now: int, c: Id)
    requires c in s.cancellations && s.cancellations[c].status == Completed
    ensures var t := Prepared(s, w, source, job, otherRunning, now);
      c in t.cancellations && t.cancellations[c].status == Completed
  {
    hide Latest, OtherRunning, Retries;
  }

  lemma AdvanceKeepsCompleted(s: State, w: Id, e: Event, now: int, c: Id)
    requires c in s.cancellations && s.cancellations[c].status == Completed
    requires w in s.workers && s.workers[w].row < |s.ops|
    ensures var t := Advance(s, w, e, now);
      c in t.cancellations && t.cancellations[c].status == Completed
  {
    hide Eligible, Closed;
  }

  lemma {:induction false} CompletedStays(s: State, events: seq<Timed>, c: Id)
    requires c in s.cancellations && s.cancellations[c].status == Completed
    ensures c in Run(s, events).cancellations && Run(s, events).cancellations[c].status == Completed
    decreases |events|
  {
    hide Step;
    if events != [] {
      CompletedStaysOnce(s, events[0], c);
      CompletedStays(Step(s, events[0]), events[1..], c);
    }
  }

  /** Once a cancellation is COMPLETED the service is never ACTIVE again, and no invoice can make it so. */
  lemma CompletedCancellationWins(s: State, events: seq<Timed>, c: Id)
    requires Inv(s) && c in s.cancellations && s.cancellations[c].status == Completed
    ensures var t := Run(s, events); Finishable(t.service.status) && t.service.suspensionInvoice.None?
  {
    hide Run, TableSound, AllHold, OneOwner, MutationsSound, JobsSound;
    CompletedStays(s, events, c);
    RunKeeps(s, events);
    assert SomeCompleted(Run(s, events));
  }

  /**
   A suspended service becomes ACTIVE only by completing the reactivation for the very invoice that its
   last suspension named.
   */
  lemma ReactivatedByItsInvoice(s: State, t: Timed)
    requires Inv(s) && s.service.status == Suspended && Step(s, t).service.status == Active
    ensures t.event.Complete? && t.event.worker in s.workers && s.workers[t.event.worker].row < |s.ops|
    ensures var source := s.ops[s.workers[t.event.worker].row].source;
      source.Unsuspension? && s.service.suspendedBy == Some(source.invoice) == s.service.suspensionInvoice
  {
    hide Latest, OtherRunning, Eligible, Closed, Retries, TableSound, AllHold, OneOwner, MutationsSound, JobsSound;
  }
}
