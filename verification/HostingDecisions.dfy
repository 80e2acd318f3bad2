/**
 What decides a suspension or a reactivation, condition by condition: which job opens an attempt, which
 attempt goes on to the panel, and what a completed or failed one writes.  The conditions are spelled out
 on the rows themselves, so they say what the protocol's own predicates must come to.
 */
module HostingDecisions {
  import opened HostingAutomation
  import opened HostingSafety
  import opened Options

  // ----- the conditions, spelled out ----------------------------------------------------------

  /** A cancellation after which no invoice may bring the service back. */
  ghost predicate Forbids(c: Cancellation, now: int) {
    c.status == Completed || (c.status == Open && (c.approvedAt != None || (c.effectiveAt.Some? && c.effectiveAt.value <= now)))
  }

  /** The panel may be asked to carry out what the source wants. */
  ghost predicate Warranted(s: State, source: Source, invoice: Option<Invoice>, now: int) {
    match source
    case Cancelled(_) => s.service.status == Active
    case Suspension(i) =>
      && invoice.Some? && invoice.value.id == i && invoice.value.coversService
      && invoice.value.overdue && 0 < invoice.value.balanceDue && s.service.status == Active
    case Unsuspension(i) =>
      && invoice.Some? && invoice.value.id == i && invoice.value.coversService
      && invoice.value.paid && 0 == invoice.value.balanceDue
      && s.service.status == Suspended && s.service.suspensionInvoice == Some(i)
      && forall c | c in s.cancellations :: !Forbids(s.cancellations[c], now)
  }

  lemma WarrantedIsEligible(s: State, source: Source, invoice: Option<Invoice>, now: int)
    ensures Warranted(s, source, invoice, now) <==> Eligible(s, source, invoice, now)
  {
    assert forall c | c in s.cancellations :: Forbids(s.cancellations[c], now) <==> BlocksReactivation(s.cancellations[c], now);
  }

  // ----- which attempt goes to the panel ------------------------------------------------------

  /** A worker that may take an event at this stage. */
  ghost predicate AtStage(s: State, w: Id, now: int) {
    s.clock <= now && w in s.workers && s.workers[w].row < |s.ops|
  }

  function Went(s: State, w: Id, stage: Stage, now: int): State
    requires w in s.workers
  {
    s.(clock := now, workers := s.workers[w := Worker(s.workers[w].row, s.workers[w].owner, stage)])
  }

  /** An unreadable invoice fails the attempt; a warranted one goes on to the panel and any other is skipped. */
  lemma DecisionDecides(s: State, w: Id, readable: bool, invoice: Option<Invoice>, now: int)
    requires AtStage(s, w, now) && s.workers[w].stage.Deciding?
    ensures Step(s, Timed(Decide(w, readable, invoice), now)) ==
      Went(s, w, if !readable then Failing(Temporary)
                 else if Warranted(s, s.ops[s.workers[w].row].source, invoice, now) then Mutating
                 else Skipping, now)
  {
    hide Eligible, Warranted;
    var u := s.(clock := now);
    var source := s.ops[s.workers[w].row].source;
    WarrantedIsEligible(u, source, invoice, now);
    WarrantIgnoresClock(s, source, invoice, now);
  }

  lemma WarrantIgnoresClock(s: State, source: Source, invoice: Option<Invoice>, now: int)
    ensures Warranted(s.(clock := now), source, invoice, now) <==> Warranted(s, source, invoice, now)
  {
  }

  ghost predicate IsMutating(s: State, w: Id) {
    w in s.workers && s.workers[w].stage.Mutating?
  }

  /** The decision that sends row k to the panel. */
  ghost predicate Sends(s: State, t: Timed, w: Id, k: nat, source: Source) {
    && t.event.Decide? && t.event.worker == w && t.event.readable
    && AtStage(s, w, t.now) && s.workers[w].stage.Deciding? && s.workers[w].row == k
    && s.ops[k].source == source && Warranted(s, source, t.event.invoice, t.now)
  }

  /** A worker newly goes to the panel exactly by a readable and warranted decision. */
  lemma MutatingExactlyWarranted(s: State, t: Timed, w: Id)
    requires !IsMutating(s, w)
    ensures IsMutating(Step(s, t), w) <==> exists k, source :: Sends(s, t, w, k, source)
  {
    hide Warranted, Latest, OtherRunning, Retries, Closed, Completes;
    if t.event.Decide? && t.event.worker == w && AtStage(s, w, t.now) && s.workers[w].stage.Deciding? {
      DecisionDecides(s, w, t.event.readable, t.event.invoice, t.now);
      var k := s.workers[w].row;
      assert Sends(s, t, w, k, s.ops[k].source) <==>
        t.event.readable && Warranted(s, s.ops[k].source, t.event.invoice, t.now);
    } else {
      NotByOthers(s, t, w);
    }
  }

  lemma NotByOthers(s: State, t: Timed, w: Id)
    requires !IsMutating(s, w)
    requires !(t.event.Decide? && t.event.worker == w && AtStage(s, w, t.now) && s.workers[w].stage.Deciding?)
    ensures !IsMutating(Step(s, t), w)
  {
    hide Latest, OtherRunning, Retries, Closed, Eligible;
  }

  // ----- what the other steps of a worker write -----------------------------------------------

  lemma SkipDecides(s: State, w: Id, stored: bool, now: int)
    requires AtStage(s, w, now) && s.workers[w].stage.Skipping?
    ensures var k := s.workers[w].row;
      Step(s, Timed(Skip(w, stored), now)) ==
      if !stored then Went(s, w, Failing(Temporary), now)
      else s.(clock := now, workers := s.workers - {w},
              ops := s.ops[k := if s.ops[k].status == Running then s.ops[k].(status := Succeeded) else s.ops[k]])
  {
  }

  lemma PanelDecides(s: State, w: Id, answer: Panel, now: int)
    requires AtStage(s, w, now) && s.workers[w].stage.Mutating?
    ensures Step(s, Timed(Mutate(w, answer), now)) ==
      Went(s, w, if answer == Verified then Completing else Failing(answer.kind), now).(
        mutations := s.mutations + [s.workers[w].row])
  {
  }

  /** The service the completing transaction still has to find, for what the source wants. */
  ghost predicate StillWanted(s: State, source: Source) {
    match source
    case Suspension(_) => s.service.status == Active
    case Unsuspension(i) => s.service.status == Suspended && s.service.suspensionInvoice == Some(i)
    case Cancelled(c) => s.service.status == Active && c in s.cancellations && s.cancellations[c].status == Open
  }

  /** After the panel: the row succeeds together with the service, or its result stays unknown. */
  lemma CompletionDecides(s: State, w: Id, stored: bool, now: int)
    requires AtStage(s, w, now) && s.workers[w].stage.Completing?
    ensures var k := s.workers[w].row; var source := s.ops[k].source;
      var done := s.(clock := now, workers := s.workers - {w}, ops := s.ops[k := s.ops[k].(status := Succeeded)]);
      Step(s, Timed(Complete(w, stored), now)) ==
      if !stored || !StillWanted(s, source) then Went(s, w, Failing(Inconsistent), now)
      else match source
           case Suspension(i) =>
             done.(service := Service(Suspended, Some(i), s.service.nextDueAt, Some(i)))
           case Unsuspension(i) =>
             done.(service := Service(Active, None, s.service.nextDueAt, s.service.suspendedBy))
           case Cancelled(c) =>
             done.(service := Service(Suspended, None, s.service.nextDueAt, s.service.suspendedBy),
                   cancellations := s.cancellations[c := s.cancellations[c].(status := Completed)])
  {
  }

  /** A row that is not RUNNING any more keeps the result it has. */
  lemma FailureDecides(s: State, w: Id, now: int)
    requires AtStage(s, w, now) && s.workers[w].stage.Failing?
    ensures var k := s.workers[w].row; var op, kind := s.ops[k], s.workers[w].stage.kind;
      Step(s, Timed(Fail(w), now)) ==
      s.(clock := now, workers := s.workers - {w},
         ops := s.ops[k :=
           if op.status != Running then op
           else if kind == Inconsistent then op.(status := Unknown, retryable := false, errorKind := Some(Inconsistent))
           else if kind == Permanent then op.(status := Failed, retryable := false, errorKind := Some(Permanent))
           else op.(status := Failed, retryable := op.attempt < 3, errorKind := Some(Temporary))])
  {
  }

  // ----- the preparation transaction ----------------------------------------------------------

  /** The last row of a source, if it has one. */
  ghost predicate IsLast(ops: seq<Operation>, source: Source, last: Option<nat>) {
    match last
    case None => forall k | 0 <= k < |ops| :: ops[k].source != source
    case Some(i) => i < |ops| && ops[i].source == source && forall k | i < k < |ops| :: ops[k].source != source
  }

  lemma LastIsLatest(ops: seq<Operation>, source: Source, last: Option<nat>)
    requires IsLast(ops, source, last)
    ensures Latest(ops, source) == if last.Some? then last.value else -1
  {
    hide Latest;
    var e := Latest(ops, source);
  }

  /** A row of the service is RUNNING, other than the source's last. */
  ghost predicate InProgress(ops: seq<Operation>, last: Option<nat>) {
    exists i | 0 <= i < |ops| :: ops[i].status == Running && last != Some(i)
  }

  /** The first attempt, the next one after a temporary failure that may be retried, or no attempt at all. */
  ghost function Attempt(s: State, w: Id, source: Source, last: Option<nat>, now: int): State
    requires last.Some? ==> last.value < |s.ops|
  {
    var beginning := Worker(|s.ops|, true, Deciding);
    match last
    case None =>
      s.(clock := now, ops := s.ops + [Operation(source, 1, None, Running, None, false)], workers := s.workers[w := beginning])
    case Some(e) =>
      var op := s.ops[e];
      if op.status == Running then s.(clock := now, workers := s.workers[w := Worker(e, false, Failing(Inconsistent))])
      else if op.status == Failed && op.errorKind == Some(Temporary) && op.retryable && op.attempt < 3 then
        s.(clock := now, ops := s.ops + [Operation(source, op.attempt + 1, Some(e), Running, None, false)],
           workers := s.workers[w := beginning])
      else s.(clock := now)
  }

  lemma OpenedIsAttempt(s: State, w: Id, source: Source, last: Option<nat>, now: int)
    requires IsLast(s.ops, source, last)
    ensures Opened(s.(clock := now), w, source) == Attempt(s, w, source, last, now)
  {
    hide Latest;
    LastIsLatest(s.ops, source, last);
  }

  lemma InProgressIsRunning(ops: seq<Operation>, last: Option<nat>)
    ensures InProgress(ops, last) <==> OtherRunning(ops, if last.Some? then last.value else -1)
  {
  }

  /** A job for an invoice opens an attempt unless its last one succeeded or another operation is running. */
  lemma InvoiceJobDecides(s: State, w: Id, source: Source, job: Job, otherRunning: bool, last: Option<nat>, now: int)
    requires s.clock <= now && w !in s.workers && !source.Cancelled? && IsLast(s.ops, source, last)
    ensures Step(s, Timed(Prepare(w, source, job, otherRunning), now)) ==
      if (last.Some? && s.ops[last.value].status == Succeeded) || otherRunning || InProgress(s.ops, last)
      then s.(clock := now)
      else Attempt(s, w, source, last, now)
  {
    hide Latest, OtherRunning, InProgress, Opened, Attempt;
    LastIsLatest(s.ops, source, last);
    InProgressIsRunning(s.ops, last);
    OpenedIsAttempt(s, w, source, last, now);
  }

  /** At most one deferral of a job is kept. */
  ghost function PutOff(jobs: map<Job, Scheduled>, job: Job, next: Scheduled): map<Job, Scheduled> {
    if After(job) in jobs then jobs else jobs[After(job) := next]
  }

  /**
   A job for a cancellation that is open and due waits while the service is busy, a minute at a time and
   for less than five; follows a due date that has moved on; ends a cancellation of a service that is down
   already; and opens an attempt for an active one.
   */
  lemma CancellationJobDecides(s: State, w: Id, c: Id, job: Job, otherRunning: bool, last: Option<nat>, now: int)
    requires s.clock <= now && w !in s.workers && IsLast(s.ops, Cancelled(c), last)
    requires job in s.jobs && s.jobs[job].cancellation == c && s.jobs[job].availableAt <= now
    requires c in s.cancellations && s.cancellations[c].status == Open
    ensures var request, t := s.cancellations[c], Step(s, Timed(Prepare(w, Cancelled(c), job, otherRunning), now));
      (request.effectiveAt == None && request.approvedAt == None ==> t == s.(clock := now))
    ensures var request, t := s.cancellations[c], Step(s, Timed(Prepare(w, Cancelled(c), job, otherRunning), now));
      request.effectiveAt != None || request.approvedAt != None ==>
        var due := if request.effectiveAt != None then request.effectiveAt.value else request.approvedAt.value;
        t == if due > now then s.(clock := now)
             else if otherRunning || InProgress(s.ops, last) then
               if now >= due + 300_000 then s.(clock := now)
               else s.(clock := now, jobs := PutOff(s.jobs, job,
                 Scheduled(c, now + 60_000, Some(due), if s.jobs[job].due == Some(due) then s.jobs[job].depth + 1 else 1)))
             else if request.effectiveAt != None && s.service.nextDueAt > due then
               s.(clock := now, cancellations := s.cancellations[c := request.(effectiveAt := Some(s.service.nextDueAt))],
                  jobs := PutOff(s.jobs, job, Scheduled(c, s.service.nextDueAt, Some(s.service.nextDueAt), 0)))
             else if s.service.status in {Suspended, Terminated} then
               s.(clock := now, service := s.service.(suspensionInvoice := None),
                  cancellations := s.cancellations[c := request.(status := Completed)])
             else if s.service.status == Active then Attempt(s, w, Cancelled(c), last, now)
             else s.(clock := now)
  {
    hide Latest, OtherRunning, InProgress, Opened, Attempt;
    LastIsLatest(s.ops, Cancelled(c), last);
    InProgressIsRunning(s.ops, last);
    OpenedIsAttempt(s, w, Cancelled(c), last, now);
  }

  /** Without a job that may run, or an open cancellation, nothing happens. */
  lemma CancellationJobIgnored(s: State, w: Id, c: Id, job: Job, otherRunning: bool, now: int)
    requires s.clock <= now && w !in s.workers
    requires !(job in s.jobs && s.jobs[job].cancellation == c && s.jobs[job].availableAt <= now
               && c in s.cancellations && s.cancellations[c].status == Open)
    ensures Step(s, Timed(Prepare(w, Cancelled(c), job, otherRunning), now)) == s.(clock := now)
  {
    hide Latest, OtherRunning;
  }

  // ----- over whole runs ----------------------------------------------------------------------

  function Earlier(s: State, events: seq<Timed>, i: nat): State
    requires i <= |events|
  {
    Run(s, events[..i])
  }

  lemma {:induction false} RunSnoc(s: State, events: seq<Timed>, t: Timed)
    ensures Run(s, events + [t]) == Step(Run(s, events), t)
    decreases |events|
  {
    hide Step;
    if events == [] {
      assert [t][1..] == [];
    } else {
      RunSnoc(Step(s, events[0]), events[1..], t);
      assert (events + [t])[1..] == events[1..] + [t];
    }
  }

  lemma LastStep(s: State, events: seq<Timed>)
    requires events != []
    ensures Run(s, events) == Step(Run(s, events[..|events| - 1]), events[|events| - 1])
  {
    hide Run, Step;
    var front := events[..|events| - 1];
    assert events == front + [events[|events| - 1]];
    RunSnoc(s, front, events[|events| - 1]);
  }

  /** Row k, opened for this source, is on its way to the panel or has been there. */
  ghost predicate Sent(s: State, k: nat, source: Source) {
    && k < |s.ops| && s.ops[k].source == source
    && (k in s.mutations || exists w | w in s.workers :: s.workers[w].stage.Mutating? && s.workers[w].row == k)
  }

  ghost predicate WasSent(s: State, events: seq<Timed>, k: nat, source: Source) {
    exists i, w | 0 <= i < |events| :: Sends(Earlier(s, events, i), events[i], w, k, source)
  }

  ghost predicate SameSources(s: State, t: State) {
    |s.ops| <= |t.ops| && forall k | 0 <= k < |s.ops| :: t.ops[k].source == s.ops[k].source
  }

  lemma RowsKeepTheirSource(s: State, t: Timed)
    ensures SameSources(s, Step(s, t))
  {
    hide Prepared, Advance;
    var e, u := t.event, s.(clock := t.now);
    if e.Prepare? {
      PreparedKeepsSources(u, e.worker, e.source, e.job, e.otherRunning, t.now);
    } else if e.Decide? || e.Skip? || e.Mutate? || e.Complete? || e.Fail? {
      if e.worker in u.workers && u.workers[e.worker].row < |u.ops| { AdvanceKeepsSources(u, e.worker, e, t.now); }
    }
  }

  lemma PreparedKeepsSources(s: State, w: Id, source: Source, job: Job, otherRunning: bool, now: int)
    ensures SameSources(s, Prepared(s, w, source, job, otherRunning, now))
  {
    hide Latest, OtherRunning, Retries, BusyAgain;
  }

  lemma AdvanceKeepsSources(s: State, w: Id, e: Event, now: int)
    requires w in s.workers && s.workers[w].row < |s.ops|
    ensures SameSources(s, Advance(s, w, e, now))
  {
    hide Eligible;
  }

  lemma MutationsComeFrom(s: State, t: Timed, k: nat)
    requires k in Step(s, t).mutations
    ensures k in s.mutations
         || exists w | w in s.workers :: s.workers[w].stage.Mutating? && s.workers[w].row == k && k < |s.ops|
  {
    hide Latest, OtherRunning, Retries, Eligible, Closed, Completes;
  }

  lemma MutatingKeepsRow(s: State, t: Timed, w: Id)
    requires IsMutating(s, w) && IsMutating(Step(s, t), w)
    ensures Step(s, t).workers[w].row == s.workers[w].row
  {
    hide Latest, OtherRunning, Retries, Eligible, Closed, Completes;
  }

  lemma SentRow(s: State, t: Timed, w: Id, k: nat, source: Source)
    requires Sends(s, t, w, k, source)
    ensures var after := Step(s, t); w in after.workers && after.workers[w].row == k && after.ops == s.ops
  {
    hide Warranted;
    DecisionDecides(s, w, true, t.event.invoice, t.now);
  }

  /** A row comes to be sent only by a decision. */
  lemma SentByDecision(s: State, t: Timed, k: nat, source: Source)
    requires Inv(s) && Sent(Step(s, t), k, source)
    ensures Sent(s, k, source) || exists w :: Sends(s, t, w, k, source)
  {
    hide Step, Sends, TableSound, OneOwner, ServiceSound, JobsSound;
    var after := Step(s, t);
    RowsKeepTheirSource(s, t);
    if k in after.mutations {
      MutationsComeFrom(s, t, k);
    } else {
      var w :| w in after.workers && after.workers[w].stage.Mutating? && after.workers[w].row == k;
      if IsMutating(s, w) {
        MutatingKeepsRow(s, t, w);
        assert Holds(s, w);
      } else {
        MutatingExactlyWarranted(s, t, w);
        var j: nat, other :| Sends(s, t, w, j, other);
        SentRow(s, t, w, j, other);
        SentSource(s, t, w, j, other);
      }
    }
  }

  lemma SentSource(s: State, t: Timed, w: Id, k: nat, source: Source)
    requires Sends(s, t, w, k, source)
    ensures k < |s.ops| && s.ops[k].source == source
  {
  }

  lemma {:induction false} SentWasWarranted(nextDueAt: int, clock: int, events: seq<Timed>, k: nat, source: Source)
    requires Sent(Run(Initial(nextDueAt, clock), events), k, source)
    ensures WasSent(Initial(nextDueAt, clock), events, k, source)
    decreases |events|
  {
    hide Step, Run, Sends, Sent, WasSent, Inv;
    var s := Initial(nextDueAt, clock);
    if events == [] {
      NothingSent(nextDueAt, clock, k, source);
    } else {
      var front := events[..|events| - 1];
      LastStep(s, events);
      Reachable(nextDueAt, clock, front);
      SentByDecision(Run(s, front), events[|front|], k, source);
      if Sent(Run(s, front), k, source) {
        SentWasWarranted(nextDueAt, clock, front, k, source);
        SentEarlier(s, events, k, source);
      } else {
        var w :| Sends(Run(s, front), events[|front|], w, k, source);
        SentLast(s, events, w, k, source);
      }
    }
  }

  lemma NothingSent(nextDueAt: int, clock: int, k: nat, source: Source)
    ensures !Sent(Run(Initial(nextDueAt, clock), []), k, source)
  {
  }

  lemma SentEarlier(s: State, events: seq<Timed>, k: nat, source: Source)
    requires events != [] && WasSent(s, events[..|events| - 1], k, source)
    ensures WasSent(s, events, k, source)
  {
    hide Sends, Run;
    var front := events[..|events| - 1];
    var i, w :| 0 <= i < |front| && Sends(Earlier(s, front, i), front[i], w, k, source);
    assert front[..i] == events[..i];
    assert Sends(Earlier(s, events, i), events[i], w, k, source);
  }

  lemma SentLast(s: State, events: seq<Timed>, w: Id, k: nat, source: Source)
    requires events != [] && Sends(Run(s, events[..|events| - 1]), events[|events| - 1], w, k, source)
    ensures WasSent(s, events, k, source)
  {
    hide Sends, Run;
    assert Sends(Earlier(s, events, |events| - 1), events[|events| - 1], w, k, source);
  }

  /**
   Every row that entered the panel was sent there by a decision its invoice, its service and its
   cancellations warranted at that moment: a suspension by an invoice overdue with something left to pay, a
   reactivation by the paid invoice that held the service.
   */
  lemma MutationsWereWarranted(nextDueAt: int, clock: int, events: seq<Timed>, n: nat)
    requires n < |Run(Initial(nextDueAt, clock), events).mutations|
    ensures var t := Run(Initial(nextDueAt, clock), events); var k := t.mutations[n];
      k < |t.ops| && WasSent(Initial(nextDueAt, clock), events, k, t.ops[k].source)
  {
    hide Run, Step, WasSent, TableSound, AllHold, OneOwner, ServiceSound, JobsSound;
    Reachable(nextDueAt, clock, events);
    var t := Run(Initial(nextDueAt, clock), events);
    var k := t.mutations[n];
    SentWasWarranted(nextDueAt, clock, events, k, t.ops[k].source);
  }
}
