/**
 Suspending and reactivating one hosting service (apps/worker/src/renewal/hosting-automation.service.ts).

 The rows are those of a single service; every transaction locks its row and touches no other service's.
 Each transaction is one step, each panel call one step with an arbitrary answer, and a worker may stop
 for good between any two of them.
 */
module HostingAutomation {
  import opened Options

  type Id = nat

  const MAX_ATTEMPTS: int := 3
  const BUSY_WINDOW: int := 300_000
  const DEFERRAL: int := 60_000

  datatype ServiceStatus = Pending | Active | Suspended | Terminated

  /** suspendedBy records the invoice of the last suspension that named one. */
  datatype Service = Service(status: ServiceStatus, suspensionInvoice: Option<Id>, nextDueAt: int, suspendedBy: Option<Id>)

  /** What asked for the operation; with the service it makes up the idempotency key. */
  datatype Source = Suspension(invoice: Id) | Unsuspension(invoice: Id) | Cancelled(cancellation: Id)

  datatype ErrorKind = Temporary | Permanent | Inconsistent

  datatype Status = Running | Succeeded | Failed | Unknown

  /** Rows are numbered in the order they are created. */
  datatype Operation = Operation(
    source: Source, attempt: int, retryOf: Option<nat>, status: Status, errorKind: Option<ErrorKind>, retryable: bool)

  datatype CancellationStatus = Open | Completed | Withdrawn

  datatype Cancellation = Cancellation(status: CancellationStatus, effectiveAt: Option<int>, approvedAt: Option<int>)

  function Due(c: Cancellation): Option<int> {
    if c.effectiveAt.Some? then c.effectiveAt else c.approvedAt
  }

  /** A cancellation job: idempotency keys allow one per cancellation, and one deferral of every job. */
  datatype Job = Requested(cancellation: Id) | After(job: Job)

  /** When a job may run, and how often its service was found busy for the due time it was deferred for. */
  datatype Scheduled = Scheduled(cancellation: Id, availableAt: int, due: Option<int>, depth: nat)

  datatype Stage = Deciding | Skipping | Mutating | Completing | Failing(kind: ErrorKind)

  /** owner: this worker created the row. */
  datatype Worker = Worker(row: nat, owner: bool, stage: Stage)

  datatype State = State(
    service: Service, ops: seq<Operation>, cancellations: map<Id, Cancellation>, jobs: map<Job, Scheduled>,
    workers: map<Id, Worker>, mutations: seq<nat>, clock: int)

  datatype Invoice = Invoice(id: Id, overdue: bool, paid: bool, balanceDue: int, coversService: bool)

  datatype Panel = Verified | Error(kind: ErrorKind)

  datatype Event =
    | Ask(id: Id, request: Cancellation)
    | Approve(id: Id, at: int)
    | Withdraw(id: Id)
    | Enqueue(cancellation: Id, availableAt: int)
    | Renew(nextDueAt: int)
    | Terminate
    | Activate
    | Prepare(worker: Id, source: Source, job: Job, otherRunning: bool)
    | Decide(worker: Id, readable: bool, invoice: Option<Invoice>)
    | Skip(worker: Id, stored: bool)
    | Mutate(worker: Id, answer: Panel)
    | Complete(worker: Id, stored: bool)
    | Fail(worker: Id)
    | Stop(worker: Id)

  datatype Timed = Timed(event: Event, now: int)

  // ----- the preparation transaction ----------------------------------------------------------

  /** The latest attempt for a source, or -1. */
  function Latest(ops: seq<Operation>, source: Source): (i: int)
    ensures -1 <= i < |ops|
    ensures i >= 0 ==> ops[i].source == source
    ensures forall k | i < k < |ops| :: ops[k].source != source
  {
    if ops == [] then -1
    else if ops[|ops| - 1].source == source then |ops| - 1
    else Latest(ops[..|ops| - 1], source)
  }

  predicate OtherRunning(ops: seq<Operation>, but: int) {
    exists i | 0 <= i < |ops| :: i != but && ops[i].status == Running
  }

  predicate Retries(op: Operation) {
    op.status == Failed && op.errorKind == Some(Temporary) && op.retryable && op.attempt < MAX_ATTEMPTS
  }

  function NewRow(source: Source, attempt: int, retryOf: Option<nat>): Operation {
    Operation(source, attempt, retryOf, Running, None, false)
  }

  /** Creates the next attempt, or finds out what became of the last one. */
  function Opened(s: State, w: Id, source: Source): State {
    var e := Latest(s.ops, source);
    if e >= 0 && !Retries(s.ops[e]) then
      if s.ops[e].status == Running
      then s.(workers := s.workers[w := Worker(e, false, Failing(Inconsistent))]) else s
    else
      var row := if e < 0 then NewRow(source, 1, None) else NewRow(source, s.ops[e].attempt + 1, Some(e));
      s.(ops := s.ops + [row], workers := s.workers[w := Worker(|s.ops|, true, Deciding)])
  }

  /** At most one deferral is kept per job. */
  function Deferred(s: State, job: Job, next: Scheduled): State {
    if After(job) in s.jobs then s else s.(jobs := s.jobs[After(job) := next])
  }

  function BusyAgain(job: Scheduled, due: int, now: int): Scheduled {
    Scheduled(job.cancellation, now + DEFERRAL, Some(due), if job.due == Some(due) then job.depth + 1 else 1)
  }

  predicate Finishable(status: ServiceStatus) {
    status == Suspended || status == Terminated
  }

  function Finished(s: State, c: Id): State
    requires c in s.cancellations
  {
    s.(cancellations := s.cancellations[c := s.cancellations[c].(status := Completed)])
  }

  /** The cancellation branch of the preparation. */
  function CancellationPrepared(s: State, w: Id, c: Id, job: Job, running: bool, now: int): State {
    if job !in s.jobs || s.jobs[job].cancellation != c || s.jobs[job].availableAt > now
       || c !in s.cancellations || s.cancellations[c].status != Open then s
    else
      var request := s.cancellations[c];
      match Due(request)
      case None => s
      case Some(due) =>
        if due > now then s
        else if running then
          if now - due >= BUSY_WINDOW then s else Deferred(s, job, BusyAgain(s.jobs[job], due, now))
        else if request.effectiveAt.Some? && s.service.nextDueAt > request.effectiveAt.value then
          Deferred(s.(cancellations := s.cancellations[c := request.(effectiveAt := Some(s.service.nextDueAt))]),
                   job, Scheduled(c, s.service.nextDueAt, Some(s.service.nextDueAt), 0))
        else if Finishable(s.service.status) then
          Finished(s.(service := s.service.(suspensionInvoice := None)), c)
        else if s.service.status != Active then s
        else Opened(s, w, Cancelled(c))
  }

  function Prepared(s: State, w: Id, source: Source, job: Job, otherRunning: bool, now: int): State {
    var e := Latest(s.ops, source);
    var running := otherRunning || OtherRunning(s.ops, e);
    if source.Cancelled? then CancellationPrepared(s, w, source.cancellation, job, running, now)
    else if (e >= 0 && s.ops[e].status == Succeeded) || running then s
    else Opened(s, w, source)
  }

  // ----- the rest of a run --------------------------------------------------------------------

  predicate BlocksReactivation(c: Cancellation, now: int) {
    c.status == Completed
    || (c.status == Open && (c.approvedAt.Some? || (c.effectiveAt.Some? && c.effectiveAt.value <= now)))
  }

  predicate CancellationStands(s: State, now: int) {
    exists c | c in s.cancellations :: BlocksReactivation(s.cancellations[c], now)
  }

  predicate Eligible(s: State, source: Source, invoice: Option<Invoice>, now: int) {
    match source
    case Cancelled(_) => s.service.status == Active
    case Suspension(i) =>
      invoice.Some? && invoice.value.id == i && invoice.value.coversService
      && s.service.status == Active && invoice.value.overdue && invoice.value.balanceDue > 0
    case Unsuspension(i) =>
      invoice.Some? && invoice.value.id == i && invoice.value.coversService && !CancellationStands(s, now)
      && s.service.status == Suspended && s.service.suspensionInvoice == Some(i)
      && invoice.value.paid && invoice.value.balanceDue == 0
  }

  /** The guard of the completing transaction, which throws when it fails. */
  predicate Completes(s: State, source: Source) {
    match source
    case Suspension(_) => s.service.status == Active
    case Unsuspension(i) => s.service.status == Suspended && s.service.suspensionInvoice == Some(i)
    case Cancelled(c) => s.service.status == Active && c in s.cancellations && s.cancellations[c].status == Open
  }

  function Applied(s: State, source: Source): State
    requires Completes(s, source)
  {
    match source
    case Suspension(i) =>
      s.(service := s.service.(status := Suspended, suspensionInvoice := Some(i), suspendedBy := Some(i)))
    case Unsuspension(_) => s.(service := s.service.(status := Active, suspensionInvoice := None))
    case Cancelled(c) =>
      Finished(s.(service := s.service.(status := Suspended, suspensionInvoice := None)), c)
  }

  /** updateMany on the row if it is still RUNNING. */
  function Closed(op: Operation, kind: ErrorKind): Operation {
    if op.status != Running then op
    else op.(status := if kind == Inconsistent then Unknown else Failed,
             retryable := kind == Temporary && op.attempt < MAX_ATTEMPTS, errorKind := Some(kind))
  }

  function Gone(s: State, w: Id): State {
    s.(workers := s.workers - {w})
  }

  function At(s: State, w: Id, stage: Stage): State
    requires w in s.workers
  {
    s.(workers := s.workers[w := s.workers[w].(stage := stage)])
  }

  function RowSet(s: State, i: nat, op: Operation): State
    requires i < |s.ops|
  {
    s.(ops := s.ops[i := op])
  }

  /** One step of a worker that holds a row. */
  function Advance(s: State, w: Id, e: Event, now: int): State
    requires w in s.workers && s.workers[w].row < |s.ops|
  {
    var run := s.workers[w];
    var op := s.ops[run.row];
    match run.stage
    case Deciding =>
      if !e.Decide? then s
      else if !e.readable then At(s, w, Failing(Temporary))
      else At(s, w, if Eligible(s, op.source, e.invoice, now) then Mutating else Skipping)
    case Skipping =>
      if !e.Skip? then s
      else if !e.stored then At(s, w, Failing(Temporary))
      else Gone(RowSet(s, run.row, if op.status == Running then op.(status := Succeeded) else op), w)
    case Mutating =>
      if !e.Mutate? then s
      else
        At(s, w, if e.answer.Verified? then Completing else Failing(e.answer.kind)).(mutations := s.mutations + [run.row])
    case Completing =>
      if !e.Complete? then s
      else if !e.stored || !Completes(s, op.source) then At(s, w, Failing(Inconsistent))
      else Gone(RowSet(Applied(s, op.source), run.row, op.(status := Succeeded)), w)
    case Failing(kind) =>
      if !e.Fail? then s else Gone(RowSet(s, run.row, Closed(op, kind)), w)
  }

  function Apply(s: State, e: Event, now: int): State {
    match e
    case Ask(id, c) => if id in s.cancellations || c.status != Open then s else s.(cancellations := s.cancellations[id := c])
    case Approve(id, at) =>
      if id !in s.cancellations || s.cancellations[id].status != Open || Due(s.cancellations[id]).Some? then s
      else s.(cancellations := s.cancellations[id := s.cancellations[id].(approvedAt := Some(at))])
    case Withdraw(id) =>
      if id !in s.cancellations || s.cancellations[id].status != Open then s
      else s.(cancellations := s.cancellations[id := s.cancellations[id].(status := Withdrawn)])
    case Enqueue(c, availableAt) =>
      if Requested(c) in s.jobs then s else s.(jobs := s.jobs[Requested(c) := Scheduled(c, availableAt, None, 0)])
    case Renew(nextDueAt) => s.(service := s.service.(nextDueAt := nextDueAt))
    case Terminate => s.(service := s.service.(status := Terminated))
    case Activate => if s.service.status == Pending then s.(service := s.service.(status := Active)) else s
    case Prepare(w, source, job, otherRunning) =>
      if w in s.workers then s else Prepared(s, w, source, job, otherRunning, now)
    case Stop(w) => Gone(s, w)
    case _ => if e.worker !in s.workers || s.workers[e.worker].row >= |s.ops| then s else Advance(s, e.worker, e, now)
  }

  function Step(s: State, t: Timed): State {
    if s.clock <= t.now then Apply(s.(clock := t.now), t.event, t.now) else s
  }

  function Run(s: State, events: seq<Timed>): State
    decreases |events|
  {
    if events == [] then s else Run(Step(s, events[0]), events[1..])
  }

  /** A service that has not been activated yet, without rows of its own. */
  function Initial(nextDueAt: int, clock: int): State {
    State(Service(Pending, None, nextDueAt, None), [], map[], map[], map[], [], clock)
  }
}
