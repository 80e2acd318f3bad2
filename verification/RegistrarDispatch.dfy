/**
 Registering domains through a registrar account (packages/database/src/registrar/processor.ts).

 Every database transaction is one step.  The calls to the registrar between two transactions are steps
 of their own whose answers are arbitrary; a worker may stop for good between any two steps, and any
 number of workers may be handed the same operation at any time.
 */
module RegistrarDispatch {
  import opened Options

  type Id = nat

  const MAX_POLLS: nat := 10
  const POLL_SLOT: int := 360_000

  datatype Mode = Fake | Live

  datatype DomainState = AwaitingPayment | AwaitingApproval | Pending | NeedsReconciliation | Failed | Registered

  datatype Registration = Registration(orderId: Id, expiresAt: int, verified: bool)

  datatype Domain = Domain(
    customer: Id, name: Id, executionAccount: Option<Id>, state: DomainState, registration: Option<Registration>)

  datatype Operation = Operation(
    domain: Id, account: Id, selected: Option<Id>, ceiling: int, riskAccepted: bool,
    claimedAt: Option<int>, pollCount: nat, nextPollAt: int)

  /** The account an operation is carried out with. */
  function Bound(op: Operation): Id {
    match op.selected case Some(id) => id case None => op.account
  }

  predicate Terminal(state: DomainState) {
    state == Registered || state == Failed
  }

  // ----- the invoice behind a domain ----------------------------------------------------------

  datatype Kind = Charge | Refund

  datatype Payment = Payment(succeeded: bool, kind: Kind, currency: string, verified: bool, amount: int)

  datatype Invoice = Invoice(
    customer: Id, paid: bool, currency: string, total: int, balanceDue: int, amountPaid: int, payments: seq<Payment>)

  function Sum(payments: seq<Payment>, counts: Payment -> bool): int {
    if payments == [] then 0
    else (if counts(payments[0]) then payments[0].amount else 0) + Sum(payments[1..], counts)
  }

  /** A payment that succeeded is a verified charge in taka. */
  predicate Clean(p: Payment) {
    p.succeeded ==> p.kind == Charge && p.currency == "BDT" && p.verified
  }

  /** Paid in full, in taka, by verified charges and by nothing else that succeeded. */
  predicate FullyPaid(invoice: Invoice, customer: Id) {
    && invoice.customer == customer && invoice.paid && invoice.currency == "BDT"
    && invoice.total > 0 && invoice.balanceDue == 0 && invoice.amountPaid == invoice.total
    && (forall i | 0 <= i < |invoice.payments| :: Clean(invoice.payments[i]))
    && Sum(invoice.payments, (p: Payment) => p.succeeded) == invoice.total
  }

  // ----- what a transaction reads besides the rows it changes ---------------------------------

  datatype Credentialed = Unreadable | Credential(account: Id)

  /** The rows only a LIVE account has: its profile, the mapping's selection and the agreement. */
  datatype LiveFacts = LiveFacts(
    modern: bool, costConfirmed: bool, resellerMatches: bool, agreementAccepted: bool,
    selection: Option<bool>, nameserversMatch: bool)

  datatype Approver = Approver(admin: bool, active: bool, deleted: bool, fullAdministrator: bool, totp: bool)

  datatype Customer = Customer(active: bool, deleted: bool, userActive: bool, emailVerified: bool, userDeleted: bool)

  datatype OrderStatus =
    OrderPending | AwaitingOrderPayment | Paid | Processing | Completed | OrderRejected | Cancelled | OrderFailed

  datatype Facts = Facts(
    mode: Mode, originMode: Mode, enabled: bool, knownProvider: bool, billed: bool, credential: Credentialed,
    live: LiveFacts, actionOutstanding: bool, approver: Option<Approver>, customer: Option<Customer>,
    order: OrderStatus, invoice: Option<Invoice>)

  datatype Permissions = Permissions(simulationAllowed: bool, liveAllowed: bool)

  predicate LiveReady(live: LiveFacts, op: Operation) {
    && (live.modern ==> live.costConfirmed)
    && live.resellerMatches && live.agreementAccepted
    && (match live.selection
        case Some(eligible) => eligible && op.selected.Some?
        case None => live.nameserversMatch)
  }

  /** The tests every run must pass before it claims or takes a read slot. */
  predicate Admitted(op: Operation, domain: Domain, f: Facts, permissions: Permissions, seen: int) {
    && f.billed
    && f.mode == f.originMode
    && (op.selected.Some? ==> domain.executionAccount == Some(Bound(op)))
    && f.enabled
    && (if f.mode == Fake then permissions.simulationAllowed else permissions.liveAllowed && op.riskAccepted)
    && f.knownProvider
    && !Terminal(domain.state)
    && op.pollCount < MAX_POLLS
    && (op.claimedAt.Some? ==> op.nextPollAt <= seen)
    && f.credential == Credential(Bound(op))
    && (f.mode == Live ==> LiveReady(f.live, op))
  }

  /** Payment, owner and approver are still in order. */
  predicate Eligible(f: Facts, owner: Id) {
    && f.approver.Some? && f.customer.Some?
    && f.approver.value == Approver(true, true, false, true, true)
    && f.customer.value.active && !f.customer.value.deleted && f.customer.value.userActive && !f.customer.value.userDeleted
    && (f.mode == Live ==> f.customer.value.emailVerified)
    && (f.order == Paid || f.order == Processing)
    && f.invoice.Some? && FullyPaid(f.invoice.value, owner)
  }

  // ----- registrar calls ----------------------------------------------------------------------

  datatype Intent = Intent(operation: Id, account: Id, customer: Id, name: Id, ceiling: int)

  datatype Quote = Quote(available: bool, cost: int, inDollars: bool, simulated: bool)

  datatype Observed = Active | InActive | Rejected

  /** expiresAt is None when the Date is not a time. */
  datatype Observation = Observation(
    account: Id, customer: Id, operation: Id, name: Id, state: Observed, expiresAt: Option<int>,
    orderId: Id, verified: bool)

  datatype Answer<+T> = Threw | Answered(value: T)

  predicate Conflict(quote: Quote, existing: Option<Observation>, mode: Mode, ceiling: int) {
    || existing.Some? || !quote.available || !quote.inDollars || quote.simulated != (mode == Fake)
    || quote.cost > ceiling || quote.cost <= 0
  }

  predicate Matches(o: Observation, intent: Intent, seen: int) {
    && o.account == intent.account && o.customer == intent.customer && o.operation == intent.operation
    && o.name == intent.name && o.expiresAt.Some? && o.expiresAt.value > seen
  }

  // ----- the shared state and the workers -----------------------------------------------------

  /** Where a worker is between two steps. */
  datatype Pc =
    | Quoting(intent: Intent, mode: Mode)
    | Preparing(intent: Intent, cost: int)
    | Registering(intent: Intent, cost: int)
    | Looking(intent: Intent)
    | Settling(intent: Intent, observation: Option<Observation>)

  /** A call of registerOnce, with the cost quoted just before it. */
  datatype Call = Call(operation: Id, cost: int)

  datatype State = State(
    ops: map<Id, Operation>, domains: map<Id, Domain>, workers: map<Id, Pc>,
    calls: seq<Call>, slots: map<Id, seq<int>>, clock: int)

  datatype Event =
    | Order(domain: Id, row: Domain)
    | Approve(op: Id, approval: Operation)
    | Prepare(worker: Id, op: Id, facts: Facts, permissions: Permissions)
    | QuoteAnswer(worker: Id, quote: Answer<Quote>, existing: Answer<Option<Observation>>)
    | ContactsAnswer(worker: Id, ok: bool)
    | Register(worker: Id)
    | LookupAnswer(worker: Id, answer: Answer<Option<Observation>>)
    | Settle(worker: Id)
    | Stop(worker: Id)

  /** An event with two readings of the clock: one its tests use and one it writes. */
  datatype Timed = Timed(event: Event, seen: int, now: int)

  predicate IsClaimed(s: State, o: Id) {
    o in s.ops && s.ops[o].claimedAt.Some?
  }

  /** Another claimed operation of the account whose domain is still open. */
  predicate Busy(s: State, o: Id, account: Id) {
    exists p | p in s.ops :: p != o && s.ops[p].claimedAt.Some? && Bound(s.ops[p]) == account
      && s.ops[p].domain in s.domains && !Terminal(s.domains[s.ops[p].domain].state)
  }

  function IntentOf(o: Id, op: Operation, domain: Domain): Intent {
    Intent(o, Bound(op), domain.customer, domain.name, op.ceiling)
  }

  predicate MayClaim(s: State, o: Id, f: Facts, owner: Id)
    requires o in s.ops
  {
    Eligible(f, owner) && !f.actionOutstanding && !Busy(s, o, Bound(s.ops[o]))
  }

  /** Whether the claim is denied for its payment, owner or approver, rather than put off. */
  predicate SentBack(f: Facts, owner: Id) {
    !(f.mode == Live && f.actionOutstanding) && !Eligible(f, owner)
  }

  function Gone(s: State, w: Id): State {
    s.(workers := s.workers - {w})
  }

  function Moved(s: State, w: Id, pc: Pc): State {
    s.(workers := s.workers[w := pc])
  }

  /** An operation, its domain and its record of poll times, rewritten together. */
  function Rewritten(s: State, o: Id, op: Operation, domain: Domain, slots: seq<int>): State {
    s.(ops := s.ops[o := op], domains := s.domains[op.domain := domain], slots := s.slots[o := slots])
  }

  /** The rows after the preparation transaction, and what the worker may do next. */
  function Prepared(s: State, w: Id, o: Id, f: Facts, permissions: Permissions, seen: int, now: int): State {
    if o !in s.ops || s.ops[o].domain !in s.domains || o !in s.slots then s
    else
      var op, domain := s.ops[o], s.domains[s.ops[o].domain];
      if !Admitted(op, domain, f, permissions, seen) then s
      else
        var slot, slots := op.(pollCount := op.pollCount + 1, nextPollAt := now + POLL_SLOT), s.slots[o] + [now];
        if op.claimedAt.Some? then
          Moved(Rewritten(s, o, slot, domain, slots), w, Looking(IntentOf(o, op, domain)))
        else if SentBack(f, domain.customer) then Rewritten(s, o, op, domain.(state := AwaitingApproval), s.slots[o])
        else if !MayClaim(s, o, f, domain.customer) then s
        else
          Moved(Rewritten(s, o, slot.(claimedAt := Some(now)), domain.(state := NeedsReconciliation), slots),
                w, Quoting(IntentOf(o, op, domain), f.mode))
  }

  function Delay(pollCount: nat): int {
    if pollCount == 1 then 15_000 else if pollCount == 2 then 30_000 else 360_000
  }

  function Verdict(o: Option<Observation>, intent: Intent, seen: int): DomainState {
    if o.Some? && Matches(o.value, intent, seen) then
      match o.value.state
      case Active => Registered
      case Rejected => Failed
      case InActive => NeedsReconciliation
    else NeedsReconciliation
  }

  /** The rows after the closing transaction. */
  function Settled(s: State, intent: Intent, found: Option<Observation>, seen: int, now: int): State {
    var o := intent.operation;
    if o !in s.ops || s.ops[o].domain !in s.domains || o !in s.slots then s
    else
      var op, domain := s.ops[o], s.domains[s.ops[o].domain];
      if Terminal(domain.state) then s
      else
        Rewritten(s, o, op.(nextPollAt := now + Delay(op.pollCount)), Concluded(domain, found, intent, seen), s.slots[o])
  }

  /** A domain with the verdict on it; the registration is recorded when it is confirmed. */
  function Concluded(domain: Domain, found: Option<Observation>, intent: Intent, seen: int): Domain {
    var state := Verdict(found, intent, seen);
    domain.(state := state,
            registration := if state == Registered
                            then Some(Registration(found.value.orderId, found.value.expiresAt.value, found.value.verified))
                            else domain.registration)
  }

  /** A domain is ordered once; its operation is created by the first approval and kept by later ones. */
  function Ordered(s: State, d: Id, row: Domain): State {
    if d in s.domains || row.state != AwaitingPayment || row.registration.Some? then s
    else s.(domains := s.domains[d := row])
  }

  predicate HasOperation(s: State, d: Id) {
    exists o | o in s.ops :: s.ops[o].domain == d
  }

  function Approved(s: State, o: Id, row: Operation): State {
    if row.domain !in s.domains || row.ceiling <= 0 then s
    else
      var domain := s.domains[row.domain];
      var approved := domain.(
        state := Pending, executionAccount := if row.selected.Some? then row.selected else domain.executionAccount);
      if o in s.ops && o in s.slots then
        if s.ops[o].claimedAt.Some? || s.ops[o].domain != row.domain || Bound(s.ops[o]) != Bound(row) then s
        else Rewritten(s, o, s.ops[o], approved, s.slots[o])
      else if HasOperation(s, row.domain) || row.claimedAt.Some? || row.pollCount != 0 then s
      else Rewritten(s, o, row, approved, [])
  }

  /** After the quote and the first lookup: a conflict ends the run, a failure leaves it to reconciliation. */
  function Quoted(s: State, w: Id, pc: Pc, quote: Answer<Quote>, existing: Answer<Option<Observation>>): State
    requires pc.Quoting?
  {
    match quote
    case Threw => Moved(s, w, Looking(pc.intent))
    case Answered(q) =>
      match existing
      case Threw => Moved(s, w, Looking(pc.intent))
      case Answered(found) =>
        if Conflict(q, found, pc.mode, pc.intent.ceiling) then Gone(s, w)
        else Moved(s, w, Preparing(pc.intent, q.cost))
  }

  function LookedUp(s: State, w: Id, intent: Intent, answer: Answer<Option<Observation>>): State {
    match answer
    case Threw => Gone(s, w)
    case Answered(found) => Moved(s, w, Settling(intent, found))
  }

  function Apply(s: State, e: Event, seen: int, now: int): State {
    match e
    case Order(d, row) => Ordered(s, d, row)
    case Approve(o, row) => Approved(s, o, row)
    case Prepare(w, o, f, permissions) =>
      if w in s.workers then s else Prepared(s, w, o, f, permissions, seen, now)
    case QuoteAnswer(w, quote, existing) =>
      if w !in s.workers || !s.workers[w].Quoting? then s else Quoted(s, w, s.workers[w], quote, existing)
    case ContactsAnswer(w, ok) =>
      if w !in s.workers || !s.workers[w].Preparing? then s
      else
        var pc := s.workers[w];
        Moved(s, w, if ok then Registering(pc.intent, pc.cost) else Looking(pc.intent))
    case Register(w) =>
      if w !in s.workers || !s.workers[w].Registering? then s
      else
        var pc := s.workers[w];
        Moved(s, w, Looking(pc.intent)).(calls := s.calls + [Call(pc.intent.operation, pc.cost)])
    case LookupAnswer(w, answer) =>
      if w !in s.workers || !s.workers[w].Looking? then s else LookedUp(s, w, s.workers[w].intent, answer)
    case Settle(w) =>
      if w !in s.workers || !s.workers[w].Settling? then s
      else Gone(Settled(s, s.workers[w].intent, s.workers[w].observation, seen, now), w)
    case Stop(w) => Gone(s, w)
  }

  /** Time never runs backwards; an event that would is no event. */
  function Step(s: State, t: Timed): State {
    if s.clock <= t.seen <= t.now then Apply(s.(clock := t.now), t.event, t.seen, t.now) else s
  }

  function Run(s: State, events: seq<Timed>): State
    decreases |events|
  {
    if events == [] then s else Run(Step(s, events[0]), events[1..])
  }

  function Initial(clock: int): State {
    State(map[], map[], map[], [], map[], clock)
  }
}
