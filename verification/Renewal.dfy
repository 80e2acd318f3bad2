/**
 Renewal invoices and the due dates they move (apps/worker/src/renewal/renewal-processor.service.ts).

 Each transaction is one step.  A renewal invoice has one line for its service; the lines of add-ons are
 only a sum in its total.
 */
module Renewal {
  import opened BillingPeriods
  import opened Options

  type Id = nat

  const POSTGRES_BIGINT_MAX: int := 9_223_372_036_854_775_807

  datatype ServiceStatus = Active | Suspended | Ended

  /** closed: the customer or user is deleted; cancelling: a cancellation is OPEN or COMPLETED. */
  datatype Service = Service(
    status: ServiceStatus, closed: bool, cancelling: bool, suspensionInvoice: Option<nat>,
    period: Option<Period>, amount: nat, nextDueAt: int)

  datatype InvoiceStatus = Unpaid | Overdue | Paid | Withdrawn

  /** everPaid records that the invoice was PAID with nothing due at some time. */
  datatype Invoice = Invoice(
    service: Id, start: int, end: int, status: InvoiceStatus, total: nat, balanceDue: int, dueAt: int, everPaid: bool)

  /** The idempotency key of a suspension or reactivation request. */
  datatype Request = Request(service: Id, invoice: nat)

  /**
   Invoices are numbered in the order they are issued.  done holds the payments whose automation run is
   SUCCEEDED, running the deliveries of a payment that found it was not.
   */
  datatype State = State(
    services: map<Id, Service>, invoices: seq<Invoice>, suspensions: set<Request>, reactivations: set<Request>,
    done: set<Id>, running: map<Id, Id>)

  datatype Event =
    | Open(id: Id, service: Service)
    | Change(id: Id, service: Service)
    | Create(id: Id, addOns: nat, now: int)
    | MarkOverdue(invoice: nat, now: int)
    | RequestSuspension(id: Id, invoice: nat)
    | Settle(invoice: nat)
    | Reopen(invoice: nat, status: InvoiceStatus, balanceDue: int)
    | BeginPayment(worker: Id, payment: Id)
    | ApplyPayment(invoice: nat)
    | EndPayment(worker: Id, succeeded: bool)
    | StopPayment(worker: Id)

  datatype Creation = Refused | Rejected | Created(invoice: Invoice)

  // ----- the transactions ---------------------------------------------------------------------

  predicate Renewable(service: Service) {
    service.status != Ended && !service.closed && !service.cancelling
  }

  /** The period has a line already. */
  predicate Billed(invoices: seq<Invoice>, id: Id, start: int, end: int) {
    exists i | 0 <= i < |invoices| :: invoices[i].service == id && invoices[i].start == start && invoices[i].end == end
  }

  /** The unique submission key renewal:service:start is taken. */
  predicate KeyTaken(invoices: seq<Invoice>, id: Id, start: int) {
    exists i | 0 <= i < |invoices| :: invoices[i].service == id && invoices[i].start == start
  }

  /** createRenewalInvoice: Rejected when it throws. */
  function Creating(s: State, id: Id, addOns: nat, now: int): Creation {
    if id !in s.services || !Renewable(s.services[id]) then Refused
    else
      var service := s.services[id];
      match service.period
      case None => Rejected
      case Some(period) =>
        var start := service.nextDueAt;
        var end := AddBillingPeriod(start, period);
        var total := service.amount + addOns;
        if Billed(s.invoices, id, start, end) then Refused
        else if total > POSTGRES_BIGINT_MAX then Rejected
        else if KeyTaken(s.invoices, id, start) then Refused
        else Created(Invoice(id, start, end, if total == 0 then Paid else Unpaid,
                             total, total, if start < now then now else start, total == 0))
  }

  function Issued(s: State, invoice: Invoice): State
    requires invoice.service in s.services
  {
    var due := s.services[invoice.service].(nextDueAt := invoice.end);
    s.(invoices := s.invoices + [invoice],
       services := if invoice.status == Paid then s.services[invoice.service := due] else s.services)
  }

  function CreatedIn(s: State, id: Id, addOns: nat, now: int): State {
    match Creating(s, id, addOns, now)
    case Created(invoice) => Issued(s, invoice)
    case _ => s
  }

  predicate OverdueNow(invoice: Invoice, now: int) {
    invoice.status == Unpaid && invoice.balanceDue > 0 && invoice.dueAt <= now
  }

  predicate Applicable(s: State, i: nat) {
    i < |s.invoices| && s.invoices[i].status == Paid && s.invoices[i].balanceDue == 0
    && s.invoices[i].service in s.services
  }

  /** applyRenewalPayment, for a payment of this invoice that succeeded. */
  function PaymentApplied(s: State, i: nat): State {
    if !Applicable(s, i) then s
    else
      var invoice := s.invoices[i];
      var service := s.services[invoice.service];
      var renewed := if service.nextDueAt < invoice.end then service.(nextDueAt := invoice.end) else service;
      s.(services := s.services[invoice.service := renewed],
         reactivations := if service.status == Suspended && service.suspensionInvoice == Some(i)
                          then s.reactivations + {Request(invoice.service, i)} else s.reactivations)
  }

  /** Everything else about a service may change, but not its due date. */
  function Changed(s: State, id: Id, service: Service): State {
    if id !in s.services then s
    else s.(services := s.services[id := service.(nextDueAt := s.services[id].nextDueAt)])
  }

  function Step(s: State, e: Event): State {
    match e
    case Open(id, service) =>
      if id in s.services || DateOf(service.nextDueAt).year < 100 then s else s.(services := s.services[id := service])
    case Change(id, service) => Changed(s, id, service)
    case Create(id, addOns, now) => CreatedIn(s, id, addOns, now)
    case MarkOverdue(i, now) =>
      if i >= |s.invoices| || !OverdueNow(s.invoices[i], now) then s
      else s.(invoices := s.invoices[i := s.invoices[i].(status := Overdue)])
    case RequestSuspension(id, i) => s.(suspensions := s.suspensions + {Request(id, i)})
    case Settle(i) =>
      if i >= |s.invoices| then s
      else s.(invoices := s.invoices[i := s.invoices[i].(status := Paid, balanceDue := 0, everPaid := true)])
    case Reopen(i, status, balanceDue) =>
      if i >= |s.invoices| || status == Paid then s
      else s.(invoices := s.invoices[i := s.invoices[i].(status := status, balanceDue := balanceDue)])
    case BeginPayment(w, p) => if p in s.done || w in s.running then s else s.(running := s.running[w := p])
    case ApplyPayment(i) => PaymentApplied(s, i)
    // the status of the run is written whatever it was
    case EndPayment(w, succeeded) =>
      if w !in s.running then s
      else s.(done := if succeeded then s.done + {s.running[w]} else s.done - {s.running[w]}, running := s.running - {w})
    case StopPayment(w) => s.(running := s.running - {w})
  }

  function Run(s: State, events: seq<Event>): State
    decreases |events|
  {
    if events == [] then s else Run(Step(s, events[0]), events[1..])
  }

  const EMPTY: State := State(map[], [], {}, {}, {}, map[])

  // ----- the invariant ------------------------------------------------------------------------

  /** The latest of a service's invoices, or -1. */
  function Last(invoices: seq<Invoice>, id: Id): (i: int)
    ensures -1 <= i < |invoices|
    ensures i >= 0 ==> invoices[i].service == id
    ensures forall k | i < k < |invoices| :: invoices[k].service != id
  {
    if invoices == [] then -1
    else if invoices[|invoices| - 1].service == id then |invoices| - 1
    else Last(invoices[..|invoices| - 1], id)
  }

  /** Each period begins where the service's previous one ended. */
  ghost predicate Adjoins(invoices: seq<Invoice>, j: nat)
    requires j < |invoices|
  {
    var p := Last(invoices[..j], invoices[j].service);
    p >= 0 ==> invoices[p].end == invoices[j].start
  }

  ghost predicate Tiled(invoices: seq<Invoice>) {
    && (forall i | 0 <= i < |invoices| :: invoices[i].start < invoices[i].end && Adjoins(invoices, i))
    && (forall i, j | 0 <= i < j < |invoices| && invoices[i].service == invoices[j].service ::
          invoices[i].end <= invoices[j].start)
  }

  /** Only the last invoice of a service may never have been paid. */
  ghost predicate PaidBefore(invoices: seq<Invoice>) {
    && (forall i | 0 <= i < |invoices| && invoices[i].status == Paid :: invoices[i].everPaid)
    && (forall i, j | 0 <= i < j < |invoices| && invoices[i].service == invoices[j].service :: invoices[i].everPaid)
  }

  ghost predicate DueAtEdge(s: State, id: Id)
    requires id in s.services
  {
    var due := s.services[id].nextDueAt;
    && DateOf(due).year >= 100
    && var l := Last(s.invoices, id);
       l >= 0 ==> due == s.invoices[l].start || (due == s.invoices[l].end && s.invoices[l].everPaid)
  }

  ghost predicate Inv(s: State) {
    && Tiled(s.invoices) && PaidBefore(s.invoices)
    && (forall i | 0 <= i < |s.invoices| :: s.invoices[i].service in s.services)
    && (forall i | 0 <= i < |s.invoices| :: DateOf(s.invoices[i].end).year >= 100)
    && (forall id | id in s.services :: DueAtEdge(s, id))
  }

  // ----- issuing an invoice -------------------------------------------------------------------

  lemma LastSnoc(invoices: seq<Invoice>, x: Invoice, id: Id)
    ensures Last(invoices + [x], id) == if x.service == id then |invoices| else Last(invoices, id)
  {
    assert (invoices + [x])[..|invoices|] == invoices;
  }

  lemma IssueAdjoins(invoices: seq<Invoice>, x: Invoice, i: nat)
    requires Tiled(invoices) && x.start < x.end && i <= |invoices|
    requires var l := Last(invoices, x.service); l >= 0 ==> invoices[l].end == x.start
    ensures var all := invoices + [x]; all[i].start < all[i].end && Adjoins(all, i)
  {
    hide Last;
    var all := invoices + [x];
    if i < |invoices| {
      assert all[..i] == invoices[..i] && Adjoins(invoices, i);
    } else {
      assert all[..i] == invoices;
    }
  }

  lemma EndsByLast(invoices: seq<Invoice>, id: Id, i: nat)
    requires Tiled(invoices) && i < |invoices| && invoices[i].service == id
    ensures var l := Last(invoices, id); i <= l && invoices[i].end <= invoices[l].end
  {
    hide Adjoins;
    var l := Last(invoices, id);
    if i < l { assert invoices[i].end <= invoices[l].start; }
  }

  lemma IssueKeepsTiling(invoices: seq<Invoice>, x: Invoice)
    requires Tiled(invoices) && x.start < x.end
    requires var l := Last(invoices, x.service); l >= 0 ==> invoices[l].end == x.start
    ensures Tiled(invoices + [x])
  {
    hide Adjoins, Last;
    var all := invoices + [x];
    forall i | 0 <= i < |all| ensures all[i].start < all[i].end && Adjoins(all, i) {
      IssueAdjoins(invoices, x, i);
    }
    forall i | 0 <= i < |invoices| && invoices[i].service == x.service ensures invoices[i].end <= x.start {
      EndsByLast(invoices, x.service, i);
    }
  }

  lemma IssueKeepsPayments(invoices: seq<Invoice>, x: Invoice)
    requires PaidBefore(invoices) && (x.status == Paid ==> x.everPaid)
    requires var l := Last(invoices, x.service); l >= 0 ==> invoices[l].everPaid
    ensures PaidBefore(invoices + [x])
  {
    var l := Last(invoices, x.service);
    forall i | 0 <= i < |invoices| && invoices[i].service == x.service ensures invoices[i].everPaid {
      if i < l { assert invoices[l].service == x.service; }
    }
  }

  /** A new invoice starts where the last one ended, because its start was not billed before. */
  lemma CreatedAtEnd(s: State, id: Id, addOns: nat, now: int)
    requires Inv(s) && Creating(s, id, addOns, now).Created?
    ensures var x := Creating(s, id, addOns, now).invoice; var l := Last(s.invoices, id);
      && x.service == id && x.start == s.services[id].nextDueAt
      && (l >= 0 ==> s.invoices[l].end == x.start && s.invoices[l].everPaid)
      && x.start < x.end && DateOf(x.end).year >= 100 && (x.status == Paid <==> x.everPaid)
  {
    hide Tiled, PaidBefore, DateOf, AddMonths, Last;
    var service := s.services[id];
    assert DueAtEdge(s, id);
    PeriodSpan(service.nextDueAt, service.period.value);
    MonthsLater(service.nextDueAt, Months(service.period.value));
  }

  lemma CreateKeeps(s: State, id: Id, addOns: nat, now: int)
    requires Inv(s)
    ensures Inv(CreatedIn(s, id, addOns, now))
  {
    hide Tiled, PaidBefore, DateOf, AddMonths, AddBillingPeriod, Last, KeyTaken, Billed;
    if Creating(s, id, addOns, now).Created? {
      var x := Creating(s, id, addOns, now).invoice;
      var t := CreatedIn(s, id, addOns, now);
      CreatedAtEnd(s, id, addOns, now);
      IssueKeepsTiling(s.invoices, x);
      IssueKeepsPayments(s.invoices, x);
      forall k | k in t.services ensures DueAtEdge(t, k) {
        assert DueAtEdge(s, k);
        LastSnoc(s.invoices, x, k);
      }
    }
  }

  // ----- changing an invoice or a service -----------------------------------------------------

  /** The same invoice with another state of payment. */
  ghost predicate SamePeriod(x: Invoice, y: Invoice) {
    && x.service == y.service && x.start == y.start && x.end == y.end
    && (x.everPaid ==> y.everPaid) && (y.status == Paid ==> y.everPaid)
  }

  lemma {:induction false} LastUpdate(invoices: seq<Invoice>, i: nat, y: Invoice, id: Id)
    requires i < |invoices| && y.service == invoices[i].service
    ensures Last(invoices[i := y], id) == Last(invoices, id)
  {
    var k := |invoices| - 1;
    if i < k {
      assert invoices[i := y][..k] == invoices[..k][i := y];
      LastUpdate(invoices[..k], i, y, id);
    } else {
      assert invoices[i := y][..k] == invoices[..k];
    }
  }

  lemma UpdateKeepsTiling(invoices: seq<Invoice>, i: nat, y: Invoice)
    requires Tiled(invoices) && PaidBefore(invoices) && i < |invoices| && SamePeriod(invoices[i], y)
    ensures Tiled(invoices[i := y]) && PaidBefore(invoices[i := y])
  {
    var all := invoices[i := y];
    forall k | 0 <= k < |all| ensures all[k].start < all[k].end && Adjoins(all, k) {
      assert Adjoins(invoices, k);
      if i < k {
        assert all[..k] == invoices[..k][i := y];
        LastUpdate(invoices[..k], i, y, all[k].service);
      } else {
        assert all[..k] == invoices[..k];
      }
    }
  }

  lemma UpdateKeeps(s: State, i: nat, y: Invoice)
    requires Inv(s) && i < |s.invoices| && SamePeriod(s.invoices[i], y)
    ensures Inv(s.(invoices := s.invoices[i := y]))
  {
    hide Tiled, PaidBefore, DateOf, Last;
    var t := s.(invoices := s.invoices[i := y]);
    UpdateKeepsTiling(s.invoices, i, y);
    forall id | id in t.services ensures DueAtEdge(t, id) {
      assert DueAtEdge(s, id);
      LastUpdate(s.invoices, i, y, id);
    }
  }

  lemma PaymentKeeps(s: State, i: nat)
    requires Inv(s)
    ensures Inv(PaymentApplied(s, i))
  {
    hide DateOf, Adjoins;
    if Applicable(s, i) {
      var t := PaymentApplied(s, i);
      var id := s.invoices[i].service;
      forall k | k in t.services ensures DueAtEdge(t, k) {
        assert DueAtEdge(s, k);
      }
      var l := Last(s.invoices, id);
      if i < l { assert s.invoices[i].end <= s.invoices[l].start; }
    }
  }

  lemma ServiceKeeps(s: State, id: Id, service: Service)
    requires Inv(s) && (id in s.services ==> service.nextDueAt == s.services[id].nextDueAt)
    requires DateOf(service.nextDueAt).year >= 100
    ensures Inv(s.(services := s.services[id := service]))
  {
    hide Tiled, PaidBefore, DateOf;
    var t := s.(services := s.services[id := service]);
    forall k | k in t.services ensures DueAtEdge(t, k) {
      if k in s.services { assert DueAtEdge(s, k); }
    }
  }

  lemma StepKeeps(s: State, e: Event)
    requires Inv(s)
    ensures Inv(Step(s, e))
  {
    hide Tiled, DateOf, Last, PaymentApplied, CreatedIn, Adjoins;
    match e {
      case Open(id, service) => if id !in s.services && DateOf(service.nextDueAt).year >= 100 { ServiceKeeps(s, id, service); }
      case Change(id, service) =>
        if id in s.services {
          assert DueAtEdge(s, id);
          ServiceKeeps(s, id, service.(nextDueAt := s.services[id].nextDueAt));
        }
      case Create(id, addOns, now) => CreateKeeps(s, id, addOns, now);
      case MarkOverdue(i, now) =>
        if i < |s.invoices| && OverdueNow(s.invoices[i], now) { UpdateKeeps(s, i, s.invoices[i].(status := Overdue)); }
      case RequestSuspension(id, i) =>
        forall k | k in s.services ensures DueAtEdge(Step(s, e), k) { assert DueAtEdge(s, k); }
      case Settle(i) =>
        if i < |s.invoices| { UpdateKeeps(s, i, s.invoices[i].(status := Paid, balanceDue := 0, everPaid := true)); }
      case Reopen(i, status, balanceDue) =>
        if i < |s.invoices| && status != Paid {
          UpdateKeeps(s, i, s.invoices[i].(status := status, balanceDue := balanceDue));
        }
      case ApplyPayment(i) => PaymentKeeps(s, i);
      case _ =>
        var t := Step(s, e);
        assert t.services == s.services && t.invoices == s.invoices;
        forall k | k in s.services ensures DueAtEdge(t, k) { assert DueAtEdge(s, k); }
    }
  }

  lemma {:induction false} RunKeeps(s: State, events: seq<Event>)
    requires Inv(s)
    ensures Inv(Run(s, events))
    decreases |events|
  {
    hide Inv, Step;
    if events != [] {
      StepKeeps(s, events[0]);
      RunKeeps(Step(s, events[0]), events[1..]);
    }
  }

  // ----- what holds in every run --------------------------------------------------------------

  lemma NothingYet()
    ensures Inv(EMPTY)
  {
  }

  /** No two renewal periods of a service overlap, and only its last one may never have been paid. */
  lemma PeriodsTile(events: seq<Event>, i: nat, j: nat)
    requires var all := Run(EMPTY, events).invoices; i < j < |all| && all[i].service == all[j].service
    ensures var all := Run(EMPTY, events).invoices; all[i].end <= all[j].start && all[i].everPaid
  {
    hide Run, Adjoins, Last, DueAtEdge;
    NothingYet();
    RunKeeps(EMPTY, events);
  }

  /** Every moment from the first period to the last lies in one of them: there is no gap. */
  lemma {:induction false} MomentIn(invoices: seq<Invoice>, j: nat, i: nat, t: int) returns (k: nat)
    requires Tiled(invoices) && i <= j < |invoices| && invoices[i].service == invoices[j].service
    requires invoices[i].start <= t < invoices[j].end
    ensures i <= k <= j && invoices[k].service == invoices[i].service && invoices[k].start <= t < invoices[k].end
    decreases j
  {
    if t >= invoices[j].start {
      k := j;
    } else {
      assert i < j;
      var p := Last(invoices[..j], invoices[j].service);
      assert Adjoins(invoices, j);
      assert invoices[..j][i].service == invoices[j].service;
      assert p >= i && invoices[p] == invoices[..j][p];
      k := MomentIn(invoices, p, i, t);
    }
  }

  lemma NoGaps(events: seq<Event>, i: nat, j: nat, t: int)
    requires var all := Run(EMPTY, events).invoices;
      i <= j < |all| && all[i].service == all[j].service && all[i].start <= t < all[j].end
    ensures var all := Run(EMPTY, events).invoices;
      exists k | i <= k <= j :: all[k].service == all[i].service && all[k].start <= t < all[k].end
  {
    hide Run, Adjoins;
    NothingYet();
    RunKeeps(EMPTY, events);
    var k := MomentIn(Run(EMPTY, events).invoices, j, i, t);
  }

  /** nextDueAt is where the last period starts, or where it ends once it was paid. */
  lemma DueDateIsAnEdge(events: seq<Event>, id: Id)
    requires id in Run(EMPTY, events).services
    ensures var s := Run(EMPTY, events); var l := Last(s.invoices, id);
      l >= 0 ==> s.services[id].nextDueAt == s.invoices[l].start
                 || (s.services[id].nextDueAt == s.invoices[l].end && s.invoices[l].everPaid)
  {
    hide Run, Tiled, PaidBefore, DateOf;
    NothingYet();
    RunKeeps(EMPTY, events);
    assert DueAtEdge(Run(EMPTY, events), id);
  }

  lemma DueDateGrowsOnce(s: State, e: Event, id: Id)
    requires Inv(s) && id in s.services
    ensures id in Step(s, e).services && s.services[id].nextDueAt <= Step(s, e).services[id].nextDueAt
  {
    hide Tiled, PaidBefore, DateOf, AddBillingPeriod, Last, KeyTaken, Billed;
    if e.Create? && Creating(s, e.id, e.addOns, e.now).Created? { CreatedAtEnd(s, e.id, e.addOns, e.now); }
  }

  /** nextDueAt never moves back. */
  lemma {:induction false} DueDateNeverDecreases(s: State, events: seq<Event>, id: Id)
    requires Inv(s) && id in s.services
    ensures id in Run(s, events).services && s.services[id].nextDueAt <= Run(s, events).services[id].nextDueAt
    decreases |events|
  {
    hide Inv, Step;
    if events != [] {
      DueDateGrowsOnce(s, events[0], id);
      StepKeeps(s, events[0]);
      DueDateNeverDecreases(Step(s, events[0]), events[1..], id);
    }
  }

  /** Applying a payment twice in a row is applying it once. */
  lemma PaymentIsIdempotent(s: State, i: nat)
    ensures PaymentApplied(PaymentApplied(s, i), i) == PaymentApplied(s, i)
  {
    if Applicable(s, i) {
      var t := PaymentApplied(s, i);
      var id := s.invoices[i].service;
      assert t.services[id := t.services[id]] == t.services;
      assert s.services[id].status == Suspended && s.services[id].suspensionInvoice == Some(i) ==>
        t.reactivations + {Request(id, i)} == t.reactivations;
    }
  }

  lemma InvoicesStayOnce(s: State, e: Event, i: nat)
    requires i < |s.invoices|
    ensures i < |Step(s, e).invoices| && Step(s, e).invoices[i].service == s.invoices[i].service
    ensures Step(s, e).invoices[i].end == s.invoices[i].end
  {
    hide AddBillingPeriod, KeyTaken, Billed, DateOf;
  }

  lemma {:induction false} InvoicesStay(s: State, events: seq<Event>, i: nat)
    requires i < |s.invoices|
    ensures i < |Run(s, events).invoices| && Run(s, events).invoices[i].service == s.invoices[i].service
    ensures Run(s, events).invoices[i].end == s.invoices[i].end
    decreases |events|
  {
    hide Step;
    if events != [] {
      InvoicesStayOnce(s, events[0], i);
      InvoicesStay(Step(s, events[0]), events[1..], i);
    }
  }

  /** A payment that was applied moves no due date again, whatever happened in between. */
  lemma ReplayedPaymentMovesNothing(s: State, i: nat, events: seq<Event>)
    requires Inv(s) && Applicable(s, i)
    ensures var t := Run(PaymentApplied(s, i), events); PaymentApplied(t, i).services == t.services
  {
    hide Run, Inv, Step;
    var id := s.invoices[i].service;
    var before := PaymentApplied(s, i);
    PaymentKeeps(s, i);
    DueDateNeverDecreases(before, events, id);
    InvoicesStay(before, events, i);
    var t := Run(before, events);
    assert t.services[id := t.services[id]] == t.services;
  }

  /** The payment's run is SUCCEEDED and no delivery is still at it. */
  predicate PaymentOver(s: State, p: Id) {
    p in s.done && forall w | w in s.running :: s.running[w] != p
  }

  lemma {:induction false} PaymentStaysOver(s: State, events: seq<Event>, p: Id)
    requires PaymentOver(s, p)
    ensures PaymentOver(Run(s, events), p)
    decreases |events|
  {
    hide AddBillingPeriod, KeyTaken, Billed, DateOf, PaymentApplied, CreatedIn, Changed;
    if events != [] {
      PaymentLeaves(s, events[0]);
      PaymentStaysOver(Step(s, events[0]), events[1..], p);
    }
  }

  lemma PaymentLeaves(s: State, e: Event)
    ensures (e.BeginPayment? || e.EndPayment? || e.StopPayment? || (Step(s, e).done == s.done && Step(s, e).running == s.running))
  {
    hide AddBillingPeriod, KeyTaken, Billed, DateOf;
  }

  /** From then on a delivery of the payment writes nothing at all. */
  lemma ReplayedPaymentWritesNothing(s: State, events: seq<Event>, w: Id, p: Id)
    requires PaymentOver(s, p)
    ensures Step(Run(s, events), BeginPayment(w, p)) == Run(s, events)
  {
    hide Run;
    PaymentStaysOver(s, events, p);
  }
}
