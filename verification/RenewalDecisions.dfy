/**
 What decides a renewal, condition by condition: when an invoice is issued and with what on it, what a
 payment moves, and which services are to be suspended or reactivated.  The conditions are spelled out on
 the rows themselves, so they say what the transactions' own predicates must come to.
 */
module RenewalDecisions {
  import opened BillingPeriods
  import opened BusinessDates
  import opened Options
  import opened Renewal
  import opened RenewalProcessor

  function Larger(a: int, b: int): int {
    if a < b then b else a
  }

  // ----- issuing an invoice -------------------------------------------------------------------

  /** A line of the service that starts at this moment. */
  ghost predicate HasLine(invoices: seq<Invoice>, id: Id, start: int) {
    exists x | x in invoices :: x.service == id && x.start == start
  }

  ghost predicate HasLineFor(invoices: seq<Invoice>, id: Id, start: int, end: int) {
    exists x | x in invoices :: x.service == id && x.start == start && x.end == end
  }

  lemma LinesAgree(invoices: seq<Invoice>, id: Id, start: int, end: int)
    ensures HasLine(invoices, id, start) <==> KeyTaken(invoices, id, start)
    ensures HasLineFor(invoices, id, start, end) <==> Billed(invoices, id, start, end)
  {
    if HasLine(invoices, id, start) {
      var x :| x in invoices && x.service == id && x.start == start;
      var i :| 0 <= i < |invoices| && invoices[i] == x;
    }
    if HasLineFor(invoices, id, start, end) {
      var x :| x in invoices && x.service == id && x.start == start && x.end == end;
      var i :| 0 <= i < |invoices| && invoices[i] == x;
    }
    forall i | 0 <= i < |invoices| ensures invoices[i] in invoices { }
  }

  /**
   A service that goes on gets one invoice from its due date to the end of its period, unless that start
   has one; a free one is PAID at once and moves the due date.
   */
  lemma CreationDecides(s: State, id: Id, addOns: nat, now: int)
    requires id in s.services
    ensures var service, t := s.services[id], Step(s, Create(id, addOns, now));
      var goesOn := service.status in {Active, Suspended} && !service.closed && !service.cancelling;
      var total := service.amount + addOns;
      if goesOn && service.period.Some? && total <= 9_223_372_036_854_775_807 && !HasLine(s.invoices, id, service.nextDueAt)
      then
        var end := AddBillingPeriod(service.nextDueAt, service.period.value);
        var free := total == 0;
        t == s.(invoices := s.invoices + [Invoice(id, service.nextDueAt, end, if free then Paid else Unpaid, total, total,
                                                  Larger(service.nextDueAt, now), free)],
                services := if free then s.services[id := service.(nextDueAt := end)] else s.services)
      else t == s
  {
    hide AddBillingPeriod, HasLine, HasLineFor, Billed, KeyTaken;
    var service := s.services[id];
    if service.period.Some? {
      var end := AddBillingPeriod(service.nextDueAt, service.period.value);
      LinesAgree(s.invoices, id, service.nextDueAt, end);
      LineForIsLine(s.invoices, id, service.nextDueAt, end);
    }
  }

  lemma LineForIsLine(invoices: seq<Invoice>, id: Id, start: int, end: int)
    ensures HasLineFor(invoices, id, start, end) ==> HasLine(invoices, id, start)
  {
  }

  /** It throws for a service without a period, and for a total PostgreSQL could not hold. */
  lemma CreationThrows(s: State, id: Id, addOns: nat, now: int)
    ensures Creating(s, id, addOns, now).Rejected? <==>
      && id in s.services
      && var service := s.services[id];
         && service.status in {Active, Suspended} && !service.closed && !service.cancelling
         && (service.period.None?
             || (service.amount + addOns > 9_223_372_036_854_775_807
                 && !HasLineFor(s.invoices, id, service.nextDueAt,
                                AddBillingPeriod(service.nextDueAt, service.period.value))))
  {
    hide AddBillingPeriod, HasLine, HasLineFor, Billed, KeyTaken;
    if id in s.services && s.services[id].period.Some? {
      var service := s.services[id];
      LinesAgree(s.invoices, id, service.nextDueAt, AddBillingPeriod(service.nextDueAt, service.period.value));
    }
  }

  /** An unpaid invoice becomes OVERDUE from the moment it is due, while something is left to pay. */
  lemma OverdueDecides(s: State, i: nat, now: int)
    requires i < |s.invoices|
    ensures var x := s.invoices[i];
      Step(s, MarkOverdue(i, now)) ==
      if x.status == Unpaid && 0 < x.balanceDue && x.dueAt <= now then s.(invoices := s.invoices[i := x.(status := Overdue)])
      else s
  {
  }

  // ----- applying a payment -------------------------------------------------------------------

  /** Invoice j is settled and its service stands suspended because of it. */
  ghost predicate OwesReactivation(s: State, id: Id, j: nat) {
    && j < |s.invoices| && s.invoices[j].status == Paid && s.invoices[j].balanceDue == 0 && s.invoices[j].service == id
    && id in s.services && s.services[id].status == Suspended && s.services[id].suspensionInvoice == Some(j)
  }

  /** A settled invoice brings the due date to the end of its period and asks for the reactivation it owes. */
  lemma PaymentDecides(s: State, j: nat)
    ensures var t := Step(s, ApplyPayment(j));
      if j < |s.invoices| && s.invoices[j].status == Paid && s.invoices[j].balanceDue == 0 && s.invoices[j].service in s.services
      then
        var id := s.invoices[j].service;
        var service := s.services[id];
        t == s.(services := s.services[id := service.(nextDueAt := Larger(service.nextDueAt, s.invoices[j].end))],
                reactivations := s.reactivations + if OwesReactivation(s, id, j) then {Request(id, j)} else {})
      else t == s
  {
  }

  /** A request for a reactivation is new exactly when a payment of its invoice owes it, and none goes away. */
  lemma ReactivationsExactly(s: State, e: Event, r: Request)
    ensures r in Step(s, e).reactivations <==>
      r in s.reactivations || (e == ApplyPayment(r.invoice) && OwesReactivation(s, r.service, r.invoice))
  {
    hide OwesReactivation, PaymentApplied, AddBillingPeriod, KeyTaken, Billed;
    if e.ApplyPayment? {
      PaymentDecides(s, e.invoice);
      OwedParts(s, r.service, r.invoice);
    }
  }

  lemma OwedParts(s: State, id: Id, j: nat)
    ensures OwesReactivation(s, id, j) ==>
      && j < |s.invoices| && s.invoices[j].service == id && id in s.services
      && s.invoices[j].status == Paid && s.invoices[j].balanceDue == 0
  {
  }

  /** The due date of a service moves by a settled invoice of its own or a free renewal, and by nothing else. */
  lemma DueDatesExactly(s: State, e: Event, id: Id)
    requires id in s.services
    ensures id in Step(s, e).services
    ensures Step(s, e).services[id].nextDueAt ==
      if e.ApplyPayment? && e.invoice < |s.invoices| && s.invoices[e.invoice].service == id
         && s.invoices[e.invoice].status == Paid && s.invoices[e.invoice].balanceDue == 0
      then Larger(s.services[id].nextDueAt, s.invoices[e.invoice].end)
      else if e.Create? && e.id == id && |Step(s, e).invoices| > |s.invoices| && s.services[id].amount + e.addOns == 0
              && s.services[id].period.Some?
      then AddBillingPeriod(s.services[id].nextDueAt, s.services[id].period.value)
      else s.services[id].nextDueAt
  {
    hide OwesReactivation, PaymentApplied, AddBillingPeriod, HasLine, CreatedIn;
    if e.ApplyPayment? {
      PaymentDecides(s, e.invoice);
    } else if e.Create? && e.id in s.services {
      CreationDecides(s, e.id, e.addOns, e.now);
    } else if e.Create? {
      NobodyBilled(s, e.id, e.addOns, e.now);
    }
  }

  lemma NobodyBilled(s: State, id: Id, addOns: nat, now: int)
    requires id !in s.services
    ensures CreatedIn(s, id, addOns, now) == s
  {
  }

  // ----- over whole runs ----------------------------------------------------------------------

  lemma {:induction false} RunSnoc(s: State, events: seq<Event>, e: Event)
    ensures Run(s, events + [e]) == Step(Run(s, events), e)
    decreases |events|
  {
    hide Step;
    if events == [] {
      assert [e][1..] == [];
    } else {
      RunSnoc(Step(s, events[0]), events[1..], e);
      assert (events + [e])[1..] == events[1..] + [e];
    }
  }

  /** The reactivations asked for in a run are those that a payment in it owed at its time. */
  lemma {:induction false} ReactivationsOfRuns(events: seq<Event>, r: Request)
    ensures r in Run(EMPTY, events).reactivations <==>
      exists k | 0 <= k < |events| ::
        events[k] == ApplyPayment(r.invoice) && OwesReactivation(Run(EMPTY, events[..k]), r.service, r.invoice)
    decreases |events|
  {
    hide OwesReactivation, Run, Step;
    if events == [] {
      NothingAsked();
    } else {
      var n := |events| - 1;
      var front := events[..n];
      assert events == front + [events[n]];
      RunSnoc(EMPTY, front, events[n]);
      ReactivationsExactly(Run(EMPTY, front), events[n], r);
      ReactivationsOfRuns(front, r);
      forall k | 0 <= k < n ensures front[..k] == events[..k] { }
    }
  }

  lemma NothingAsked()
    ensures Run(EMPTY, []).reactivations == {}
  {
  }

  /** One delivery of a payment that had not succeeded: what it moves, and how its run ends. */
  lemma DeliveryDecides(s: State, w: Id, p: Id, j: nat, committed: bool)
    requires w !in s.running && p !in s.done
    ensures var t := Run(s, PaymentEvents(w, p, j, committed)); var paid := Step(s, ApplyPayment(j));
      && t.invoices == s.invoices && t.suspensions == s.suspensions && t.running == s.running
      && (if committed then t.services == paid.services && t.reactivations == paid.reactivations && t.done == s.done + {p}
          else t.services == s.services && t.reactivations == s.reactivations && t.done == s.done)
  {
    hide Run, PaymentEvents;
    DeliveryIs(s, w, p, j, committed);
    assert s.running[w := p] - {w} == s.running;
  }

  // ----- asking for a suspension --------------------------------------------------------------

  /** The first business day after the grace days of an invoice, or a later one. */
  lemma SuspensionAskedExactly(r: Request, invoices: seq<Invoice>, services: map<Id, Service>, now: int, zone: Zone, grace: int)
    ensures Asked(r, invoices, services, now, zone, grace) <==>
      && r.invoice < |invoices|
      && var x := invoices[r.invoice];
         && x.service == r.service && x.status in {Unpaid, Overdue} && 0 < x.balanceDue
         && r.service in services && services[r.service].status == Active
         && ZoneDay(now, zone) > ZoneDay(x.dueAt, zone) + grace
  {
  }
}
