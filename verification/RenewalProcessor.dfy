/**
 The renewal processor as it is written (apps/worker/src/renewal/renewal-processor.service.ts): its
 transactions, and the two loops that drive them over the rows a coarse filter fetches.
 */
module RenewalProcessor {
  import opened BillingPeriods
  import opened BusinessDates
  import opened Options
  import opened Renewal
  import Sorting

  datatype Counters = Counters(processed: nat, succeeded: nat, failed: nat)

  function Sum(lines: seq<nat>): nat {
    if lines == [] then 0 else lines[0] + Sum(lines[1..])
  }

  lemma {:induction false} SumSnoc(lines: seq<nat>, k: nat)
    requires k < |lines|
    ensures Sum(lines[..k + 1]) == Sum(lines[..k]) + lines[k]
  {
    if k == 0 {
      assert lines[..1][1..] == [] && lines[..0] == [];
    } else {
      SumSnoc(lines[1..], k - 1);
      assert lines[..k + 1][1..] == lines[1..][..k];
      assert lines[..k][1..] == lines[1..][..k - 1];
    }
  }

  /** The exact date tests; on four-digit years they are the comparisons of business dates as text. */
  predicate InvoiceDayReached(now: int, due: int, zone: Zone, lead: int) {
    ZoneDay(due, zone) - lead <= ZoneDay(now, zone)
  }

  predicate DuePassed(now: int, due: int, zone: Zone) {
    ZoneDay(due, zone) < ZoneDay(now, zone)
  }

  predicate GracePassed(now: int, due: int, zone: Zone, grace: int) {
    ZoneDay(due, zone) + grace + 1 <= ZoneDay(now, zone)
  }

  lemma DateTestsAsText(now: int, due: int, zone: Zone, lead: int, grace: int)
    requires Ordinary(ZoneDay(now, zone)) && Ordinary(ZoneDay(due, zone)) && 1 <= lead <= 90 && 0 <= grace <= 60
    ensures InvoiceDue(now, due, zone, lead) <==> InvoiceDayReached(now, due, zone, lead)
    ensures SuspensionAllowed(now, due, zone, grace) <==> GracePassed(now, due, zone, grace)
    ensures Sorting.TextLess(BusinessDate(due, zone), BusinessDate(now, zone)) <==> DuePassed(now, due, zone)
  {
    hide ZoneDay, InvoiceDue, SuspensionAllowed, DayText, Sorting.TextLess;
    InvoiceDueMeaning(now, due, zone, lead);
    SuspensionMeaning(now, due, zone, grace);
    DayTextOrder(ZoneDay(due, zone), ZoneDay(now, zone));
  }

  class Renewals {
    var services: map<Id, Service>
    var invoices: seq<Invoice>
    var suspensions: set<Request>
    var reactivations: set<Request>
    var done: set<Id>
    ghost var running: map<Id, Id>

    constructor ()
      ensures Rows() == EMPTY
    {
      services, invoices, suspensions, reactivations := map[], [], {}, {};
      done, running := {}, map[];
    }

    ghost function Rows(): State
      reads this
    {
      State(services, invoices, suspensions, reactivations, done, running)
    }

    method FindBilled(id: Id, start: int, end: int) returns (found: bool)
      ensures found <==> Billed(invoices, id, start, end)
    {
      for i := 0 to |invoices|
        invariant forall k | 0 <= k < i :: !(invoices[k].service == id && invoices[k].start == start && invoices[k].end == end)
      {
        if invoices[i].service == id && invoices[i].start == start && invoices[i].end == end { return true; }
      }
      return false;
    }

    /** What the unique index on submission keys would answer. */
    method KeyClashes(id: Id, start: int) returns (clash: bool)
      ensures clash <==> KeyTaken(invoices, id, start)
    {
      for i := 0 to |invoices|
        invariant forall k | 0 <= k < i :: !(invoices[k].service == id && invoices[k].start == start)
      {
        if invoices[i].service == id && invoices[i].start == start { return true; }
      }
      return false;
    }

    method CreateRenewalInvoice(id: Id, addOns: seq<nat>, now: int) returns (result: Creation)
      modifies this`services, this`invoices
      ensures result == Creating(old(Rows()), id, Sum(addOns), now)
      ensures Rows() == CreatedIn(old(Rows()), id, Sum(addOns), now)
    {
      hide AddBillingPeriod, Billed, KeyTaken;
      if id !in services { return Refused; }
      var service := services[id];
      if (service.status != Active && service.status != Suspended) || service.closed || service.cancelling { return Refused; }
      if service.period.None? { return Rejected; }
      var periodStart := service.nextDueAt;
      var periodEnd := AddBillingPeriod(periodStart, service.period.value);
      var dueAt := if periodStart < now then now else periodStart;
      var existing := FindBilled(id, periodStart, periodEnd);
      if existing { return Refused; }
      var total := service.amount;
      for i := 0 to |addOns|
        invariant total == service.amount + Sum(addOns[..i]) && Rows() == old(Rows())
      {
        SumSnoc(addOns, i);
        total := total + addOns[i];
      }
      assert addOns[..|addOns|] == addOns;
      if total > POSTGRES_BIGINT_MAX { return Rejected; }
      var clash := KeyClashes(id, periodStart);
      if clash { return Refused; }
      var paid := total == 0;
      var invoice := Invoice(id, periodStart, periodEnd, if paid then Paid else Unpaid, total, total, dueAt, paid);
      invoices := invoices + [invoice];
      if paid { services := services[id := service.(nextDueAt := periodEnd)]; }
      return Created(invoice);
    }

    method MarkOverdue(i: nat, now: int) returns (changed: bool)
      requires i < |invoices|
      modifies this`invoices
      ensures changed == OverdueNow(old(invoices)[i], now)
      ensures Rows() == Step(old(Rows()), Event.MarkOverdue(i, now))
    {
      var invoice := invoices[i];
      if invoice.status != Unpaid || invoice.balanceDue <= 0 || invoice.dueAt > now { return false; }
      invoices := invoices[i := invoice.(status := Overdue)];
      return true;
    }

    /** createMany with skipDuplicates: true when the request is new. */
    method RequestSuspension(id: Id, i: nat) returns (created: bool)
      modifies this`suspensions
      ensures created <==> Request(id, i) !in old(suspensions)
      ensures Rows() == Step(old(Rows()), Event.RequestSuspension(id, i))
    {
      created := Request(id, i) !in suspensions;
      if created { suspensions := suspensions + {Request(id, i)}; }
      assert suspensions == old(suspensions) + {Request(id, i)};
    }

    /** How many changes a payment made; none means that nothing was written. */
    method ApplyRenewalPayment(i: nat) returns (processed: nat)
      modifies this`services, this`reactivations
      ensures Rows() == PaymentApplied(old(Rows()), i)
      ensures processed == (if services == old(services) then 0 else 1) + (if reactivations == old(reactivations) then 0 else 1)
    {
      processed := 0;
      if i >= |invoices| || invoices[i].status != Paid || invoices[i].balanceDue != 0 { return; }
      var item := invoices[i];
      if item.service !in services { return; }
      var service := services[item.service];
      if service.nextDueAt < item.end {
        services := services[item.service := service.(nextDueAt := item.end)];
        assert services[item.service] != old(services)[item.service];
        processed := processed + 1;
      }
      assert old(services)[item.service := service] == old(services);
      if service.status == Suspended && service.suspensionInvoice == Some(i) {
        var request := Request(item.service, i);
        if request !in reactivations {
          reactivations := reactivations + {request};
          processed := processed + 1;
        } else {
          assert reactivations + {request} == reactivations;
        }
      }
    }

    /** A delivery of a payment; its transaction commits or throws.  One that succeeded before is left alone. */
    method ProcessPayment(w: Id, p: Id, i: nat, committed: bool) returns (thrown: bool)
      requires w !in running
      modifies this`services, this`reactivations, this`done, this`running
      ensures thrown == (p !in old(done) && !committed)
      ensures p in old(done) ==> Rows() == old(Rows())
      ensures p !in old(done) ==>
                Rows() == Run(old(Rows()), PaymentEvents(w, p, i, committed))
    {
      hide PaymentApplied;
      if p in done { return false; }
      DeliveryIs(Rows(), w, p, i, committed);
      running := running[w := p];
      if committed { var processed := ApplyRenewalPayment(i); }
      done := if committed then done + {p} else done - {p};
      running := running - {w};
      return !committed;
    }

    // ----- createDueInvoices ------------------------------------------------------------------

    /** One service of the loop, seen from the outside. */
    method CreateOne(id: Id, addOns: seq<nat>, now: int) returns (result: Creation)
      requires Inv(Rows()) && id in services
      modifies this`services, this`invoices
      ensures Inv(Rows()) && services.Keys == old(services.Keys)
      ensures forall k | k in services && k != id :: services[k] == old(services)[k]
      ensures if result.Created? then
                && |invoices| == |old(invoices)| + 1 && invoices[..|old(invoices)|] == old(invoices)
                && invoices[|old(invoices)|].service == id
                && invoices[|old(invoices)|].start == old(services)[id].nextDueAt
              else invoices == old(invoices)
      ensures Renewable(old(services)[id]) && !result.Rejected? ==> KeyTaken(invoices, id, old(services)[id].nextDueAt)
    {
      hide Inv, Creating, KeyTaken;
      CreateKeeps(Rows(), id, Sum(addOns), now);
      CreationTouchesOne(Rows(), id, Sum(addOns), now);
      result := CreateRenewalInvoice(id, addOns, now);
    }

    /**
     Invoices every service whose invoice day has come, although only those the filter fetches are looked
     at: whoever may be renewed has a line for the period at its due date afterwards, unless something
     failed.  Nobody else is invoiced.
     */
    method CreateDueInvoices(now: int, zone: Zone, lead: int, addOns: Id -> seq<nat>) returns (counters: Counters)
      requires Inv(Rows()) && WithinADay(zone) && 1 <= lead <= 90
      modifies this`services, this`invoices
      ensures Inv(Rows()) && services.Keys == old(services.Keys)
      ensures counters.failed == 0 ==>
                forall id | id in old(services) && Renewable(old(services)[id]) && old(services)[id].period.Some?
                            && InvoiceDayReached(now, old(services)[id].nextDueAt, zone, lead) ::
                  KeyTaken(invoices, id, old(services)[id].nextDueAt)
      ensures |invoices| == |old(invoices)| + counters.succeeded && invoices[..|old(invoices)|] == old(invoices)
      ensures forall k | |old(invoices)| <= k < |invoices| ::
                invoices[k].service in old(services) && InvoiceDayReached(now, invoices[k].start, zone, lead)
                && invoices[k].start == old(services)[invoices[k].service].nextDueAt
      ensures counters.succeeded + counters.failed <= counters.processed
    {
      hide Inv, InvoiceDayReached, Fetched, KeyTaken, Renewable, WithinADay;
      counters := Counters(0, 0, 0);
      var fetched := Candidates(services, now, lead);
      var rest := fetched;
      ghost var due := old(services);
      while rest != {}
        invariant rest <= fetched <= services.Keys == old(services.Keys) && Inv(Rows())
        invariant forall id | id in rest :: services[id] == due[id]
        invariant |invoices| == |old(invoices)| + counters.succeeded && invoices[..|old(invoices)|] == old(invoices)
        invariant forall k | |old(invoices)| <= k < |invoices| ::
            invoices[k].service in due && InvoiceDayReached(now, invoices[k].start, zone, lead)
            && invoices[k].start == due[invoices[k].service].nextDueAt
        invariant counters.failed == 0 ==>
            forall id | id in fetched && id !in rest && Renewable(due[id])
                        && InvoiceDayReached(now, due[id].nextDueAt, zone, lead) :: KeyTaken(invoices, id, due[id].nextDueAt)
        invariant counters.succeeded + counters.failed <= counters.processed
        decreases rest
      {
        var id :| id in rest;
        rest := rest - {id};
        if InvoiceDayReached(now, services[id].nextDueAt, zone, lead) {
          ghost var before := invoices;
          var result := CreateOne(id, addOns(id), now);
          counters := Counters(counters.processed + 1, counters.succeeded + (if result.Created? then 1 else 0),
                               counters.failed + (if result.Rejected? then 1 else 0));
          KeysStay(before, invoices);
          assert invoices[..|before|][..|old(invoices)|] == invoices[..|old(invoices)|];
        }
      }
      ReachedAreFetched(due, now, zone, lead);
    }

    // ----- processOpenRenewals ----------------------------------------------------------------

    predicate OpenRenewal(i: nat)
      requires i < |invoices|
      reads this
    {
      (invoices[i].status == Unpaid || invoices[i].status == Overdue) && invoices[i].balanceDue > 0
    }

    /** The body of the loop for one open invoice. */
    method ProcessOpenRenewal(i: nat, now: int, zone: Zone, grace: int) returns (counters: Counters)
      requires i < |invoices| && OpenRenewal(i)
      modifies this`invoices, this`suspensions
      ensures var was := old(invoices)[i];
        && invoices == old(invoices)[i := if DuePassed(now, was.dueAt, zone) && OverdueNow(was, now)
                                          then was.(status := Overdue) else was]
        && suspensions == old(suspensions) +
             (if GracePassed(now, was.dueAt, zone, grace) && was.service in services && services[was.service].status == Active
              then {Request(was.service, i)} else {})
    {
      hide DuePassed, GracePassed;
      counters := Counters(0, 0, 0);
      var was := invoices[i];
      if DuePassed(now, was.dueAt, zone) {
        counters := counters.(processed := counters.processed + 1);
        var changed := MarkOverdue(i, now);
        if changed { counters := counters.(succeeded := counters.succeeded + 1); }
      }
      if !GracePassed(now, was.dueAt, zone, grace) { return; }
      if was.service !in services || services[was.service].status != Active { return; }
      counters := counters.(processed := counters.processed + 1);
      var created := RequestSuspension(was.service, i);
      if created { counters := counters.(succeeded := counters.succeeded + 1); }
    }

    /**
     One pass over the open invoices.  Suspension is requested for an active service exactly when its
     grace days have passed, and with at least one of them the invoice is OVERDUE by then.
     */
    method ProcessOpenRenewals(now: int, zone: Zone, grace: int)
      requires Inv(Rows()) && WithinADay(zone) && 0 <= grace <= 60
      modifies this`invoices, this`suspensions
      ensures Inv(Rows()) && |invoices| == |old(invoices)|
      ensures forall r :: r in suspensions <==>
                r in old(suspensions) || Asked(r, old(invoices), services, now, zone, grace)
      ensures forall i | 0 <= i < |invoices| ::
                SamePeriod(old(invoices)[i], invoices[i]) && (invoices[i] != old(invoices)[i] ==>
                  old(invoices)[i].status == Unpaid && invoices[i].status == Overdue && invoices[i].dueAt <= now)
      ensures grace >= 1 ==>
                forall r | r in suspensions && r !in old(suspensions) ::
                  r.invoice < |invoices| && invoices[r.invoice].status == Overdue
    {
      hide Inv, DuePassed, GracePassed, SamePeriod;
      var n := |invoices|;
      for i := 0 to n
        invariant Inv(Rows()) && |invoices| == n == |old(invoices)|
        invariant forall k | i <= k < n :: invoices[k] == old(invoices)[k]
        invariant forall k | 0 <= k < i :: SamePeriod(old(invoices)[k], invoices[k])
        invariant forall k | 0 <= k < i && invoices[k] != old(invoices)[k] ::
            old(invoices)[k].status == Unpaid && invoices[k].status == Overdue && invoices[k].dueAt <= now
        invariant forall r :: r in suspensions <==>
            r in old(suspensions) || (r.invoice < i && Asked(r, old(invoices), services, now, zone, grace))
        invariant grace >= 1 ==>
            forall r | r in suspensions && r !in old(suspensions) :: r.invoice < i && invoices[r.invoice].status == Overdue
      {
        ghost var before := Rows();
        if OpenRenewal(i) {
          GraceImpliesOverdue(now, invoices[i].dueAt, zone, grace);
          var counters := ProcessOpenRenewal(i, now, zone, grace);
        }
        OnePassKeeps(before, Rows(), i);
      }
    }
  }

  /** The services createDueInvoices fetches. */
  function Candidates(services: map<Id, Service>, now: int, lead: int): set<Id> {
    set id | id in services && services[id].status != Ended && services[id].period.Some? && !services[id].cancelling
             && Fetched(now, services[id].nextDueAt, lead)
  }

  /** An open invoice of an active service whose grace days have passed. */
  predicate Asked(r: Request, invoices: seq<Invoice>, services: map<Id, Service>, now: int, zone: Zone, grace: int) {
    && r.invoice < |invoices| && invoices[r.invoice].service == r.service
    && (invoices[r.invoice].status == Unpaid || invoices[r.invoice].status == Overdue)
    && invoices[r.invoice].balanceDue > 0
    && r.service in services && services[r.service].status == Active
    && GracePassed(now, invoices[r.invoice].dueAt, zone, grace)
  }

  function PaymentEvents(w: Id, p: Id, i: nat, committed: bool): seq<Event> {
    if committed then [BeginPayment(w, p), ApplyPayment(i), EndPayment(w, true)]
    else [BeginPayment(w, p), EndPayment(w, false)]
  }

  lemma DeliveryIs(s: State, w: Id, p: Id, i: nat, committed: bool)
    requires w !in s.running && p !in s.done
    ensures var t := s.(running := s.running[w := p]); var u := if committed then PaymentApplied(t, i) else t;
      Run(s, PaymentEvents(w, p, i, committed))
      == u.(done := if committed then s.done + {p} else s.done - {p}, running := t.running - {w})
  {
    hide Applicable;
    var t := s.(running := s.running[w := p]);
    assert Step(s, BeginPayment(w, p)) == t;
    var last := EndPayment(w, committed);
    assert [last][1..] == [];
    if committed {
      var u := Step(t, ApplyPayment(i));
      assert [BeginPayment(w, p), ApplyPayment(i), last][1..] == [ApplyPayment(i), last];
      assert [ApplyPayment(i), last][1..] == [last];
      assert Run(u, [last]) == Run(Step(u, last), []);
      assert Run(t, [ApplyPayment(i), last]) == Run(u, [last]);
    } else {
      assert [BeginPayment(w, p), last][1..] == [last];
      assert Run(t, [last]) == Run(Step(t, last), []);
    }
  }

  // ----- lemmas about the loops ---------------------------------------------------------------

  lemma CreationTouchesOne(s: State, id: Id, addOns: nat, now: int)
    requires id in s.services
    ensures var t := CreatedIn(s, id, addOns, now);
      && t.services.Keys == s.services.Keys
      && (forall k | k in s.services && k != id :: t.services[k] == s.services[k])
      && |t.invoices| >= |s.invoices| && t.invoices[..|s.invoices|] == s.invoices
      && (Creating(s, id, addOns, now).Created? ==>
            && t.invoices == s.invoices + [Creating(s, id, addOns, now).invoice]
            && Creating(s, id, addOns, now).invoice.service == id
            && Creating(s, id, addOns, now).invoice.start == s.services[id].nextDueAt)
      && (!Creating(s, id, addOns, now).Created? ==> t == s)
    ensures Renewable(s.services[id]) && !Creating(s, id, addOns, now).Rejected? ==>
      KeyTaken(CreatedIn(s, id, addOns, now).invoices, id, s.services[id].nextDueAt)
  {
    hide AddBillingPeriod;
    var t := CreatedIn(s, id, addOns, now);
    if Creating(s, id, addOns, now).Created? {
      assert t.invoices[|s.invoices|] == Creating(s, id, addOns, now).invoice;
    }
  }

  lemma KeysStay(before: seq<Invoice>, after: seq<Invoice>)
    requires |before| <= |after| && after[..|before|] == before
    ensures forall id, start :: KeyTaken(before, id, start) ==> KeyTaken(after, id, start)
  {
  }

  /** The filter's two spare days are enough for the exact test. */
  lemma ReachedIsFetched(now: int, due: int, zone: Zone, lead: int)
    requires WithinADay(zone) && InvoiceDayReached(now, due, zone, lead)
    ensures Fetched(now, due, lead)
  {
  }

  lemma GraceImpliesOverdue(now: int, due: int, zone: Zone, grace: int)
    requires WithinADay(zone) && grace >= 0
    ensures GracePassed(now, due, zone, grace) ==> DuePassed(now, due, zone)
    ensures GracePassed(now, due, zone, grace) && grace >= 1 ==> due <= now
  {
  }

  /** Whoever may be renewed and is due for an invoice is among those the query fetches. */
  lemma ReachedAreFetched(services: map<Id, Service>, now: int, zone: Zone, lead: int)
    requires WithinADay(zone)
    ensures forall id | id in services && Renewable(services[id]) && services[id].period.Some?
                        && InvoiceDayReached(now, services[id].nextDueAt, zone, lead) :: id in Candidates(services, now, lead)
  {
    hide WithinADay, InvoiceDayReached, Fetched;
    forall id | id in services && InvoiceDayReached(now, services[id].nextDueAt, zone, lead)
      ensures Fetched(now, services[id].nextDueAt, lead)
    {
      ReachedIsFetched(now, services[id].nextDueAt, zone, lead);
    }
  }

  /** Marking one invoice overdue and requesting suspensions leaves the billing invariant alone. */
  lemma OnePassKeeps(s: State, t: State, i: nat)
    requires Inv(s) && i < |s.invoices| && t.services == s.services
    requires t.invoices == s.invoices || t.invoices == s.invoices[i := s.invoices[i].(status := Overdue)]
    ensures Inv(t) && |t.invoices| == |s.invoices| && SamePeriod(s.invoices[i], t.invoices[i])
  {
    hide Tiled, DateOf, Last, Adjoins;
    if t.invoices != s.invoices { UpdateKeeps(s, i, s.invoices[i].(status := Overdue)); }
    var u := s.(invoices := t.invoices);
    assert Inv(u);
    forall id | id in t.services ensures DueAtEdge(t, id) {
      assert DueAtEdge(u, id);
    }
  }
}
