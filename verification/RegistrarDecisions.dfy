/**
 What decides a registration, condition by condition: when an operation is claimed and what a claim, a
 refusal and a settlement write.  The conditions are spelled out on the rows and facts themselves, so
 they say what the protocol's own predicates must come to.
 */
module RegistrarDecisions {
  import opened Options
  import opened RegistrarDispatch
  import opened RegistrarSafety

  // ----- the conditions, spelled out ----------------------------------------------------------

  /** The account that carries out an operation: the one selected for it, or else its own. */
  function Carrier(op: Operation): Id {
    if op.selected.Some? then op.selected.value else op.account
  }

  /** What succeeded on an invoice, whatever it was. */
  function Received(payments: seq<Payment>): int {
    if payments == [] then 0
    else Received(payments[..|payments| - 1])
         + (if payments[|payments| - 1].succeeded then payments[|payments| - 1].amount else 0)
  }

  /** The customer's own invoice: PAID in taka, nothing due, and all of it in verified charges. */
  ghost predicate PaidInFull(invoice: Option<Invoice>, customer: Id) {
    && invoice.Some?
    && var i := invoice.value;
       && i.paid && i.customer == customer && i.currency == "BDT"
       && 0 < i.total == i.amountPaid == Received(i.payments) && i.balanceDue == 0
       && forall p | p in i.payments && p.succeeded :: p.kind == Charge && p.currency == "BDT" && p.verified
  }

  /** The approver is an administrator in office, and the customer may still buy. */
  ghost predicate PartiesInOrder(f: Facts) {
    && f.approver.Some?
    && f.approver.value.admin && f.approver.value.active && !f.approver.value.deleted
    && f.approver.value.fullAdministrator && f.approver.value.totp
    && f.customer.Some?
    && f.customer.value.active && !f.customer.value.deleted
    && f.customer.value.userActive && !f.customer.value.userDeleted
    && (f.mode == Fake || f.customer.value.emailVerified)
  }

  ghost predicate InOrder(f: Facts, customer: Id) {
    PartiesInOrder(f) && f.order in {Paid, Processing} && PaidInFull(f.invoice, customer)
  }

  /** Another operation of the same account that is claimed and whose domain is neither registered nor failed. */
  ghost predicate OtherClaimOpen(s: State, o: Id)
    requires o in s.ops
  {
    exists p | p in s.ops && p != o ::
      && s.ops[p].claimedAt != None && Carrier(s.ops[p]) == Carrier(s.ops[o])
      && s.ops[p].domain in s.domains && s.domains[s.ops[p].domain].state !in {Registered, Failed}
  }

  /** The account, its credential and the permissions let the operation run now. */
  ghost predicate MayRun(op: Operation, domain: Domain, f: Facts, permissions: Permissions, seen: int) {
    && f.billed && f.enabled && f.knownProvider && f.mode == f.originMode
    && domain.state !in {Registered, Failed}
    && (op.selected == None || domain.executionAccount == op.selected)
    && op.pollCount <= 9 && (op.claimedAt == None || op.nextPollAt <= seen)
    && f.credential == Credential(Carrier(op))
    && (f.mode == Fake ==> permissions.simulationAllowed)
    && (f.mode == Live ==>
          && permissions.liveAllowed && op.riskAccepted
          && (f.live.modern ==> f.live.costConfirmed) && f.live.resellerMatches && f.live.agreementAccepted
          && (f.live.selection == None ==> f.live.nameserversMatch)
          && (f.live.selection != None ==> f.live.selection == Some(true) && op.selected != None))
  }

  // ----- the spelled-out conditions are the protocol's ----------------------------------------

  lemma {:induction false} SumIsReceived(payments: seq<Payment>)
    ensures Sum(payments, (p: Payment) => p.succeeded) == Received(payments)
  {
    var counts := (p: Payment) => p.succeeded;
    if payments != [] {
      var front, last := payments[..|payments| - 1], payments[|payments| - 1];
      SumIsReceived(front);
      assert payments == front + [last];
      SumOfLast(front, last, counts);
    }
  }

  lemma {:induction false} SumOfLast(front: seq<Payment>, last: Payment, counts: Payment -> bool)
    ensures Sum(front + [last], counts) == Sum(front, counts) + if counts(last) then last.amount else 0
  {
    if front == [] {
      assert [last][1..] == [];
    } else {
      SumOfLast(front[1..], last, counts);
      assert (front + [last])[1..] == front[1..] + [last];
    }
  }

  lemma PaidIsFullyPaid(invoice: Option<Invoice>, customer: Id)
    ensures PaidInFull(invoice, customer) <==> invoice.Some? && FullyPaid(invoice.value, customer)
  {
    hide Sum, Received;
    if invoice.Some? {
      SumIsReceived(invoice.value.payments);
      var payments := invoice.value.payments;
      forall i | 0 <= i < |payments| ensures payments[i] in payments { }
      assert (forall p | p in payments :: Clean(p)) <==> forall i | 0 <= i < |payments| :: Clean(payments[i]);
      assert forall p :: Clean(p) <==> (p.succeeded ==> p.kind == Charge && p.currency == "BDT" && p.verified);
    }
  }

  lemma ConditionsAgree(s: State, o: Id, f: Facts, permissions: Permissions, seen: int)
    requires o in s.ops && s.ops[o].domain in s.domains
    ensures var op, domain := s.ops[o], s.domains[s.ops[o].domain];
      && (MayRun(op, domain, f, permissions, seen) <==> Admitted(op, domain, f, permissions, seen))
      && (InOrder(f, domain.customer) <==> Eligible(f, domain.customer))
      && (OtherClaimOpen(s, o) <==> Busy(s, o, Bound(op)))
  {
    hide PaidInFull, FullyPaid;
    PaidIsFullyPaid(f.invoice, s.domains[s.ops[o].domain].customer);
    forall p | p in s.ops ensures Carrier(s.ops[p]) == Bound(s.ops[p]) { }
  }

  // ----- the preparation transaction ----------------------------------------------------------

  /** Its rows, for an operation that has a domain: refused, read again, sent back, put off or claimed. */
  lemma PreparationDecides(s: State, w: Id, o: Id, f: Facts, permissions: Permissions, seen: int, now: int)
    requires s.clock <= seen <= now && w !in s.workers && o in s.ops && s.ops[o].domain in s.domains && o in s.slots
    ensures var t := Step(s, Timed(Prepare(w, o, f, permissions), seen, now));
      var op, domain := s.ops[o], s.domains[s.ops[o].domain];
      var intent := Intent(o, Carrier(op), domain.customer, domain.name, op.ceiling);
      var slot := op.(pollCount := op.pollCount + 1, nextPollAt := now + 360_000);
      t == if !MayRun(op, domain, f, permissions, seen) then s.(clock := now)
           else if op.claimedAt != None then
             s.(clock := now, ops := s.ops[o := slot], slots := s.slots[o := s.slots[o] + [now]],
                workers := s.workers[w := Looking(intent)])
           else if f.mode == Live && f.actionOutstanding then s.(clock := now)
           else if !InOrder(f, domain.customer) then
             s.(clock := now, domains := s.domains[op.domain := domain.(state := AwaitingApproval)])
           else if f.actionOutstanding || OtherClaimOpen(s, o) then s.(clock := now)
           else
             s.(clock := now, ops := s.ops[o := slot.(claimedAt := Some(now))],
                domains := s.domains[op.domain := domain.(state := NeedsReconciliation)],
                slots := s.slots[o := s.slots[o] + [now]], workers := s.workers[w := Quoting(intent, f.mode)])
  {
    hide Admitted, Eligible, Busy, MayRun, InOrder, OtherClaimOpen;
    ConditionsAgree(s, o, f, permissions, seen);
    BusyIgnoresClock(s, o, now);
    assert s.domains[s.ops[o].domain := s.domains[s.ops[o].domain]] == s.domains;
    assert s.ops[o := s.ops[o]] == s.ops && s.slots[o := s.slots[o]] == s.slots;
  }

  lemma BusyIgnoresClock(s: State, o: Id, now: int)
    requires o in s.ops
    ensures Busy(s.(clock := now), o, Bound(s.ops[o])) <==> Busy(s, o, Bound(s.ops[o]))
  {
  }

  /** The claim that an event makes, and everything that was in order for it. */
  ghost predicate ClaimsInOrder(s: State, t: Timed, o: Id) {
    && t.event.Prepare? && t.event.op == o && s.clock <= t.seen <= t.now
    && o in s.ops && s.ops[o].domain in s.domains && s.ops[o].claimedAt == None
    && var f, op, domain := t.event.facts, s.ops[o], s.domains[s.ops[o].domain];
       && MayRun(op, domain, f, t.event.permissions, t.seen)
       && InOrder(f, domain.customer) && !f.actionOutstanding && !OtherClaimOpen(s, o)
  }

  /** An operation is claimed by a step exactly when the step prepares it and all conditions hold. */
  lemma ClaimedExactlyInOrder(s: State, t: Timed, o: Id)
    requires Inv(s) && !IsClaimed(s, o)
    ensures IsClaimed(Step(s, t), o) <==> ClaimsInOrder(s, t, o) && t.event.worker !in s.workers
  {
    hide MayRun, InOrder, OtherClaimOpen, Budgets, Stages, OnePerAccount, Workers, Calls;
    if t.event.Prepare? && s.clock <= t.seen <= t.now && t.event.worker !in s.workers && t.event.op in s.ops {
      PreparationDecides(s, t.event.worker, t.event.op, t.event.facts, t.event.permissions, t.seen, t.now);
    } else {
      NoClaimElsewhere(s, t, o);
    }
  }

  lemma NoClaimElsewhere(s: State, t: Timed, o: Id)
    requires RowsMatch(s) && !IsClaimed(s, o)
    requires !(t.event.Prepare? && t.event.worker !in s.workers && t.event.op in s.ops && s.clock <= t.seen <= t.now)
    ensures !IsClaimed(Step(s, t), o)
  {
    hide Conflict, Verdict, HasOperation, Prepared;
    if t.event.Prepare? && s.clock <= t.seen <= t.now && t.event.worker !in s.workers { NothingToPrepare(s, t); }
  }

  lemma NothingToPrepare(s: State, t: Timed)
    requires t.event.Prepare? && s.clock <= t.seen <= t.now && t.event.op !in s.ops
    ensures Step(s, t) == s.(clock := t.now)
  {
    hide Admitted, MayClaim, SentBack;
  }

  // ----- the quote and the closing transaction ------------------------------------------------

  /** A fresh claim goes on to dispatch exactly on a clean quote, and every other answer ends it in one way. */
  lemma QuoteDecides(s: State, w: Id, quote: Answer<Quote>, existing: Answer<Option<Observation>>, seen: int, now: int)
    requires s.clock <= seen <= now && w in s.workers && s.workers[w].Quoting?
    ensures var t, pc := Step(s, Timed(QuoteAnswer(w, quote, existing), seen, now)), s.workers[w];
      t == if quote == Threw || existing == Threw then s.(clock := now, workers := s.workers[w := Looking(pc.intent)])
           else if existing == Answered(None) && quote.value.available && quote.value.inDollars
                   && (quote.value.simulated <==> pc.mode == Fake) && 0 < quote.value.cost <= pc.intent.ceiling then
             s.(clock := now, workers := s.workers[w := Preparing(pc.intent, quote.value.cost)])
           else s.(clock := now, workers := s.workers - {w})
  {
  }

  /** The observation is about this operation and has not run out. */
  ghost predicate IsOurs(o: Observation, intent: Intent, seen: int) {
    && o.operation == intent.operation && o.account == intent.account && o.customer == intent.customer
    && o.name == intent.name && o.expiresAt.Some? && seen < o.expiresAt.value
  }

  /** The closing transaction leaves a final domain alone; otherwise the observation decides, and the next read is set. */
  lemma SettlementDecides(s: State, w: Id, seen: int, now: int)
    requires s.clock <= seen <= now && w in s.workers && s.workers[w].Settling?
    requires var o := s.workers[w].intent.operation; o in s.ops && s.ops[o].domain in s.domains && o in s.slots
    ensures var t, pc := Step(s, Timed(Settle(w), seen, now)), s.workers[w];
      var o := pc.intent.operation;
      var op, domain, found := s.ops[o], s.domains[s.ops[o].domain], pc.observation;
      var next := now + (if op.pollCount == 1 then 15_000 else if op.pollCount == 2 then 30_000 else 360_000);
      var ours := found.Some? && IsOurs(found.value, pc.intent, seen);
      t == if domain.state in {Registered, Failed} then s.(clock := now, workers := s.workers - {w})
           else
             s.(clock := now, workers := s.workers - {w}, ops := s.ops[o := op.(nextPollAt := next)],
                domains := s.domains[op.domain :=
                  if ours && found.value.state == Active then
                    domain.(state := Registered,
                            registration :=
                              Some(Registration(found.value.orderId, found.value.expiresAt.value, found.value.verified)))
                  else domain.(state := if ours && found.value.state == Rejected then Failed else NeedsReconciliation)])
  {
    hide Matches, IsOurs;
    var pc := s.workers[w];
    if pc.observation.Some? { OursMatches(pc.observation.value, pc.intent, seen); }
    assert s.slots[pc.intent.operation := s.slots[pc.intent.operation]] == s.slots;
  }

  lemma OursMatches(o: Observation, intent: Intent, seen: int)
    ensures IsOurs(o, intent, seen) <==> Matches(o, intent, seen)
  {
  }

  // ----- over whole runs ----------------------------------------------------------------------

  /** The state before the i-th event of a run. */
  function Before(clock: int, events: seq<Timed>, i: nat): State
    requires i <= |events|
  {
    Run(Initial(clock), events[..i])
  }

  lemma {:induction false} RunSnoc(s: State, events: seq<Timed>, t: Timed)
    ensures Run(s, events + [t]) == Step(Run(s, events), t)
    decreases |events|
  {
    hide Step;
    if events == [] {
      assert [t][1..] == [];
    } else {
      RunSnoc(Step(s, events[0]), events[1..], t);
      assert (events + [t])[1..] == events[1..] + [t];
    }
  }

  lemma LastStep(clock: int, events: seq<Timed>)
    requires events != []
    ensures Before(clock, events, |events|) == Step(Before(clock, events, |events| - 1), events[|events| - 1])
  {
    hide Run, Step;
    var front := events[..|events| - 1];
    assert events[..|events|] == events == front + [events[|events| - 1]];
    RunSnoc(Initial(clock), front, events[|events| - 1]);
  }

  lemma SameBefore(clock: int, events: seq<Timed>, i: nat)
    requires i < |events|
    ensures Before(clock, events[..|events| - 1], i) == Before(clock, events, i)
  {
    hide Run;
    assert events[..|events| - 1][..i] == events[..i];
  }

  /** Every claim was made with payment, owner and approver in order, and no other claim open on the account. */
  lemma {:induction false} ClaimsWereInOrder(clock: int, events: seq<Timed>, o: Id) returns (i: nat)
    requires IsClaimed(Before(clock, events, |events|), o)
    ensures i < |events| && ClaimsInOrder(Before(clock, events, i), events[i], o)
    decreases |events|
  {
    hide Step, Run, ClaimsInOrder;
    if events == [] {
      NothingClaimed(clock, o);
    } else {
      var front := events[..|events| - 1];
      LastStep(clock, events);
      SameBefore(clock, events, |events| - 1);
      if IsClaimed(Before(clock, front, |front|), o) {
        i := ClaimsWereInOrder(clock, front, o);
        SameBefore(clock, events, i);
      } else {
        i := |front|;
        Reachable(clock, front);
        assert front[..|front|] == front;
        ClaimedExactlyInOrder(Before(clock, events, i), events[i], o);
      }
    }
  }

  lemma NothingClaimed(clock: int, o: Id)
    ensures !IsClaimed(Before(clock, [], 0), o)
  {
  }

  /** The event that quoted a cost for operation o, and what made it acceptable. */
  ghost predicate QuotedCleanly(s: State, t: Timed, o: Id, cost: int) {
    && t.event.QuoteAnswer? && s.clock <= t.seen <= t.now
    && t.event.worker in s.workers && s.workers[t.event.worker].Quoting?
    && var pc := s.workers[t.event.worker];
       && pc.intent.operation == o
       && t.event.existing == Answered(None) && t.event.quote == Answered(Quote(true, cost, true, pc.mode == Fake))
       && 0 < cost <= pc.intent.ceiling
  }

  /** Some earlier event quoted that cost. */
  ghost predicate WasQuoted(clock: int, events: seq<Timed>, o: Id, cost: int) {
    exists i | 0 <= i < |events| :: QuotedCleanly(Before(clock, events, i), events[i], o, cost)
  }

  lemma QuotedLater(clock: int, events: seq<Timed>, o: Id, cost: int)
    requires events != [] && WasQuoted(clock, events[..|events| - 1], o, cost)
    ensures WasQuoted(clock, events, o, cost)
  {
    hide QuotedCleanly, Before;
    var front := events[..|events| - 1];
    var i :| 0 <= i < |front| && QuotedCleanly(Before(clock, front, i), front[i], o, cost);
    SameBefore(clock, events, i);
    assert QuotedCleanly(Before(clock, events, i), events[i], o, cost);
  }

  lemma QuotedNow(clock: int, events: seq<Timed>, i: nat, o: Id, cost: int)
    requires i < |events| && QuotedCleanly(Before(clock, events, i), events[i], o, cost)
    ensures WasQuoted(clock, events, o, cost)
  {
  }

  /** What the stages after the quote know. */
  ghost predicate CostOf(pc: Pc, o: Id, cost: int) {
    (pc.Preparing? || pc.Registering?) && pc.intent.operation == o && pc.cost == cost
  }

  /** A cost is known to a worker, or was paid in a call. */
  ghost predicate Knows(s: State, o: Id, cost: int) {
    || (exists w | w in s.workers :: CostOf(s.workers[w], o, cost))
    || Call(o, cost) in s.calls
  }

  lemma KnownByQuote(s: State, t: Timed, o: Id, cost: int)
    requires Knows(Step(s, t), o, cost) && !Knows(s, o, cost)
    ensures QuotedCleanly(s, t, o, cost)
  {
    hide Prepared, Settled, Ordered, Approved, Conflict;
    KnownElsewhere(s, t, o, cost);
    var w, pc := t.event.worker, s.workers[t.event.worker];
    QuoteDecides(s, w, t.event.quote, t.event.existing, t.seen, t.now);
    var after := Step(s, t);
    assert after.calls == s.calls;
    var v :| v in after.workers && CostOf(after.workers[v], o, cost);
  }

  lemma KnownElsewhere(s: State, t: Timed, o: Id, cost: int)
    requires Knows(Step(s, t), o, cost) && !Knows(s, o, cost)
    ensures s.clock <= t.seen <= t.now && t.event.QuoteAnswer?
    ensures t.event.worker in s.workers && s.workers[t.event.worker].Quoting?
  {
    hide Admitted, Eligible, Busy, Conflict, Verdict, HasOperation;
  }

  /** Every call was made at a cost quoted for it before: available, in dollars, of the right mode and within the ceiling. */
  lemma {:induction false} CostsWereQuoted(clock: int, events: seq<Timed>, o: Id, cost: int)
    requires Knows(Before(clock, events, |events|), o, cost)
    ensures WasQuoted(clock, events, o, cost)
    decreases |events|
  {
    hide Step, Run, QuotedCleanly, Knows, WasQuoted;
    if events == [] {
      NothingKnown(clock, o, cost);
    } else {
      var front := events[..|events| - 1];
      LastStep(clock, events);
      SameBefore(clock, events, |events| - 1);
      if Knows(Before(clock, front, |front|), o, cost) {
        CostsWereQuoted(clock, front, o, cost);
        QuotedLater(clock, events, o, cost);
      } else {
        KnownByQuote(Before(clock, events, |front|), events[|front|], o, cost);
        QuotedNow(clock, events, |front|, o, cost);
      }
    }
  }

  lemma NothingKnown(clock: int, o: Id, cost: int)
    ensures !Knows(Before(clock, [], 0), o, cost)
  {
  }

  /**
   Whoever enters registerOnce does so for an operation whose claim found it paid in full, its customer and
   approver in order and its account free, and at a cost that was cleanly quoted.
   */
  lemma CallsWerePaidAndQuoted(clock: int, events: seq<Timed>, k: nat) returns (i: nat)
    requires k < |Run(Initial(clock), events).calls|
    ensures var call := Run(Initial(clock), events).calls[k];
      && i < |events| && ClaimsInOrder(Before(clock, events, i), events[i], call.operation)
      && WasQuoted(clock, events, call.operation, call.cost)
  {
    hide Run, Step, ClaimsInOrder, WasQuoted;
    assert events[..|events|] == events;
    var call := Run(Initial(clock), events).calls[k];
    OneCallPerOperation(clock, events);
    i := ClaimsWereInOrder(clock, events, call.operation);
    CostsWereQuoted(clock, events, call.operation, call.cost);
  }
}
