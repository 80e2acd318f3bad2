/**
 The processor as it is written: transactions and registrar calls in order over rows it rewrites
 (packages/database/src/registrar/processor.ts), proved to take the steps of the protocol.
 */
module RegistrarProcessor {
  import opened Options
  import opened RegistrarDispatch
  import Fulfillment

  // ----- the invoice behind a domain ----------------------------------------------------------

  lemma {:induction false} CleanSum(payments: seq<Payment>)
    requires forall i | 0 <= i < |payments| :: Clean(payments[i])
    ensures Sum(payments, (p: Payment) => p.succeeded && p.kind == Charge && p.verified)
         == Sum(payments, (p: Payment) => p.succeeded)
  {
    if payments != [] {
      assert Clean(payments[0]);
      CleanSum(payments[1..]);
    }
  }

  lemma {:induction false} SumSnoc(payments: seq<Payment>, k: nat, counts: Payment -> bool)
    requires k < |payments|
    ensures Sum(payments[..k + 1], counts)
         == Sum(payments[..k], counts) + if counts(payments[k]) then payments[k].amount else 0
  {
    if k == 0 {
      assert payments[..1][1..] == [] && payments[..0] == [];
    } else {
      SumSnoc(payments[1..], k - 1, counts);
      assert payments[..k + 1][1..] == payments[1..][..k];
      assert payments[..k][1..] == payments[1..][..k - 1];
    }
  }

  method VerifiedDomainInvoice(found: Option<Invoice>, customer: Id) returns (ok: bool)
    ensures ok <==> found.Some? && FullyPaid(found.value, customer)
  {
    if found.None? { return false; }
    var invoice := found.value;
    if invoice.customer != customer || !invoice.paid || invoice.currency != "BDT" || invoice.total <= 0
       || invoice.balanceDue != 0 || invoice.amountPaid != invoice.total {
      return false;
    }
    var payments := invoice.payments;
    for i := 0 to |payments|
      invariant forall j | 0 <= j < i :: Clean(payments[j])
    {
      var p := payments[i];
      if p.succeeded && (p.kind != Charge || p.currency != invoice.currency || !p.verified) {
        assert !Clean(payments[i]);
        return false;
      }
    }
    var sum := 0;
    ghost var counts := (p: Payment) => p.succeeded && p.kind == Charge && p.verified;
    for i := 0 to |payments|
      invariant sum == Sum(payments[..i], counts)
    {
      SumSnoc(payments, i, counts);
      if payments[i].succeeded && payments[i].kind == Charge && payments[i].verified {
        sum := sum + payments[i].amount;
      }
    }
    assert payments[..|payments|] == payments;
    CleanSum(payments);
    return sum == invoice.total;
  }

  // ----- the processor ------------------------------------------------------------------------

  datatype Preparation = Preparation(intent: Intent, mode: Mode, dispatch: bool)

  /** What the registrar answers during one run. */
  datatype Answers = Answers(
    quote: Answer<Quote>, existing: Answer<Option<Observation>>, contacts: bool, lookup: Answer<Option<Observation>>)

  class Processor {
    var ops: map<Id, Operation>
    var domains: map<Id, Domain>
    var calls: seq<Call>
    ghost var workers: map<Id, Pc>
    ghost var slots: map<Id, seq<int>>
    ghost var clock: int

    constructor (now: int)
      ensures Valid() && Rows() == Initial(now)
    {
      ops, domains, calls := map[], map[], [];
      workers, slots, clock := map[], map[], now;
    }

    ghost predicate Valid()
      reads this
    {
      slots.Keys == ops.Keys && forall o | o in ops :: ops[o].domain in domains
    }

    ghost function Rows(): State
      reads this
    {
      State(ops, domains, workers, calls, slots, clock)
    }

    /** The loop over the account's other claimed operations. */
    method AccountIsFree(o: Id, account: Id) returns (free: bool)
      requires Valid()
      ensures free <==> !Busy(Rows(), o, account)
    {
      var busy := set p | p in ops && p != o && ops[p].claimedAt.Some? && Bound(ops[p]) == account;
      var rest := busy;
      while rest != {}
        invariant rest <= busy
        invariant forall p | p in busy && p !in rest :: Terminal(domains[ops[p].domain].state)
        decreases rest
      {
        var outstanding :| outstanding in rest;
        if !Terminal(domains[ops[outstanding].domain].state) { return false; }
        rest := rest - {outstanding};
      }
      return true;
    }

    /** The tests of the preparation transaction before it looks at the claim. */
    method Admits(o: Id, f: Facts, permissions: Permissions, seen: int) returns (ok: bool)
      requires Valid()
      ensures ok <==> o in ops && Admitted(ops[o], domains[ops[o].domain], f, permissions, seen)
    {
      hide LiveReady;
      if o !in ops || !f.billed { return false; }
      var op, domain := ops[o], domains[ops[o].domain];
      if f.mode != f.originMode || (op.selected.Some? && domain.executionAccount != Some(Bound(op))) { return false; }
      if !f.enabled
         || (if f.mode == Fake then !permissions.simulationAllowed else !permissions.liveAllowed || !op.riskAccepted)
         || !f.knownProvider || domain.state == Registered || domain.state == Failed {
        return false;
      }
      if op.pollCount >= MAX_POLLS || (op.claimedAt.Some? && op.nextPollAt > seen) { return false; }
      if f.credential != Credential(Bound(op)) { return false; }
      return f.mode == Fake || LiveReady(f.live, op);
    }

    /** The claim branch: the operation's rows are written only when the claim succeeds. */
    method Claim(o: Id, f: Facts, now: int) returns (claimed: bool)
      requires Valid() && o in ops && ops[o].claimedAt.None? && clock == now
      modifies this`ops, this`domains, this`slots
      ensures Valid()
      ensures claimed == (!SentBack(f, old(domains)[old(ops)[o].domain].customer)
                          && MayClaim(old(Rows()), o, f, old(domains)[old(ops)[o].domain].customer))
      ensures var op, domain := old(ops)[o], old(domains)[old(ops)[o].domain];
        Rows() ==
        if SentBack(f, domain.customer) then Rewritten(old(Rows()), o, op, domain.(state := AwaitingApproval), old(slots)[o])
        else if !claimed then old(Rows())
        else Rewritten(old(Rows()), o,
                       op.(claimedAt := Some(now), pollCount := op.pollCount + 1, nextPollAt := now + POLL_SLOT),
                       domain.(state := NeedsReconciliation), old(slots)[o] + [now])
    {
      hide FullyPaid, Busy;
      var op, domain := ops[o], domains[ops[o].domain];
      if f.mode == Live && f.actionOutstanding { return false; }
      var paid := VerifiedDomainInvoice(f.invoice, domain.customer);
      if f.approver.None? || !f.approver.value.admin || !f.approver.value.active || f.approver.value.deleted
         || !f.approver.value.fullAdministrator || !f.approver.value.totp
         || f.customer.None? || !f.customer.value.active || f.customer.value.deleted || !f.customer.value.userActive
         || (f.mode == Live && !f.customer.value.emailVerified) || f.customer.value.userDeleted
         || (f.order != Paid && f.order != Processing) || !paid {
        domains := domains[op.domain := domain.(state := AwaitingApproval)];
        assert ops[o := op] == ops && slots[o := slots[o]] == slots;
        return false;
      }
      if f.actionOutstanding { return false; }
      var free := AccountIsFree(o, Bound(op));
      if !free { return false; }
      ops := ops[o := op.(claimedAt := Some(now), pollCount := op.pollCount + 1, nextPollAt := now + POLL_SLOT)];
      domains := domains[op.domain := domain.(state := NeedsReconciliation)];
      slots := slots[o := slots[o] + [now]];
      return true;
    }

    /** A claimed operation only takes its next read slot. */
    method ReserveSlot(o: Id, now: int)
      requires Valid() && o in ops
      modifies this`ops, this`slots
      ensures Valid()
      ensures Rows() == Rewritten(
        old(Rows()), o, old(ops)[o].(pollCount := old(ops)[o].pollCount + 1, nextPollAt := now + POLL_SLOT),
        old(domains)[old(ops)[o].domain], old(slots)[o] + [now])
    {
      var op := ops[o];
      ops := ops[o := op.(pollCount := op.pollCount + 1, nextPollAt := now + POLL_SLOT)];
      slots := slots[o := slots[o] + [now]];
      assert domains[op.domain := domains[op.domain]] == domains;
    }

    /** The preparation transaction, up to its commit. */
    method Prepare(w: Id, o: Id, f: Facts, permissions: Permissions, seen: int, now: int)
      returns (preparation: Option<Preparation>)
      requires Valid() && w !in workers && clock <= seen <= now
      modifies this
      ensures Valid() && clock == now && Rows() == Step(old(Rows()), Timed(Event.Prepare(w, o, f, permissions), seen, now))
      ensures preparation.Some? <==> w in workers
      ensures preparation.Some? ==>
                workers[w] == if preparation.value.dispatch then Quoting(preparation.value.intent, preparation.value.mode)
                              else Looking(preparation.value.intent)
      ensures preparation.Some? ==> IsClaimed(Rows(), o) && preparation.value.dispatch == old(o in ops && ops[o].claimedAt.None?)
    {
      hide Admitted, Eligible, Busy, MayClaim, SentBack, Step, Run;
      PrepareStep(Rows(), w, o, f, permissions, seen, now);
      var ok := Admits(o, f, permissions, seen);
      clock := now;
      if !ok { return None; }
      var op, domain := ops[o], domains[ops[o].domain];
      var dispatch := op.claimedAt.None?;
      if dispatch {
        var claimed := Claim(o, f, now);
        if !claimed { return None; }
      } else {
        ReserveSlot(o, now);
      }
      var intent := IntentOf(o, op, domain);
      workers := workers[w := if dispatch then Quoting(intent, f.mode) else Looking(intent)];
      return Some(Preparation(intent, f.mode, dispatch));
    }

    /** The calls between the two transactions that a fresh claim makes; false when it found a conflict. */
    method Dispatch(w: Id, p: Preparation, answers: Answers, now: int) returns (proceed: bool)
      requires Valid() && clock <= now && w in workers && workers[w] == Quoting(p.intent, p.mode)
      modifies this`clock, this`workers, this`calls
      ensures Valid() && clock == now
      ensures Rows() == Run(old(Rows()), DispatchEvents(w, answers, now))
      ensures proceed <==> w in workers
      ensures proceed ==> workers[w] == Looking(p.intent)
    {
      hide Conflict, Run, Step;
      ghost var before := Rows();
      clock := now;
      proceed := true;
      workers := workers[w := Looking(p.intent)];
      if answers.quote.Answered? && answers.existing.Answered? {
        var cost := answers.quote.value;
        if Conflict(cost, answers.existing.value, p.mode, p.intent.ceiling) {
          workers := workers - {w};
          proceed := false;
          assert workers == before.workers - {w};
        } else if answers.contacts {
          calls := calls + [Call(p.intent.operation, cost.cost)];
        }
      }
      DispatchSteps(before, w, p, answers, now);
    }

    /** The closing transaction, up to the order; true when it registered the domain. */
    method Settle(w: Id, intent: Intent, found: Option<Observation>, seen: int, now: int) returns (registered: bool)
      requires Valid() && clock <= seen <= now && w in workers && workers[w] == Settling(intent, found)
      modifies this
      ensures Valid() && clock == now && Rows() == Step(old(Rows()), Timed(Event.Settle(w), seen, now))
      ensures w !in workers
      ensures registered <==> RegisteredDomains(domains) != RegisteredDomains(old(domains))
    {
      hide Matches, Verdict, Step, Run, RegisteredDomains;
      SettleStep(Rows(), w, seen, now);
      SettleRegisters(Rows(), w, seen, now);
      clock := now;
      workers := workers - {w};
      var o := intent.operation;
      if o !in ops { return false; }
      var op, current := ops[o], domains[ops[o].domain];
      if current.state == Registered || current.state == Failed { return false; }
      var state := Judge(found, intent, seen);
      ops := ops[o := op.(nextPollAt := now + Delay(op.pollCount))];
      var settled := current.(state := state);
      if state == Registered {
        settled := settled.(registration :=
          Some(Registration(found.value.orderId, found.value.expiresAt.value, found.value.verified)));
      }
      domains := domains[op.domain := settled];
      assert slots[o := slots[o]] == slots;
      return state == Registered;
    }

    /** What the same transaction makes of the order, when its domain was registered. */
    static method SettleOrder(registered: bool, tables: Fulfillment.Tables, order: Id) returns (status: Option<OrderStatus>)
      ensures status.Some? <==> registered
      ensures Fulfillment.Storable(tables) ==> (status == Some(Completed) <==> registered && Fulfillment.Delivered(tables, order))
    {
      hide Fulfillment.Storable, Fulfillment.Delivered, Fulfillment.OrderFulfillmentComplete;
      if !registered { return None; }
      if Fulfillment.Storable(tables) { Fulfillment.CompleteIsDelivered(tables, order); }
      var complete := Fulfillment.OrderFulfillmentComplete(tables, order);
      return Some(if complete then Completed else Processing);
    }

    /** The observation that matches the intent, if it does, decides the domain's state. */
    static method Judge(found: Option<Observation>, intent: Intent, seen: int) returns (state: DomainState)
      ensures state == Verdict(found, intent, seen)
      ensures state == Registered ==> found.Some? && Matches(found.value, intent, seen) && found.value.expiresAt.Some?
    {
      if found.None? || !Matches(found.value, intent, seen) { return NeedsReconciliation; }
      if found.value.state == Active { return Registered; }
      if found.value.state == Rejected { return Failed; }
      return NeedsReconciliation;
    }

    /** One delivery of an operation, up to the order of its domain; true when it registered that. */
    method Deliver(w: Id, o: Id, f: Facts, permissions: Permissions, answers: Answers, seen: int, now: int)
      returns (registered: bool)
      requires Valid() && w !in workers && clock <= seen <= now
      modifies this
      ensures Valid() && w !in workers
      ensures registered <==> RegisteredDomains(domains) != RegisteredDomains(old(domains))
      ensures Rows() == Run(old(Rows()), ProcessEvents(w, o, f, permissions, answers, seen, now))
    {
      hide Step, Run, DispatchEvents, LateEvents, RegisteredDomains;
      ghost var s0 := Rows();
      RunAppend(s0, [Timed(Event.Prepare(w, o, f, permissions), seen, now)] + DispatchEvents(w, answers, now),
                LateEvents(w, answers, now));
      RunAppend(s0, [Timed(Event.Prepare(w, o, f, permissions), seen, now)], DispatchEvents(w, answers, now));
      RunOne(s0, Timed(Event.Prepare(w, o, f, permissions), seen, now));
      var preparation := Prepare(w, o, f, permissions, seen, now);
      RegisteredStand(s0, domains, w, o, f, permissions, seen, now);
      if preparation.None? {
        NoDispatch(Rows(), w, answers, now);
        LateSteps(Rows(), w, answers, now);
        return false;
      }
      registered := FollowUp(w, preparation.value, answers, now);
    }

    /** What follows the commit of a preparation. */
    method FollowUp(w: Id, p: Preparation, answers: Answers, now: int) returns (registered: bool)
      requires Valid() && clock == now && w in workers
      requires workers[w] == if p.dispatch then Quoting(p.intent, p.mode) else Looking(p.intent)
      modifies this
      ensures Valid() && w !in workers
      ensures Rows() == Run(Run(old(Rows()), DispatchEvents(w, answers, now)), LateEvents(w, answers, now))
      ensures registered <==> RegisteredDomains(domains) != RegisteredDomains(old(domains))
    {
      hide Step, Run, DispatchEvents, LateEvents, RegisteredDomains;
      ghost var before := Rows();
      if p.dispatch {
        var proceed := Dispatch(w, p, answers, now);
        LateSteps(Rows(), w, answers, now);
        if !proceed { return false; }
      } else {
        NoDispatch(before, w, answers, now);
        LateSteps(Rows(), w, answers, now);
      }
      if answers.lookup.Threw? {
        workers := workers - {w};
        return false;
      }
      workers := workers[w := Settling(p.intent, answers.lookup.value)];
      registered := Settle(w, p.intent, answers.lookup.value, now, now);
    }

    /** One delivery of an operation, from start to end. */
    method Process(w: Id, o: Id, f: Facts, permissions: Permissions, answers: Answers, tables: Fulfillment.Tables, order: Id,
                   seen: int, now: int)
      returns (status: Option<OrderStatus>)
      requires Valid() && w !in workers && clock <= seen <= now
      modifies this
      ensures Valid() && w !in workers
      ensures Rows() == Run(old(Rows()), ProcessEvents(w, o, f, permissions, answers, seen, now))
      ensures status.Some? <==> RegisteredDomains(domains) != RegisteredDomains(old(domains))
      ensures Fulfillment.Storable(tables) ==>
                (status == Some(Completed) <==> status.Some? && Fulfillment.Delivered(tables, order))
    {
      hide *;
      var registered := Deliver(w, o, f, permissions, answers, seen, now);
      status := SettleOrder(registered, tables, order);
    }
  }

  ghost function RegisteredDomains(domains: map<Id, Domain>): set<Id> {
    set d | d in domains && domains[d].state == Registered
  }

  lemma PrepareRegistersNone(s: State, w: Id, o: Id, f: Facts, permissions: Permissions, seen: int, now: int)
    requires w !in s.workers && s.clock <= seen <= now
    ensures var t := Step(s, Timed(Event.Prepare(w, o, f, permissions), seen, now));
      RegisteredDomains(t.domains) == RegisteredDomains(s.domains)
  {
    hide Eligible, Busy, SentBack;
  }

  lemma RegisteredStand(
    s: State, domains: map<Id, Domain>, w: Id, o: Id, f: Facts, permissions: Permissions, seen: int, now: int)
    requires w !in s.workers && s.clock <= seen <= now
    requires domains == Step(s, Timed(Event.Prepare(w, o, f, permissions), seen, now)).domains
    ensures RegisteredDomains(domains) == RegisteredDomains(s.domains)
  {
    hide *;
    PrepareRegistersNone(s, w, o, f, permissions, seen, now);
  }

  /** The closing transaction registers a domain exactly when it was open and the observation confirms it. */
  lemma SettleRegisters(s: State, w: Id, seen: int, now: int)
    requires w in s.workers && s.workers[w].Settling? && s.clock <= seen <= now
    requires var o := s.workers[w].intent.operation; o in s.ops && s.ops[o].domain in s.domains ==> o in s.slots
    ensures var intent := s.workers[w].intent; var o := intent.operation;
      RegisteredDomains(Step(s, Timed(Event.Settle(w), seen, now)).domains) != RegisteredDomains(s.domains)
      <==> o in s.ops && s.ops[o].domain in s.domains && !Terminal(s.domains[s.ops[o].domain].state)
           && Verdict(s.workers[w].observation, intent, seen) == Registered
  {
    hide Matches;
    var t := Step(s, Timed(Event.Settle(w), seen, now));
    var o := s.workers[w].intent.operation;
    if o in s.ops && s.ops[o].domain in s.domains && !Terminal(s.domains[s.ops[o].domain].state) {
      var d := s.ops[o].domain;
      assert d !in RegisteredDomains(s.domains) && (d in RegisteredDomains(t.domains) <==> t.domains[d].state == Registered);
      assert forall k | k != d :: k in RegisteredDomains(t.domains) <==> k in RegisteredDomains(s.domains);
    } else {
      assert t.domains == s.domains;
    }
  }

  ghost function DispatchEvents(w: Id, answers: Answers, now: int): seq<Timed> {
    [Timed(QuoteAnswer(w, answers.quote, answers.existing), now, now),
     Timed(ContactsAnswer(w, answers.contacts), now, now), Timed(Register(w), now, now)]
  }

  ghost function LateEvents(w: Id, answers: Answers, now: int): seq<Timed> {
    [Timed(LookupAnswer(w, answers.lookup), now, now), Timed(Event.Settle(w), now, now)]
  }

  ghost function ProcessEvents(w: Id, o: Id, f: Facts, permissions: Permissions, answers: Answers, seen: int, now: int): seq<Timed> {
    [Timed(Event.Prepare(w, o, f, permissions), seen, now)] + DispatchEvents(w, answers, now) + LateEvents(w, answers, now)
  }

  lemma {:induction false} RunAppend(s: State, xs: seq<Timed>, ys: seq<Timed>)
    ensures Run(s, xs + ys) == Run(Run(s, xs), ys)
    decreases |xs|
  {
    hide Step;
    if xs == [] {
      assert xs + ys == ys;
    } else {
      RunAppend(Step(s, xs[0]), xs[1..], ys);
      assert (xs + ys)[1..] == xs[1..] + ys;
    }
  }

  lemma RunOne(s: State, a: Timed)
    ensures Run(s, [a]) == Step(s, a)
  {
  }

  lemma RunTwo(s: State, a: Timed, b: Timed)
    ensures Run(s, [a, b]) == Step(Step(s, a), b)
  {
    hide Step;
    assert [a, b][1..] == [b];
    RunOne(Step(s, a), b);
  }

  lemma RunThree(s: State, a: Timed, b: Timed, c: Timed)
    ensures Run(s, [a, b, c]) == Step(Step(Step(s, a), b), c)
  {
    hide Step;
    assert [a, b, c][1..] == [b, c];
    RunTwo(Step(s, a), b, c);
  }

  lemma PrepareStep(s: State, w: Id, o: Id, f: Facts, permissions: Permissions, seen: int, now: int)
    requires w !in s.workers && s.clock <= seen <= now
    ensures Step(s, Timed(Event.Prepare(w, o, f, permissions), seen, now))
         == Prepared(s.(clock := now), w, o, f, permissions, seen, now)
  {
  }

  lemma SettleStep(s: State, w: Id, seen: int, now: int)
    requires w in s.workers && s.workers[w].Settling? && s.clock <= seen <= now
    ensures Step(s, Timed(Event.Settle(w), seen, now))
         == Gone(Settled(s.(clock := now), s.workers[w].intent, s.workers[w].observation, seen, now), w)
  {
  }

  /** What the calls of a fresh claim come to. */
  lemma DispatchSteps(s: State, w: Id, p: Preparation, answers: Answers, now: int)
    requires s.clock <= now && w in s.workers && s.workers[w] == Quoting(p.intent, p.mode)
    ensures var t := s.(clock := now);
      Run(s, DispatchEvents(w, answers, now)) ==
      if answers.quote.Threw? || answers.existing.Threw? then Moved(t, w, Looking(p.intent))
      else if Conflict(answers.quote.value, answers.existing.value, p.mode, p.intent.ceiling) then Gone(t, w)
      else Moved(t, w, Looking(p.intent)).(
        calls := if answers.contacts then t.calls + [Call(p.intent.operation, answers.quote.value.cost)] else t.calls)
  {
    hide Conflict, Run, Prepared, Settled, Approved, Ordered;
    RunThree(s, Timed(QuoteAnswer(w, answers.quote, answers.existing), now, now),
             Timed(ContactsAnswer(w, answers.contacts), now, now), Timed(Register(w), now, now));
    var t := s.(clock := now);
    assert t.workers == s.workers;
    if answers.quote.Answered? && answers.existing.Answered?
       && !Conflict(answers.quote.value, answers.existing.value, p.mode, p.intent.ceiling) {
      MovedTwice(t, w, Preparing(p.intent, answers.quote.value.cost), Registering(p.intent, answers.quote.value.cost));
      MovedTwice(t, w, Registering(p.intent, answers.quote.value.cost), Looking(p.intent));
      MovedTwice(t, w, Preparing(p.intent, answers.quote.value.cost), Looking(p.intent));
    }
  }

  lemma MovedTwice(s: State, w: Id, pc: Pc, next: Pc)
    ensures Moved(Moved(s, w, pc), w, next) == Moved(s, w, next)
  {
  }

  /** Nothing happens to a run that is over or that only reads. */
  lemma NoDispatch(s: State, w: Id, answers: Answers, now: int)
    requires s.clock == now && (w !in s.workers || s.workers[w].Looking?)
    ensures Run(s, DispatchEvents(w, answers, now)) == s
  {
    hide Conflict, Run, Prepared, Settled, Approved, Ordered;
    RunThree(s, Timed(QuoteAnswer(w, answers.quote, answers.existing), now, now),
             Timed(ContactsAnswer(w, answers.contacts), now, now), Timed(Register(w), now, now));
  }

  lemma LateSteps(s: State, w: Id, answers: Answers, now: int)
    requires s.clock == now
    ensures w !in s.workers ==> Run(s, LateEvents(w, answers, now)) == s
    ensures w in s.workers && s.workers[w].Looking? ==>
      Run(s, LateEvents(w, answers, now)) ==
        match answers.lookup
        case Threw => Gone(s, w)
        case Answered(found) => Step(Moved(s, w, Settling(s.workers[w].intent, found)), Timed(Event.Settle(w), now, now))
  {
    hide Run, Prepared, Settled, Approved, Ordered;
    RunTwo(s, Timed(LookupAnswer(w, answers.lookup), now, now), Timed(Event.Settle(w), now, now));
  }
}
