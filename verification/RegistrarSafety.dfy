/**
 What every run of the registration protocol keeps: one call of registerOnce per operation, one
 outstanding claim per account, a bounded and spaced polling budget, and final states that stay.
 */
module RegistrarSafety {
  import opened Options
  import opened RegistrarDispatch

  // ----- the invariant ------------------------------------------------------------------------

  ghost predicate Dispatching(pc: Pc) {
    pc.Quoting? || pc.Preparing? || pc.Registering?
  }

  /** Domains reach these states only through the claim of their operation. */
  ghost predicate AfterClaim(state: DomainState) {
    state == NeedsReconciliation || state == Failed || state == Registered
  }

  function DomainOf(s: State, o: Id): Domain
    requires o in s.ops && s.ops[o].domain in s.domains
  {
    s.domains[s.ops[o].domain]
  }

  ghost predicate RowsMatch(s: State) {
    && s.slots.Keys == s.ops.Keys
    && (forall o | o in s.ops :: s.ops[o].domain in s.domains)
    && (forall o, p | o in s.ops && p in s.ops && s.ops[o].domain == s.ops[p].domain :: o == p)
  }

  /** The clock readings of an operation's claim and read slots, each with the delay its number demands. */
  ghost predicate Spaced(slots: seq<int>) {
    forall i | 0 < i < |slots| :: slots[i - 1] + Delay(i) <= slots[i]
  }

  ghost predicate Budgeted(op: Operation, slots: seq<int>, clock: int) {
    && |slots| == op.pollCount <= MAX_POLLS
    && (op.claimedAt.Some? <==> op.pollCount > 0)
    && op.ceiling > 0
    && Spaced(slots)
    && (slots != [] ==>
          && op.claimedAt == Some(slots[0])
          && slots[|slots| - 1] <= clock
          && slots[|slots| - 1] + Delay(|slots|) <= op.nextPollAt)
  }

  ghost predicate Budgets(s: State)
    requires RowsMatch(s)
  {
    forall o | o in s.ops :: Budgeted(s.ops[o], s.slots[o], s.clock)
  }

  ghost predicate Stages(s: State)
    requires RowsMatch(s)
  {
    && (forall o | o in s.ops :: s.ops[o].claimedAt.Some? <==> AfterClaim(DomainOf(s, o).state))
    && (forall d | d in s.domains :: s.domains[d].registration.Some? <==> s.domains[d].state == Registered)
    && (forall d | d in s.domains && AfterClaim(s.domains[d].state) :: HasOperation(s, d))
  }

  /** A claim whose domain is still open. */
  ghost predicate Outstanding(s: State, o: Id)
    requires RowsMatch(s)
  {
    o in s.ops && s.ops[o].claimedAt.Some? && !Terminal(DomainOf(s, o).state)
  }

  ghost predicate OnePerAccount(s: State)
    requires RowsMatch(s)
  {
    forall o, p | Outstanding(s, o) && Outstanding(s, p) && Bound(s.ops[o]) == Bound(s.ops[p]) :: o == p
  }

  ghost predicate Called(s: State, o: Id) {
    exists i :: 0 <= i < |s.calls| && s.calls[i].operation == o
  }

  ghost predicate Working(s: State, w: Id)
    requires RowsMatch(s)
  {
    w in s.workers ==>
      var pc := s.workers[w];
      var o := pc.intent.operation;
      && IsClaimed(s, o)
      && pc.intent == IntentOf(o, s.ops[o], DomainOf(s, o))
      && (Dispatching(pc) ==> !Called(s, o))
      && (pc.Preparing? || pc.Registering? ==> 0 < pc.cost <= s.ops[o].ceiling)
  }

  ghost predicate Workers(s: State)
    requires RowsMatch(s)
  {
    && (forall w :: Working(s, w))
    && (forall v, w | v in s.workers && w in s.workers && Dispatching(s.workers[v]) && Dispatching(s.workers[w])
          && s.workers[v].intent.operation == s.workers[w].intent.operation :: v == w)
  }

  ghost predicate Calls(s: State) {
    && (forall i | 0 <= i < |s.calls| ::
          IsClaimed(s, s.calls[i].operation) && 0 < s.calls[i].cost <= s.ops[s.calls[i].operation].ceiling)
    && (forall i, j | 0 <= i < j < |s.calls| :: s.calls[i].operation != s.calls[j].operation)
  }

  ghost predicate Inv(s: State) {
    RowsMatch(s) && Budgets(s) && Stages(s) && OnePerAccount(s) && Workers(s) && Calls(s)
  }

  // ----- rewriting one operation and its domain -----------------------------------------------

  /** What a transaction owes when it rewrites operation o: identities stay, and a claim is never given up. */
  ghost predicate Rewrites(s: State, o: Id, op: Operation, domain: Domain, slots: seq<int>)
    requires RowsMatch(s)
  {
    && o in s.ops
    && op.domain == s.ops[o].domain && Bound(op) == Bound(s.ops[o]) && op.ceiling == s.ops[o].ceiling
    && domain.customer == DomainOf(s, o).customer && domain.name == DomainOf(s, o).name
    && Budgeted(op, slots, s.clock)
    && (op.claimedAt.Some? <==> AfterClaim(domain.state))
    && (domain.registration.Some? <==> domain.state == Registered)
    && (s.ops[o].claimedAt.Some? ==> op.claimedAt.Some?)
    && (op.claimedAt.Some? && !Terminal(domain.state) && !Outstanding(s, o) ==>
          forall p | Outstanding(s, p) :: Bound(s.ops[p]) != Bound(op))
  }

  lemma RewriteRows(s: State, o: Id, op: Operation, domain: Domain, slots: seq<int>)
    requires Inv(s) && Rewrites(s, o, op, domain, slots)
    ensures var t := Rewritten(s, o, op, domain, slots);
      && RowsMatch(t)
      && (forall p | p in s.ops && p != o :: t.ops[p] == s.ops[p] && t.slots[p] == s.slots[p] && DomainOf(t, p) == DomainOf(s, p))
      && DomainOf(t, o) == domain && t.ops.Keys == s.ops.Keys
  {
    hide Budgets, Budgeted, Stages, OnePerAccount, Workers, Calls;
  }

  lemma RewriteKeepsBudgets(s: State, o: Id, op: Operation, domain: Domain, slots: seq<int>)
    requires Inv(s) && Rewrites(s, o, op, domain, slots)
    ensures var t := Rewritten(s, o, op, domain, slots); RowsMatch(t) && Budgets(t)
  {
    hide Stages, OnePerAccount, Workers, Calls, Budgeted, Outstanding, RowsMatch;
    RewriteRows(s, o, op, domain, slots);
  }

  lemma RewriteKeepsStages(s: State, o: Id, op: Operation, domain: Domain, slots: seq<int>)
    requires Inv(s) && Rewrites(s, o, op, domain, slots)
    ensures var t := Rewritten(s, o, op, domain, slots); RowsMatch(t) && Stages(t)
  {
    hide Budgets, OnePerAccount, Workers, Calls, Budgeted, Outstanding, RowsMatch;
    var t := Rewritten(s, o, op, domain, slots);
    RewriteRows(s, o, op, domain, slots);
    forall d | d in t.domains && AfterClaim(t.domains[d].state) ensures HasOperation(t, d) {
      if d == op.domain { assert t.ops[o].domain == d; } else {
        var p :| p in s.ops && s.ops[p].domain == d;
        assert t.ops[p].domain == d;
      }
    }
  }

  lemma RewriteKeepsAccounts(s: State, o: Id, op: Operation, domain: Domain, slots: seq<int>)
    requires Inv(s) && Rewrites(s, o, op, domain, slots)
    ensures var t := Rewritten(s, o, op, domain, slots); RowsMatch(t) && OnePerAccount(t)
  {
    hide Budgets, Stages, Workers, Calls, Budgeted, RowsMatch;
    var t := Rewritten(s, o, op, domain, slots);
    RewriteRows(s, o, op, domain, slots);
    assert forall p | p != o :: Outstanding(t, p) == Outstanding(s, p);
  }

  lemma RewriteKeepsWorkers(s: State, o: Id, op: Operation, domain: Domain, slots: seq<int>)
    requires Inv(s) && Rewrites(s, o, op, domain, slots)
    ensures var t := Rewritten(s, o, op, domain, slots); RowsMatch(t) && Workers(t) && Calls(t)
  {
    hide Budgets, Stages, OnePerAccount, Budgeted, RowsMatch, Outstanding;
    var t := Rewritten(s, o, op, domain, slots);
    RewriteRows(s, o, op, domain, slots);
    forall w ensures Working(t, w) {
      assert Working(s, w);
    }
  }

  lemma RewriteKeeps(s: State, o: Id, op: Operation, domain: Domain, slots: seq<int>)
    requires Inv(s) && Rewrites(s, o, op, domain, slots)
    ensures Inv(Rewritten(s, o, op, domain, slots))
  {
    hide RowsMatch, Budgets, Stages, OnePerAccount, Workers, Calls, Rewrites, Rewritten;
    RewriteKeepsBudgets(s, o, op, domain, slots);
    RewriteKeepsStages(s, o, op, domain, slots);
    RewriteKeepsAccounts(s, o, op, domain, slots);
    RewriteKeepsWorkers(s, o, op, domain, slots);
  }

  // ----- moving one worker --------------------------------------------------------------------

  /** What a worker must know to enter a stage. */
  ghost predicate MayEnter(s: State, w: Id, pc: Pc)
    requires RowsMatch(s)
  {
    var o := pc.intent.operation;
    && IsClaimed(s, o)
    && pc.intent == IntentOf(o, s.ops[o], DomainOf(s, o))
    && (pc.Preparing? || pc.Registering? ==> 0 < pc.cost <= s.ops[o].ceiling)
    && (Dispatching(pc) ==>
          && !Called(s, o)
          && forall v | v in s.workers && v != w && Dispatching(s.workers[v]) :: s.workers[v].intent.operation != o)
  }

  /** Budgets, stages and accounts do not look at the workers or the calls. */
  lemma SameRows(s: State, t: State)
    requires Inv(s) && t.ops == s.ops && t.domains == s.domains && t.slots == s.slots && s.clock <= t.clock
    ensures RowsMatch(t) && Budgets(t) && Stages(t) && OnePerAccount(t)
  {
    hide AfterClaim, Terminal, Spaced, Workers, Calls;
    assert forall o :: Outstanding(t, o) == Outstanding(s, o);
    forall d | HasOperation(s, d) ensures HasOperation(t, d) {
      var o :| o in s.ops && s.ops[o].domain == d;
      assert t.ops[o].domain == d;
    }
  }

  lemma MoveKeeps(s: State, w: Id, pc: Pc)
    requires Inv(s) && MayEnter(s, w, pc)
    ensures Inv(Moved(s, w, pc))
  {
    hide Budgets, Stages, OnePerAccount;
    var t := Moved(s, w, pc);
    SameRows(s, t);
    forall v ensures Working(t, v) {
      assert Working(s, v);
    }
  }

  lemma GoneKeeps(s: State, w: Id)
    requires Inv(s)
    ensures Inv(Gone(s, w))
  {
    hide Budgets, Stages, OnePerAccount;
    var t := Gone(s, w);
    SameRows(s, t);
    forall v ensures Working(t, v) {
      assert Working(s, v);
    }
  }

  lemma TickKeeps(s: State, now: int)
    requires Inv(s) && s.clock <= now
    ensures Inv(s.(clock := now))
  {
    hide Budgets, Stages, OnePerAccount;
    var t := s.(clock := now);
    SameRows(s, t);
    forall v ensures Working(t, v) {
      assert Working(s, v);
    }
  }

  // ----- each step keeps the invariant --------------------------------------------------------

  /** A further poll time, no earlier than the row allows. */
  lemma SlotKeepsBudget(op: Operation, slots: seq<int>, now: int)
    requires Budgeted(op, slots, now) && op.pollCount < MAX_POLLS && (op.claimedAt.Some? ==> op.nextPollAt <= now)
    ensures var claimed := if op.claimedAt.Some? then op.claimedAt else Some(now);
      Budgeted(op.(pollCount := op.pollCount + 1, nextPollAt := now + POLL_SLOT, claimedAt := claimed), slots + [now], now)
  {
  }

  lemma NoCallBeforeClaim(s: State, o: Id)
    requires Inv(s) && o in s.ops && s.ops[o].claimedAt.None?
    ensures !Called(s, o)
    ensures forall v | v in s.workers :: s.workers[v].intent.operation != o
  {
    hide Budgets, Stages, OnePerAccount;
    forall v | v in s.workers ensures s.workers[v].intent.operation != o {
      assert Working(s, v);
    }
  }

  /** A worker that enters the reading stage of a claimed operation. */
  lemma MayLook(s: State, w: Id, o: Id)
    requires Inv(s) && IsClaimed(s, o)
    ensures MayEnter(s, w, Looking(IntentOf(o, s.ops[o], DomainOf(s, o))))
  {
  }

  lemma PollKeeps(s: State, w: Id, o: Id)
    requires Inv(s) && IsClaimed(s, o) && !Terminal(DomainOf(s, o).state)
    requires s.ops[o].pollCount < MAX_POLLS && s.ops[o].nextPollAt <= s.clock
    ensures var op := s.ops[o];
      var slot, slots := op.(pollCount := op.pollCount + 1, nextPollAt := s.clock + POLL_SLOT), s.slots[o] + [s.clock];
      Inv(Moved(Rewritten(s, o, slot, DomainOf(s, o), slots), w, Looking(IntentOf(o, op, DomainOf(s, o)))))
  {
    hide Stages, OnePerAccount, Workers, Calls, Budgeted;
    var op, domain := s.ops[o], DomainOf(s, o);
    var slot, slots := op.(pollCount := op.pollCount + 1, nextPollAt := s.clock + POLL_SLOT), s.slots[o] + [s.clock];
    SlotKeepsBudget(op, s.slots[o], s.clock);
    StagesOf(s, o);
    assert Outstanding(s, o);
    RewriteKeeps(s, o, slot, domain, slots);
    RewriteRows(s, o, slot, domain, slots);
    var t := Rewritten(s, o, slot, domain, slots);
    MayLook(t, w, o);
    MoveKeeps(t, w, Looking(IntentOf(o, op, domain)));
  }

  lemma StagesOf(s: State, o: Id)
    requires Inv(s) && o in s.ops
    ensures s.ops[o].claimedAt.Some? <==> AfterClaim(DomainOf(s, o).state)
    ensures DomainOf(s, o).registration.Some? <==> DomainOf(s, o).state == Registered
  {
  }

  lemma FreeAccount(s: State, o: Id)
    requires Inv(s) && o in s.ops && s.ops[o].claimedAt.None? && !Busy(s, o, Bound(s.ops[o]))
    ensures forall p | Outstanding(s, p) :: Bound(s.ops[p]) != Bound(s.ops[o])
  {
  }

  lemma ClaimKeeps(s: State, w: Id, o: Id, mode: Mode)
    requires Inv(s) && o in s.ops && s.ops[o].claimedAt.None? && !Busy(s, o, Bound(s.ops[o]))
    requires s.ops[o].pollCount < MAX_POLLS
    ensures var op, domain := s.ops[o], DomainOf(s, o);
      var slot := op.(pollCount := op.pollCount + 1, nextPollAt := s.clock + POLL_SLOT, claimedAt := Some(s.clock));
      Inv(Moved(Rewritten(s, o, slot, domain.(state := NeedsReconciliation), s.slots[o] + [s.clock]),
                w, Quoting(IntentOf(o, op, domain), mode)))
  {
    hide Stages, OnePerAccount, Workers, Calls, Budgeted, Busy;
    var op, domain := s.ops[o], DomainOf(s, o);
    var slot := op.(pollCount := op.pollCount + 1, nextPollAt := s.clock + POLL_SLOT, claimedAt := Some(s.clock));
    var claimed, slots := domain.(state := NeedsReconciliation), s.slots[o] + [s.clock];
    SlotKeepsBudget(op, s.slots[o], s.clock);
    StagesOf(s, o);
    FreeAccount(s, o);
    NoCallBeforeClaim(s, o);
    RewriteKeeps(s, o, slot, claimed, slots);
    RewriteRows(s, o, slot, claimed, slots);
    MoveKeeps(Rewritten(s, o, slot, claimed, slots), w, Quoting(IntentOf(o, op, domain), mode));
  }

  lemma PreparedKeeps(s: State, w: Id, o: Id, f: Facts, permissions: Permissions, seen: int)
    requires Inv(s) && seen <= s.clock
    ensures Inv(Prepared(s, w, o, f, permissions, seen, s.clock))
  {
    hide Budgets, Stages, OnePerAccount, Workers, Calls, Budgeted, Busy, Eligible, Rewritten, Moved, LiveReady;
    if o in s.ops {
      var op, domain := s.ops[o], DomainOf(s, o);
      if Admitted(op, domain, f, permissions, seen) {
        if op.claimedAt.Some? {
          PollKeeps(s, w, o);
        } else if SentBack(f, domain.customer) {
          SendBackKeeps(s, o);
        } else if MayClaim(s, o, f, domain.customer) {
          ClaimKeeps(s, w, o, f.mode);
        }
      }
    }
  }

  lemma SendBackKeeps(s: State, o: Id)
    requires Inv(s) && o in s.ops && s.ops[o].claimedAt.None?
    ensures Inv(Rewritten(s, o, s.ops[o], DomainOf(s, o).(state := AwaitingApproval), s.slots[o]))
  {
    hide OnePerAccount, Workers, Calls, Budgeted, Rewritten;
    StagesOf(s, o);
    RewriteKeeps(s, o, s.ops[o], DomainOf(s, o).(state := AwaitingApproval), s.slots[o]);
  }

  lemma SettledKeeps(s: State, intent: Intent, found: Option<Observation>, seen: int)
    requires Inv(s) && IsClaimed(s, intent.operation)
    ensures Inv(Settled(s, intent, found, seen, s.clock))
  {
    hide Stages, OnePerAccount, Workers, Calls, Rewritten, Matches;
    var o := intent.operation;
    var op, domain := s.ops[o], DomainOf(s, o);
    if !Terminal(domain.state) {
      StagesOf(s, o);
      assert Outstanding(s, o);
      assert Budgeted(op, s.slots[o], s.clock);
      RewriteKeeps(s, o, op.(nextPollAt := s.clock + Delay(op.pollCount)), Concluded(domain, found, intent, seen), s.slots[o]);
    }
  }

  lemma OrderedKeeps(s: State, d: Id, row: Domain)
    requires Inv(s)
    ensures Inv(Ordered(s, d, row))
  {
    hide Stages, OnePerAccount, Workers, Calls;
    OrderedKeepsRows(s, d, row);
    OrderedKeepsStages(s, d, row);
    OrderedKeepsWorkers(s, d, row);
  }

  lemma OrderedKeepsRows(s: State, d: Id, row: Domain)
    requires Inv(s)
    ensures var t := Ordered(s, d, row); RowsMatch(t) && Budgets(t) && OnePerAccount(t)
    ensures forall o | o in s.ops :: o in Ordered(s, d, row).ops && DomainOf(Ordered(s, d, row), o) == DomainOf(s, o)
  {
    hide Stages, Workers, Calls, Budgeted, Terminal;
    var t := Ordered(s, d, row);
    assert forall o :: Outstanding(t, o) == Outstanding(s, o);
  }

  lemma OrderedKeepsStages(s: State, d: Id, row: Domain)
    requires Inv(s)
    ensures var t := Ordered(s, d, row); RowsMatch(t) && Stages(t)
  {
    hide Budgets, Workers, Calls, OnePerAccount, RowsMatch;
    var t := Ordered(s, d, row);
    OrderedKeepsRows(s, d, row);
    forall e | e in t.domains && AfterClaim(t.domains[e].state) ensures HasOperation(t, e) {
      assert HasOperation(s, e);
    }
  }

  lemma OrderedKeepsWorkers(s: State, d: Id, row: Domain)
    requires Inv(s)
    ensures var t := Ordered(s, d, row); RowsMatch(t) && Workers(t) && Calls(t)
  {
    hide Budgets, Stages, OnePerAccount, RowsMatch;
    var t := Ordered(s, d, row);
    OrderedKeepsRows(s, d, row);
    forall w ensures Working(t, w) {
      assert Working(s, w);
    }
  }

  /** The first approval: a new operation for a domain that has none. */
  ghost predicate Fresh(s: State, o: Id, row: Operation, domain: Domain)
    requires RowsMatch(s)
  {
    && o !in s.ops && row.domain in s.domains && !HasOperation(s, row.domain)
    && row.claimedAt.None? && row.pollCount == 0 && row.ceiling > 0
    && domain.state == Pending && domain.registration.None?
  }

  lemma FreshRows(s: State, o: Id, row: Operation, domain: Domain)
    requires Inv(s) && Fresh(s, o, row, domain)
    ensures var t := Rewritten(s, o, row, domain, []);
      && RowsMatch(t)
      && (forall p | p in s.ops :: p != o && p in t.ops && t.ops[p] == s.ops[p] && DomainOf(t, p) == DomainOf(s, p))
      && t.ops.Keys == s.ops.Keys + {o} && DomainOf(t, o) == domain && t.ops[o] == row
  {
    hide AfterClaim, Terminal, Budgets, Stages, OnePerAccount, Workers, Calls;
  }

  lemma FreshKeepsBudgets(s: State, o: Id, row: Operation, domain: Domain)
    requires Inv(s) && Fresh(s, o, row, domain)
    ensures var t := Rewritten(s, o, row, domain, []); RowsMatch(t) && Budgets(t)
  {
    hide Stages, OnePerAccount, Workers, Calls, HasOperation;
    FreshRows(s, o, row, domain);
  }

  lemma FreshKeeps(s: State, o: Id, row: Operation, domain: Domain)
    requires Inv(s) && Fresh(s, o, row, domain)
    ensures Inv(Rewritten(s, o, row, domain, []))
  {
    hide Budgets, RowsMatch, Stages, OnePerAccount, Workers, Calls, Fresh, Rewritten;
    FreshKeepsBudgets(s, o, row, domain);
    FreshKeepsStages(s, o, row, domain);
    FreshKeepsWorkers(s, o, row, domain);
  }

  lemma FreshKeepsStages(s: State, o: Id, row: Operation, domain: Domain)
    requires Inv(s) && Fresh(s, o, row, domain)
    ensures var t := Rewritten(s, o, row, domain, []); RowsMatch(t) && Stages(t) && OnePerAccount(t)
  {
    hide Budgets, RowsMatch, Workers, Calls;
    var t := Rewritten(s, o, row, domain, []);
    FreshRows(s, o, row, domain);
    assert forall p :: Outstanding(t, p) == Outstanding(s, p);
    forall e | e in t.domains && AfterClaim(t.domains[e].state) ensures HasOperation(t, e) {
      var p :| p in s.ops && s.ops[p].domain == e;
      assert t.ops[p].domain == e;
    }
  }

  lemma FreshKeepsWorkers(s: State, o: Id, row: Operation, domain: Domain)
    requires Inv(s) && Fresh(s, o, row, domain)
    ensures var t := Rewritten(s, o, row, domain, []); RowsMatch(t) && Workers(t) && Calls(t)
  {
    hide Budgets, RowsMatch, Stages, OnePerAccount;
    var t := Rewritten(s, o, row, domain, []);
    FreshRows(s, o, row, domain);
    forall w ensures Working(t, w) {
      assert Working(s, w);
    }
  }

  lemma ApprovedKeeps(s: State, o: Id, row: Operation)
    requires Inv(s)
    ensures Inv(Approved(s, o, row))
  {
    hide Budgets, OnePerAccount, Workers, Calls, Rewritten;
    if row.domain in s.domains && row.ceiling > 0 {
      var domain := s.domains[row.domain];
      var approved := domain.(
        state := Pending, executionAccount := if row.selected.Some? then row.selected else domain.executionAccount);
      if o in s.ops {
        if s.ops[o].claimedAt.None? && s.ops[o].domain == row.domain && Bound(s.ops[o]) == Bound(row) {
          StagesOf(s, o);
          assert Budgeted(s.ops[o], s.slots[o], s.clock) by { BudgetOf(s, o); }
          RewriteKeeps(s, o, s.ops[o], approved, s.slots[o]);
        }
      } else if !HasOperation(s, row.domain) && row.claimedAt.None? && row.pollCount == 0 {
        assert !AfterClaim(domain.state);
        FreshKeeps(s, o, row, approved);
      }
    }
  }

  lemma BudgetOf(s: State, o: Id)
    requires Inv(s) && o in s.ops
    ensures Budgeted(s.ops[o], s.slots[o], s.clock)
  {
  }

  lemma CalledKeeps(s: State, w: Id)
    requires Inv(s) && w in s.workers && s.workers[w].Registering?
    ensures Inv(Apply(s, Register(w), s.clock, s.clock))
  {
    hide Budgets, Stages, OnePerAccount;
    var t := Apply(s, Register(w), s.clock, s.clock);
    var o := s.workers[w].intent.operation;
    SameRows(s, t);
    assert Working(s, w);
    assert forall p | Called(t, p) :: p == o || Called(s, p);
    forall v ensures Working(t, v) {
      assert Working(s, v);
    }
    forall i | 0 <= i < |s.calls| ensures s.calls[i].operation != o {
      assert s.calls[i].operation == o ==> Called(s, o);
    }
  }

  /** A worker past its quote keeps the intent it was given. */
  lemma NextStage(s: State, w: Id, pc: Pc)
    requires Inv(s) && w in s.workers && pc.intent == s.workers[w].intent
    requires Dispatching(pc) ==> Dispatching(s.workers[w])
    requires pc.Preparing? || pc.Registering? ==> 0 < pc.cost <= pc.intent.ceiling
    ensures Inv(Moved(s, w, pc))
  {
    hide Budgets, Stages, OnePerAccount, Calls;
    assert Working(s, w);
    MoveKeeps(s, w, pc);
  }

  lemma ApplyKeeps(s: State, e: Event, seen: int)
    requires Inv(s) && seen <= s.clock
    ensures Inv(Apply(s, e, seen, s.clock))
  {
    hide RowsMatch, Budgets, Stages, OnePerAccount, Workers, Calls, Ordered, Approved, Prepared, Settled, Moved, Gone;
    match e {
      case Order(d, row) => OrderedKeeps(s, d, row);
      case Approve(o, row) => ApprovedKeeps(s, o, row);
      case Prepare(w, o, f, permissions) => PreparedKeeps(s, w, o, f, permissions, seen);
      case Register(w) => if w in s.workers && s.workers[w].Registering? { CalledKeeps(s, w); }
      case Stop(w) => GoneKeeps(s, w);
      case Settle(w) =>
        if w in s.workers && s.workers[w].Settling? {
          WorkerIsClaimed(s, w);
          SettledKeeps(s, s.workers[w].intent, s.workers[w].observation, seen);
          GoneKeeps(Settled(s, s.workers[w].intent, s.workers[w].observation, seen, s.clock), w);
        }
      case QuoteAnswer(w, quote, existing) =>
        if w in s.workers && s.workers[w].Quoting? {
          GoneKeeps(s, w);
          NextStage(s, w, Looking(s.workers[w].intent));
          if quote.Answered? && existing.Answered?
             && !Conflict(quote.value, existing.value, s.workers[w].mode, s.workers[w].intent.ceiling) {
            NextStage(s, w, Preparing(s.workers[w].intent, quote.value.cost));
          }
        }
      case ContactsAnswer(w, ok) =>
        if w in s.workers && s.workers[w].Preparing? {
          WorkerIsClaimed(s, w);
          NextStage(s, w, Looking(s.workers[w].intent));
          NextStage(s, w, Registering(s.workers[w].intent, s.workers[w].cost));
        }
      case LookupAnswer(w, answer) =>
        if w in s.workers && s.workers[w].Looking? {
          GoneKeeps(s, w);
          if answer.Answered? { NextStage(s, w, Settling(s.workers[w].intent, answer.value)); }
        }
    }
  }

  lemma WorkerIsClaimed(s: State, w: Id)
    requires Inv(s) && w in s.workers
    ensures var pc := s.workers[w];
      && IsClaimed(s, pc.intent.operation)
      && pc.intent == IntentOf(pc.intent.operation, s.ops[pc.intent.operation], DomainOf(s, pc.intent.operation))
      && (pc.Preparing? || pc.Registering? ==> 0 < pc.cost <= pc.intent.ceiling)
  {
    assert Working(s, w);
  }

  lemma StepKeeps(s: State, t: Timed)
    requires Inv(s)
    ensures Inv(Step(s, t))
  {
    hide Inv, Apply;
    if s.clock <= t.seen <= t.now {
      TickKeeps(s, t.now);
      ApplyKeeps(s.(clock := t.now), t.event, t.seen);
    }
  }

  lemma {:induction false} RunKeeps(s: State, events: seq<Timed>)
    requires Inv(s)
    ensures Inv(Run(s, events))
    decreases |events|
  {
    hide Inv, Step;
    if events != [] {
      StepKeeps(s, events[0]);
      RunKeeps(Step(s, events[0]), events[1..]);
    }
  }

  // ----- what holds in every run --------------------------------------------------------------

  lemma Reachable(clock: int, events: seq<Timed>)
    ensures Inv(Run(Initial(clock), events))
  {
    RunKeeps(Initial(clock), events);
  }

  /** registerOnce is entered at most once per operation, for a claimed one and at an approved cost. */
  lemma OneCallPerOperation(clock: int, events: seq<Timed>)
    ensures var s := Run(Initial(clock), events);
      && (forall i, j | 0 <= i < j < |s.calls| :: s.calls[i].operation != s.calls[j].operation)
      && (forall i | 0 <= i < |s.calls| ::
            IsClaimed(s, s.calls[i].operation) && 0 < s.calls[i].cost <= s.ops[s.calls[i].operation].ceiling)
  {
    hide Run;
    Reachable(clock, events);
  }

  /** When it is entered, the claim was committed by an earlier step and nobody entered it before. */
  lemma CallsFollowClaims(clock: int, events: seq<Timed>, t: Timed)
    ensures var s := Run(Initial(clock), events); var after := Step(s, t);
      after.calls != s.calls ==>
        && t.event.Register? && t.event.worker in s.workers && s.workers[t.event.worker].Registering?
        && var o := s.workers[t.event.worker].intent.operation;
           && IsClaimed(s, o) && !Called(s, o)
           && after.calls == s.calls + [Call(o, s.workers[t.event.worker].cost)]
  {
    hide Run, RowsMatch, Budgets, Stages, OnePerAccount, Calls, Ordered, Approved, Prepared, Settled;
    var s := Run(Initial(clock), events);
    Reachable(clock, events);
    if !t.event.Register? {
      CallsElsewhere(s.(clock := t.now), t.event, t.seen, t.now);
    } else if t.event.worker in s.workers {
      assert Working(s, t.event.worker);
    }
  }

  lemma CallsElsewhere(s: State, e: Event, seen: int, now: int)
    requires !e.Register?
    ensures Apply(s, e, seen, now).calls == s.calls
  {
    hide Admitted, Eligible, MayClaim, Conflict, Verdict, HasOperation;
  }

  /** No account ever has two claims whose domains are still open. */
  lemma OneOpenClaimPerAccount(clock: int, events: seq<Timed>, o: Id, p: Id)
    requires var s := Run(Initial(clock), events);
      && IsClaimed(s, o) && IsClaimed(s, p) && Bound(s.ops[o]) == Bound(s.ops[p]) && o != p
    ensures var s := Run(Initial(clock), events);
      && s.ops[o].domain in s.domains && s.ops[p].domain in s.domains
      && (Terminal(s.domains[s.ops[o].domain].state) || Terminal(s.domains[s.ops[p].domain].state))
  {
    hide Run, Budgets, Stages, Workers, Calls;
    Reachable(clock, events);
    var s := Run(Initial(clock), events);
    assert !(Outstanding(s, o) && Outstanding(s, p));
  }

  /** The claim and the read slots of an operation: at most ten, counted by pollCount, and spread in time. */
  lemma PollsAreBudgeted(clock: int, events: seq<Timed>, o: Id)
    requires o in Run(Initial(clock), events).ops
    ensures var s := Run(Initial(clock), events);
      o in s.slots && |s.slots[o]| == s.ops[o].pollCount <= MAX_POLLS && Spaced(s.slots[o])
      && (s.ops[o].claimedAt.Some? <==> s.slots[o] != [])
      && (s.slots[o] != [] ==> s.ops[o].claimedAt == Some(s.slots[o][0]))
  {
    hide Run, Stages, Workers, Calls, OnePerAccount;
    Reachable(clock, events);
    BudgetOf(Run(Initial(clock), events), o);
  }

  /** One step leaves a domain in a final state, and everything recorded about it, alone. */
  lemma FinalStateStaysOnce(s: State, t: Timed, d: Id)
    requires Inv(s) && d in s.domains && Terminal(s.domains[d].state)
    ensures d in Step(s, t).domains && Step(s, t).domains[d] == s.domains[d]
  {
    hide Budgets, OnePerAccount, Workers, Calls, Admitted, Eligible, MayClaim, Conflict, Verdict;
    var o :| o in s.ops && s.ops[o].domain == d;
    StagesOf(s, o);
    assert s.ops[o].claimedAt.Some?;
    assert HasOperation(s, d);
  }

  /** REGISTERED and FAILED are never left, and a recorded registration never changes. */
  lemma {:induction false} FinalStatesStay(s: State, events: seq<Timed>, d: Id)
    requires Inv(s) && d in s.domains && Terminal(s.domains[d].state)
    ensures d in Run(s, events).domains && Run(s, events).domains[d] == s.domains[d]
    decreases |events|
  {
    hide Inv, Step, Terminal;
    if events != [] {
      FinalStateStaysOnce(s, events[0], d);
      StepKeeps(s, events[0]);
      FinalStatesStay(Step(s, events[0]), events[1..], d);
    }
  }

  /** A claim, too, is kept for good. */
  lemma {:induction false} ClaimsStay(s: State, events: seq<Timed>, o: Id)
    requires Inv(s) && IsClaimed(s, o)
    ensures IsClaimed(Run(s, events), o) && Run(s, events).ops[o].claimedAt == s.ops[o].claimedAt
    ensures Bound(Run(s, events).ops[o]) == Bound(s.ops[o])
    decreases |events|
  {
    hide Inv, Step;
    if events != [] {
      ClaimStaysOnce(s, events[0], o);
      StepKeeps(s, events[0]);
      ClaimsStay(Step(s, events[0]), events[1..], o);
    }
  }

  lemma ClaimStaysOnce(s: State, t: Timed, o: Id)
    requires Inv(s) && IsClaimed(s, o)
    ensures IsClaimed(Step(s, t), o) && Step(s, t).ops[o].claimedAt == s.ops[o].claimedAt
    ensures Bound(Step(s, t).ops[o]) == Bound(s.ops[o])
  {
    hide Budgets, OnePerAccount, Workers, Calls, Admitted, Eligible, MayClaim, Conflict, Verdict, Stages, HasOperation;
  }

  /** The observation a domain's registration rests on. */
  ghost predicate Confirms(s: State, w: Id, seen: int, d: Id, registration: Registration) {
    && w in s.workers && s.workers[w].Settling? && s.workers[w].observation.Some?
    && var intent, found := s.workers[w].intent, s.workers[w].observation.value;
       && intent.operation in s.ops && s.ops[intent.operation].domain == d && d in s.domains
       && found.state == Active && found.operation == intent.operation
       && found.account == Bound(s.ops[intent.operation])
       && found.customer == s.domains[d].customer && found.name == s.domains[d].name
       && found.expiresAt == Some(registration.expiresAt) && registration.expiresAt > seen
       && registration == Registration(found.orderId, registration.expiresAt, found.verified)
  }

  /**
   A domain becomes REGISTERED only by a settlement whose observation is Active, names this operation,
   account, customer and domain, and expires in the future; and just that is recorded.
   */
  lemma RegisteredWhenConfirmed(s: State, t: Timed, d: Id)
    requires Inv(s) && d in Step(s, t).domains && Step(s, t).domains[d].state == Registered
    requires !(d in s.domains && s.domains[d].state == Registered)
    ensures t.event.Settle? && Step(s, t).domains[d].registration.Some?
    ensures Confirms(s, t.event.worker, t.seen, d, Step(s, t).domains[d].registration.value)
  {
    hide Budgets, OnePerAccount, Calls, Admitted, Eligible, MayClaim, Conflict, Stages, HasOperation, Working;
    if t.event.Settle? && t.event.worker in s.workers && s.workers[t.event.worker].Settling? {
      WorkerIsClaimed(s, t.event.worker);
    } else {
      NoVerdictElsewhere(s.(clock := t.now), t.event, t.seen, t.now, d);
    }
  }

  lemma NoVerdictElsewhere(s: State, e: Event, seen: int, now: int, d: Id)
    requires d in Apply(s, e, seen, now).domains && Apply(s, e, seen, now).domains[d].state == Registered
    requires !(e.Settle? && e.worker in s.workers && s.workers[e.worker].Settling?)
    ensures d in s.domains && s.domains[d].state == Registered
  {
    hide Admitted, Eligible, MayClaim, Conflict, Verdict, HasOperation;
  }
}
