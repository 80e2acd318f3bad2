/**
 What one dispatch does to the events, row by row: which it claims, and what becomes of each.  The
 conditions, the delays and the rows are spelled out, so they say what the protocol's own predicates must
 come to.
 */
module OutboxDecisions {
  import opened CodeUnits
  import opened Options
  import opened Outbox
  import opened OutboxDispatcher

  // ----- which events are claimed -------------------------------------------------------------

  /** Pending and due, or PROCESSING under a lock that has run out. */
  ghost predicate Waits(row: Row, cutoff: int, now: int) {
    || (row.status == Pending && now >= row.availableAt)
    || (row.status == Processing && row.lockedAt != None && cutoff > row.lockedAt.value)
  }

  function Taken(row: Row, worker: Id, now: int): Row {
    Row(Processing, row.attempts + 1, row.availableAt, row.createdAt, Some(now), Some(worker), row.routed)
  }

  /** A dispatch claims only events that wait, and every unlocked one of them unless its batch is full. */
  lemma ClaimsWhoWaits(d: Id, rows: map<Text, Row>, trace: seq<Event>, cutoff: int, now: int, limit: nat,
                       locked: set<Text>, names: Id -> Id, answers: Text -> Answers)
    requires Dispatches(d, rows, trace, cutoff, now, limit, locked, names, answers)
    ensures |trace| >= 2 && trace[0].Claim? && trace[0].dispatcher == d && trace[0].now == now && |trace[0].ids| <= limit
    ensures forall id | id in trace[0].ids :: id in rows && id !in locked && Waits(rows[id], cutoff, now)
    ensures forall id | id in rows && id !in locked && Waits(rows[id], cutoff, now) && |trace[0].ids| < limit ::
              id in trace[0].ids
    ensures forall i, j | 0 <= i < j < |trace[0].ids| :: trace[0].ids[i] != trace[0].ids[j]
  {
    hide Snapshots, ClaimAll, BatchSteps;
    var ids := trace[0].ids;
    assert forall id | id in rows :: Waits(rows[id], cutoff, now) <==> Claimable(rows[id], cutoff, now);
    forall id | id in ids ensures id in rows && id !in locked && Claimable(rows[id], cutoff, now) {
      var i :| 0 <= i < |ids| && ids[i] == id;
    }
  }

  /** With a full batch, whoever is left out is due no earlier than anyone claimed; among the same time, created no earlier. */
  lemma ClaimsTheEarliest(d: Id, rows: map<Text, Row>, trace: seq<Event>, cutoff: int, now: int, limit: nat,
                          locked: set<Text>, names: Id -> Id, answers: Text -> Answers, claimed: Text, left: Text)
    requires Dispatches(d, rows, trace, cutoff, now, limit, locked, names, answers)
    requires claimed in trace[0].ids && left in rows && left !in locked && left !in trace[0].ids
    requires Waits(rows[left], cutoff, now)
    ensures |trace[0].ids| == limit && claimed in rows
    ensures rows[claimed].availableAt <= rows[left].availableAt
    ensures rows[claimed].availableAt == rows[left].availableAt ==> rows[claimed].createdAt <= rows[left].createdAt
  {
    hide Snapshots, ClaimAll, BatchSteps, MayClaim;
    var ids := trace[0].ids;
    var i :| 0 <= i < |ids| && ids[i] == claimed;
    assert Claimable(rows[left], cutoff, now);
  }

  // ----- what becomes of one event ------------------------------------------------------------

  /** The delay before the next attempt, by the number of attempts made. */
  function Delay(attempts: nat): int {
    if attempts <= 1 then 2_000
    else if attempts == 2 then 4_000
    else if attempts == 3 then 8_000
    else if attempts == 4 then 16_000
    else if attempts == 5 then 32_000
    else if attempts == 6 then 64_000
    else if attempts == 7 then 128_000
    else if attempts == 8 then 256_000
    else 300_000
  }

  lemma {:induction false} Doublings(n: nat)
    ensures Pow2(n) == if n == 0 then 1 else 2 * Pow2(n - 1)
    ensures n >= 8 ==> Pow2(n) >= 256
  {
    if n > 8 {
      Doublings(n - 1);
    } else if n == 8 {
      assert Pow2(2) == 4;
      assert Pow2(4) == 16;
      assert Pow2(6) == 64;
    }
  }

  lemma BackoffIsDelay(attempts: nat)
    ensures Backoff(attempts) == Delay(attempts)
  {
    hide Pow2;
    Doublings(0);
    Doublings(1);
    Doublings(2);
    Doublings(3);
    Doublings(4);
    Doublings(5);
    Doublings(6);
    Doublings(7);
    if attempts >= 9 { Doublings(attempts - 1); }
  }

  function Unlocked(row: Row, status: Status, availableAt: int): Row {
    Row(status, row.attempts, availableAt, row.createdAt, None, None, row.routed)
  }

  /** The row of a claimed event after its turn. */
  function Outcome(row: Row, a: Answers): Row {
    if !row.routed then if a.marked then Unlocked(row, Failed, row.availableAt) else row
    else if a.added == Stored && a.marked then Unlocked(row, Published, row.availableAt)
    else if !a.withdrawn then row
    else Unlocked(row, if row.attempts >= 5 then Failed else Pending, a.failedAt + Delay(row.attempts))
  }

  /** The job of an event reaches the queue, whether or not the answer comes back. */
  predicate Queued(routed: bool, a: Answers) {
    routed && (a.added == Stored || a.added == Lost(true))
  }

  /** The last write about the event was stored. */
  predicate Settles(routed: bool, a: Answers) {
    if !routed then a.marked else (a.added == Stored && a.marked) || a.withdrawn
  }

  function NextEvent(s: State, d: Id, batch: seq<Snapshot>): map<Id, Stage> {
    if |batch| <= 1 then s.dispatchers - {d} else s.dispatchers[d := Holding(batch[1..])]
  }

  /** The event is still under the dispatcher's name, with the count of attempts that was read. */
  ghost predicate Owned(s: State, event: Snapshot, worker: Id) {
    && event.id in s.rows
    && var row := s.rows[event.id];
       row.status == Processing && row.lockedBy == Some(worker) && row.attempts == event.attempts
  }

  ghost predicate InStage(s: State, d: Id, stage: Stage) {
    d in s.dispatchers && s.dispatchers[d] == stage
  }

  lemma RunOne(s: State, e: Event, name: Id -> Id)
    ensures Run(s, [e], name) == Step(s, e, name)
  {
    hide Step;
    assert [e][1..] == [];
  }

  lemma RunCons(s: State, e: Event, rest: seq<Event>, name: Id -> Id)
    ensures Run(s, [e] + rest, name) == Run(Step(s, e, name), rest, name)
  {
    hide Step;
    assert ([e] + rest)[1..] == rest;
  }

  lemma {:induction false} RunJoin(s: State, xs: seq<Event>, ys: seq<Event>, name: Id -> Id)
    ensures Run(s, xs + ys, name) == Run(Run(s, xs, name), ys, name)
    decreases |xs|
  {
    hide Step;
    if xs == [] {
      assert xs + ys == ys;
    } else {
      RunJoin(Step(s, xs[0], name), xs[1..], ys, name);
      assert (xs + ys)[1..] == xs[1..] + ys;
    }
  }

  lemma SettledRow(rows: map<Text, Row>, id: Text, worker: Id, status: Status, availableAt: Option<int>)
    requires id in rows && rows[id].status == Processing && rows[id].lockedBy == Some(worker)
    ensures Settled(rows, id, worker, status, availableAt)
         == rows[id := Unlocked(rows[id], status, if availableAt.Some? then availableAt.value else rows[id].availableAt)]
  {
  }

  /** The state after the last write about the first event of the batch. */
  function Closed(s: State, d: Id, batch: seq<Snapshot>, row: Row): State
    requires batch != []
  {
    s.(rows := s.rows[batch[0].id := row], dispatchers := NextEvent(s, d, batch))
  }

  lemma RetreatStep(s: State, d: Id, batch: seq<Snapshot>, now: int, name: Id -> Id)
    requires batch != [] && Owned(s, batch[0], name(d)) && InStage(s, d, Retreating(batch))
    ensures var row := s.rows[batch[0].id];
      Step(s, Retreat(d, now), name)
      == Closed(s, d, batch, Unlocked(row, if row.attempts >= 5 then Failed else Pending, now + Delay(row.attempts)))
  {
    hide Backoff, Settled, Delay;
    var attempts := batch[0].attempts;
    BackoffIsDelay(attempts);
    SettledRow(s.rows, batch[0].id, name(d), if attempts >= 5 then Failed else Pending, Some(now + Backoff(attempts)));
  }

  lemma MarkStep(s: State, d: Id, batch: seq<Snapshot>, name: Id -> Id)
    requires batch != [] && Owned(s, batch[0], name(d)) && InStage(s, d, Marking(batch))
    ensures var row := s.rows[batch[0].id];
      && Step(s, Mark(d, true), name) == Closed(s, d, batch, Unlocked(row, Published, row.availableAt))
      && Step(s, Mark(d, false), name) == s.(dispatchers := s.dispatchers[d := Retreating(batch)])
  {
    hide Settled;
    SettledRow(s.rows, batch[0].id, name(d), Published, None);
  }

  lemma RouteStep(s: State, d: Id, batch: seq<Snapshot>, added: Added, name: Id -> Id)
    requires batch != [] && Owned(s, batch[0], name(d)) && InStage(s, d, Holding(batch))
    ensures var id := batch[0].id; var row := s.rows[id]; var t := Step(s, Event.Route(d, added), name);
      && (!row.routed ==> t == Closed(s, d, batch, Unlocked(row, Failed, row.availableAt)))
      && (row.routed && added == Stored ==>
            t == s.(dispatchers := s.dispatchers[d := Marking(batch)], jobs := s.jobs + {JobId(id)}))
      && (row.routed && added != Stored ==>
            t == s.(dispatchers := s.dispatchers[d := Retreating(batch)],
                    jobs := if added == Lost(true) then s.jobs + {JobId(id)} else s.jobs))
  {
    hide Settled, JobId;
    SettledRow(s.rows, batch[0].id, name(d), Failed, None);
  }

  lemma StopStep(s: State, d: Id, name: Id -> Id)
    ensures Step(s, Stop(d), name) == s.(dispatchers := s.dispatchers - {d})
  {
  }

  lemma RetreatRun(s: State, d: Id, batch: seq<Snapshot>, a: Answers, name: Id -> Id)
    requires batch != [] && Owned(s, batch[0], name(d)) && InStage(s, d, Retreating(batch))
    ensures var row := s.rows[batch[0].id];
      Run(s, RetreatSteps(d, a), name)
      == if a.withdrawn then
           Closed(s, d, batch, Unlocked(row, if row.attempts >= 5 then Failed else Pending, a.failedAt + Delay(row.attempts)))
         else s.(dispatchers := s.dispatchers - {d})
  {
    hide Run, Step, Delay, Closed, Owned;
    if a.withdrawn {
      RunOne(s, Retreat(d, a.failedAt), name);
      RetreatStep(s, d, batch, a.failedAt, name);
    } else {
      RunOne(s, Stop(d), name);
      StopStep(s, d, name);
    }
  }

  lemma MarkRun(s: State, d: Id, batch: seq<Snapshot>, a: Answers, name: Id -> Id)
    requires batch != [] && Owned(s, batch[0], name(d)) && InStage(s, d, Marking(batch))
    ensures var row := s.rows[batch[0].id];
      Run(s, MarkSteps(d, a), name)
      == if a.marked then Closed(s, d, batch, Unlocked(row, Published, row.availableAt))
         else if a.withdrawn then
           Closed(s, d, batch, Unlocked(row, if row.attempts >= 5 then Failed else Pending, a.failedAt + Delay(row.attempts)))
         else s.(dispatchers := s.dispatchers - {d})
  {
    hide Run, Step, Delay;
    MarkStep(s, d, batch, name);
    if a.marked {
      RunOne(s, Mark(d, true), name);
      assert [Mark(d, true)] + [] == [Mark(d, true)];
    } else {
      RunCons(s, Mark(d, false), RetreatSteps(d, a), name);
      var u := s.(dispatchers := s.dispatchers[d := Retreating(batch)]);
      RetreatRun(u, d, batch, a, name);
      SameNext(s, u, d, batch);
    }
  }

  lemma SameNext(s: State, u: State, d: Id, batch: seq<Snapshot>)
    requires u.dispatchers.Keys == s.dispatchers.Keys + {d}
    requires forall w | w in s.dispatchers && w != d :: u.dispatchers[w] == s.dispatchers[w]
    ensures NextEvent(u, d, batch) == NextEvent(s, d, batch) && u.dispatchers - {d} == s.dispatchers - {d}
  {
  }

  /** The state after all steps about the first event of the batch. */
  function Turned(s: State, d: Id, batch: seq<Snapshot>, a: Answers): State
    requires batch != [] && batch[0].id in s.rows
  {
    var id := batch[0].id;
    var row := s.rows[id];
    s.(rows := s.rows[id := Outcome(row, a)],
       jobs := if Queued(row.routed, a) then s.jobs + {JobId(id)} else s.jobs,
       dispatchers := if Settles(row.routed, a) then NextEvent(s, d, batch) else s.dispatchers - {d})
  }

  lemma EventDecides(s: State, d: Id, batch: seq<Snapshot>, a: Answers, name: Id -> Id)
    requires batch != [] && Owned(s, batch[0], name(d)) && InStage(s, d, Holding(batch))
    ensures Run(s, EventSteps(d, s.rows[batch[0].id].routed, a), name) == Turned(s, d, batch, a)
  {
    hide Run, Step, Delay, JobId;
    var id := batch[0].id;
    var row := s.rows[id];
    assert s.rows[id := row] == s.rows;
    RouteStep(s, d, batch, a.added, name);
    if !row.routed {
      RunOne(s, Event.Route(d, a.added), name);
      RunOne(s, Stop(d), name);
      StopStep(s, d, name);
    } else {
      var u := Step(s, Event.Route(d, a.added), name);
      SameNext(s, u, d, batch);
      if a.added.Stored? {
        RunCons(s, Event.Route(d, a.added), MarkSteps(d, a), name);
        MarkRun(u, d, batch, a, name);
      } else {
        RunCons(s, Event.Route(d, a.added), RetreatSteps(d, a), name);
        RetreatRun(u, d, batch, a, name);
      }
    }
  }

  // ----- what becomes of a batch --------------------------------------------------------------

  /** Something could be written about every event before the k-th, so its turn comes. */
  ghost predicate TurnComes(rows: map<Text, Row>, ids: seq<Text>, answers: Text -> Answers, k: nat) {
    forall j | 0 <= j < k && j < |ids| :: ids[j] in rows && Settles(rows[ids[j]].routed, answers(ids[j]))
  }

  function Ids(batch: seq<Snapshot>): (ids: seq<Text>)
    ensures |ids| == |batch| && forall i | 0 <= i < |ids| :: ids[i] == batch[i].id
  {
    seq(|batch|, i requires 0 <= i < |batch| => batch[i].id)
  }

  /** The rows after the turns of a batch. */
  ghost predicate RowsTurned(before: map<Text, Row>, after: map<Text, Row>, ids: seq<Text>, answers: Text -> Answers) {
    && after.Keys == before.Keys
    && (forall k | 0 <= k < |ids| && ids[k] in before ::
          after[ids[k]] == if TurnComes(before, ids, answers, k) then Outcome(before[ids[k]], answers(ids[k]))
                           else before[ids[k]])
    && (forall id | id in before && id !in ids :: after[id] == before[id])
  }

  /** The k-th event adds its job to the queue. */
  ghost predicate Adds(rows: map<Text, Row>, ids: seq<Text>, answers: Text -> Answers, k: nat) {
    k < |ids| && ids[k] in rows && TurnComes(rows, ids, answers, k) && Queued(rows[ids[k]].routed, answers(ids[k]))
  }

  /** The queue after the turns of a batch. */
  ghost predicate JobsTurned(rows: map<Text, Row>, before: set<Text>, after: set<Text>, ids: seq<Text>, answers: Text -> Answers) {
    && (forall job | job in before :: job in after)
    && (forall k | 0 <= k < |ids| && Adds(rows, ids, answers, k) :: JobId(ids[k]) in after)
    && (forall job | job in after && job !in before ::
          exists k | 0 <= k < |ids| :: Adds(rows, ids, answers, k) && job == JobId(ids[k]))
  }

  /** What the turns of a batch made of the rows and the queue. */
  ghost predicate TurnsTaken(s: State, t: State, ids: seq<Text>, answers: Text -> Answers) {
    && t.claims == s.claims && RowsTurned(s.rows, t.rows, ids, answers)
    && JobsTurned(s.rows, s.jobs, t.jobs, ids, answers)
  }

  ghost predicate AllOwned(s: State, batch: seq<Snapshot>, worker: Id) {
    && (forall i | 0 <= i < |batch| :: Owned(s, batch[i], worker))
    && (forall i, j | 0 <= i < j < |batch| :: batch[i].id != batch[j].id)
  }

  lemma NoTurns(s: State, answers: Text -> Answers)
    ensures TurnsTaken(s, s, [], answers)
  {
  }

  lemma TurnedOwns(s: State, d: Id, batch: seq<Snapshot>, a: Answers, name: Id -> Id)
    requires batch != [] && AllOwned(s, batch, name(d))
    ensures var u := Turned(s, d, batch, a);
      AllOwned(u, batch[1..], name(d)) && u.rows.Keys == s.rows.Keys
      && u.rows[batch[0].id] == Outcome(s.rows[batch[0].id], a)
      && forall id | id in s.rows && id != batch[0].id :: u.rows[id] == s.rows[id]
  {
    hide Outcome, JobId, Queued, Settles;
    var u := Turned(s, d, batch, a);
    forall i | 0 <= i < |batch| - 1 ensures Owned(u, batch[1..][i], name(d)) {
      assert Owned(s, batch[i + 1], name(d)) && batch[0].id != batch[i + 1].id;
    }
  }

  lemma TurnsLater(before: map<Text, Row>, after: map<Text, Row>, batch: seq<Snapshot>, answers: Text -> Answers)
    requires batch != [] && batch[0].id in before && after.Keys == before.Keys
    requires forall i, j | 0 <= i < j < |batch| :: batch[i].id != batch[j].id
    requires forall id | id in before && id != batch[0].id :: after[id] == before[id]
    ensures var ids, rest := Ids(batch), Ids(batch[1..]);
      && (forall k | 0 <= k < |rest| :: rest[k] == ids[k + 1] && rest[k] != ids[0])
      && (forall k | 0 <= k < |rest| ::
            TurnComes(before, ids, answers, k + 1)
            <==> Settles(before[ids[0]].routed, answers(ids[0])) && TurnComes(after, rest, answers, k))
  {
    hide Settles, TurnComes;
    forall k | 0 <= k < |batch| - 1
      ensures TurnComes(before, Ids(batch), answers, k + 1)
        <==> Settles(before[batch[0].id].routed, answers(batch[0].id)) && TurnComes(after, Ids(batch[1..]), answers, k)
    {
      TurnLater(before, after, batch, answers, k + 1);
    }
  }

  /** The turns of the rest, after the first one, are the turns of all. */
  lemma RowsJoin(before: map<Text, Row>, after: map<Text, Row>, last: map<Text, Row>, batch: seq<Snapshot>,
                 answers: Text -> Answers)
    requires batch != [] && batch[0].id in before && after.Keys == before.Keys
    requires forall i, j | 0 <= i < j < |batch| :: batch[i].id != batch[j].id
    requires after[batch[0].id] == Outcome(before[batch[0].id], answers(batch[0].id))
    requires forall id | id in before && id != batch[0].id :: after[id] == before[id]
    requires if Settles(before[batch[0].id].routed, answers(batch[0].id)) then RowsTurned(after, last, Ids(batch[1..]), answers)
             else last == after
    ensures RowsTurned(before, last, Ids(batch), answers)
  {
    hide Outcome, Settles, TurnComes;
    var ids, rest := Ids(batch), Ids(batch[1..]);
    TurnsLater(before, after, batch, answers);
    FirstTurn(before, ids, answers);
    forall id | id in rest ensures id in ids && id != ids[0] {
      var k :| 0 <= k < |rest| && rest[k] == id;
    }
    forall k | 0 <= k < |ids| && ids[k] in before
      ensures last[ids[k]] == if TurnComes(before, ids, answers, k) then Outcome(before[ids[k]], answers(ids[k]))
                              else before[ids[k]]
    {
      if k > 0 {
        assert rest[k - 1] == ids[k];
        TurnLater(before, after, batch, answers, k);
      }
    }
    forall id | id in before && id !in ids ensures last[id] == before[id] && id !in rest {
      assert ids[0] in ids;
    }
  }

  lemma FirstTurn(rows: map<Text, Row>, ids: seq<Text>, answers: Text -> Answers)
    ensures TurnComes(rows, ids, answers, 0)
  {
  }

  lemma JobsJoin(before: map<Text, Row>, after: map<Text, Row>, jobs: set<Text>, added: set<Text>, last: set<Text>,
                 batch: seq<Snapshot>, answers: Text -> Answers)
    requires batch != [] && batch[0].id in before && after.Keys == before.Keys
    requires forall i, j | 0 <= i < j < |batch| :: batch[i].id != batch[j].id
    requires forall id | id in before && id != batch[0].id :: after[id] == before[id]
    requires var id := batch[0].id;
      added == if Queued(before[id].routed, answers(id)) then jobs + {JobId(id)} else jobs
    requires if Settles(before[batch[0].id].routed, answers(batch[0].id))
             then JobsTurned(after, added, last, Ids(batch[1..]), answers) else last == added
    ensures JobsTurned(before, jobs, last, Ids(batch), answers)
  {
    hide Settles, TurnComes, JobId, Queued;
    var ids, rest := Ids(batch), Ids(batch[1..]);
    TurnsLater(before, after, batch, answers);
    FirstTurn(before, ids, answers);
    forall k | 0 <= k < |rest|
      ensures Adds(before, ids, answers, k + 1)
          <==> Settles(before[ids[0]].routed, answers(ids[0])) && Adds(after, rest, answers, k)
    {
      TurnLater(before, after, batch, answers, k + 1);
      assert rest[k] == ids[k + 1] && rest[k] != ids[0];
    }
    forall k | 0 <= k < |ids| && Adds(before, ids, answers, k) ensures JobId(ids[k]) in last {
      if k > 0 {
        assert Adds(before, ids, answers, (k - 1) + 1);
        assert Adds(after, rest, answers, k - 1) && rest[k - 1] == ids[k];
      } else {
        assert ids[0] == batch[0].id && JobId(ids[0]) in added;
      }
    }
    forall job | job in last && job !in jobs
      ensures exists k | 0 <= k < |ids| :: Adds(before, ids, answers, k) && job == JobId(ids[k])
    {
      if job in added {
        assert Adds(before, ids, answers, 0);
      } else {
        var k :| 0 <= k < |rest| && Adds(after, rest, answers, k) && job == JobId(rest[k]);
        assert Adds(before, ids, answers, k + 1);
      }
    }
  }

  lemma TurnLater(before: map<Text, Row>, after: map<Text, Row>, batch: seq<Snapshot>, answers: Text -> Answers, k: nat)
    requires batch != [] && batch[0].id in before && after.Keys == before.Keys && 0 < k < |batch|
    requires forall i, j | 0 <= i < j < |batch| :: batch[i].id != batch[j].id
    requires forall id | id in before && id != batch[0].id :: after[id] == before[id]
    ensures TurnComes(before, Ids(batch), answers, k)
        <==> Settles(before[batch[0].id].routed, answers(batch[0].id)) && TurnComes(after, Ids(batch[1..]), answers, k - 1)
  {
    hide Settles;
    var ids, rest := Ids(batch), Ids(batch[1..]);
    assert forall j | 0 < j < |ids| :: ids[j] == rest[j - 1] && ids[j] != ids[0];
    if Settles(before[ids[0]].routed, answers(ids[0])) && TurnComes(after, rest, answers, k - 1) {
      forall j | 0 <= j < k ensures ids[j] in before && Settles(before[ids[j]].routed, answers(ids[j])) {
        if j > 0 { assert rest[j - 1] in after && Settles(after[rest[j - 1]].routed, answers(rest[j - 1])); }
      }
    }
    if TurnComes(before, ids, answers, k) {
      forall j | 0 <= j < k - 1 ensures rest[j] in after && Settles(after[rest[j]].routed, answers(rest[j])) {
        assert ids[j + 1] in before && Settles(before[ids[j + 1]].routed, answers(ids[j + 1]));
      }
    }
  }

  lemma {:induction false} BatchDecides(
    s: State, d: Id, rows: map<Text, Row>, batch: seq<Snapshot>, answers: Text -> Answers, name: Id -> Id)
    requires AllOwned(s, batch, name(d)) && SameRoutes(rows, s.rows)
    requires if batch == [] then d !in s.dispatchers else InStage(s, d, Holding(batch))
    ensures var t := Run(s, BatchSteps(d, rows, batch, answers), name);
      TurnsTaken(s, t, Ids(batch), answers) && t.dispatchers == s.dispatchers - {d}
    decreases |batch|
  {
    hide Run, EventSteps, Outcome, Queued, JobId, RowsTurned, JobsTurned;
    if batch == [] {
      NoEvents(s, name);
      NoTurns(s, answers);
      assert Ids(batch) == [];
    } else {
      var id := batch[0].id;
      var a := answers(id);
      assert Owned(s, batch[0], name(d));
      var routed := s.rows[id].routed;
      EventDecides(s, d, batch, a, name);
      TurnedOwns(s, d, batch, a, name);
      var u := Turned(s, d, batch, a);
      assert Continues(routed, a) <==> Settles(routed, a);
      if Settles(routed, a) {
        RunJoin(s, EventSteps(d, routed, a), BatchSteps(d, rows, batch[1..], answers), name);
        RoutesStay(rows, s.rows, u.rows, id, a);
        BatchDecides(u, d, rows, batch[1..], answers, name);
        NextOnward(s, u, d, batch);
        var t := Run(u, BatchSteps(d, rows, batch[1..], answers), name);
        RowsJoin(s.rows, u.rows, t.rows, batch, answers);
        JobsJoin(s.rows, u.rows, s.jobs, u.jobs, t.jobs, batch, answers);
      } else {
        assert EventSteps(d, routed, a) + [] == EventSteps(d, routed, a);
        RowsJoin(s.rows, u.rows, u.rows, batch, answers);
        JobsJoin(s.rows, u.rows, s.jobs, u.jobs, u.jobs, batch, answers);
      }
    }
  }

  lemma RoutesStay(rows: map<Text, Row>, before: map<Text, Row>, after: map<Text, Row>, id: Text, a: Answers)
    requires SameRoutes(rows, before) && id in before && after.Keys == before.Keys
    requires after[id] == Outcome(before[id], a) && forall k | k in before && k != id :: after[k] == before[k]
    ensures SameRoutes(rows, after)
  {
    hide Delay;
    assert after[id].routed == before[id].routed;
  }

  lemma NextOnward(s: State, u: State, d: Id, batch: seq<Snapshot>)
    requires batch != [] && InStage(s, d, Holding(batch)) && u.dispatchers == NextEvent(s, d, batch)
    ensures if batch[1..] == [] then d !in u.dispatchers else InStage(u, d, Holding(batch[1..]))
    ensures u.dispatchers - {d} == s.dispatchers - {d}
  {
  }

  // ----- the whole dispatch -------------------------------------------------------------------

  /** The rows after the claim. */
  ghost predicate ClaimedFrom(before: map<Text, Row>, after: map<Text, Row>, ids: seq<Text>, worker: Id, now: int) {
    && after.Keys == before.Keys
    && (forall id | id in before && id in ids :: after[id] == Taken(before[id], worker, now))
    && (forall id | id in before && id !in ids :: after[id] == before[id])
  }

  /**
   One dispatch, row by row: whoever it claims gets one more attempt under its name, is PUBLISHED, FAILED or
   put back when its turn comes, and stays claimed when the dispatch ended before; nobody else is touched,
   and just the jobs of the events that were queued are added.
   */
  lemma DispatchDecides(s: State, d: Id, trace: seq<Event>, cutoff: int, now: int, limit: nat, locked: set<Text>,
                        names: Id -> Id, answers: Text -> Answers) returns (claimed: map<Text, Row>)
    requires d !in s.dispatchers && Dispatches(d, s.rows, trace, cutoff, now, limit, locked, names, answers)
    ensures var t, ids := Run(s, trace, names), trace[0].ids;
      && ClaimedFrom(s.rows, claimed, ids, names(d), now)
      && RowsTurned(claimed, t.rows, ids, answers)
      && JobsTurned(claimed, s.jobs, t.jobs, ids, answers)
      && d !in t.dispatchers
  {
    hide Run, Snapshots, BatchSteps, Earliest, Claimable, RowsTurned, JobsTurned;
    var ids := trace[0].ids;
    claimed := ClaimAll(s.rows, ids, names(d), now);
    var batch := Snapshots(claimed, ids);
    var steps := BatchSteps(d, s.rows, batch, answers);
    ReadInOrder(claimed, ids);
    assert Ids(batch) == ids;
    var u := Loaded(s, d, ids, cutoff, now, names);
    assert trace == [Claim(d, ids, cutoff, now)] + ([Load(d)] + steps);
    RunCons(s, Claim(d, ids, cutoff, now), [Load(d)] + steps, names);
    RunCons(Step(s, Claim(d, ids, cutoff, now), names), Load(d), steps, names);
    ClaimOwns(s.rows, ids, names(d), now, u, batch);
    BatchDecides(u, d, s.rows, batch, answers, names);
  }

  lemma Loaded(s: State, d: Id, ids: seq<Text>, cutoff: int, now: int, name: Id -> Id) returns (u: State)
    requires d !in s.dispatchers && MayClaim(s.rows, ids, cutoff, now)
    ensures u == Step(Step(s, Claim(d, ids, cutoff, now), name), Load(d), name)
    ensures u.rows == ClaimAll(s.rows, ids, name(d), now) && u.jobs == s.jobs
    ensures var batch := Snapshots(u.rows, ids); if batch == [] then d !in u.dispatchers else InStage(u, d, Holding(batch))
  {
    hide Snapshots, MayClaim;
    u := Step(Step(s, Claim(d, ids, cutoff, now), name), Load(d), name);
  }

  lemma ClaimOwns(rows: map<Text, Row>, ids: seq<Text>, worker: Id, now: int, u: State, batch: seq<Snapshot>)
    requires forall i | 0 <= i < |ids| :: ids[i] in rows
    requires forall i, j | 0 <= i < j < |ids| :: ids[i] != ids[j]
    requires u.rows == ClaimAll(rows, ids, worker, now) && |batch| == |ids|
    requires forall i | 0 <= i < |ids| :: ids[i] in u.rows && batch[i] == Snapshot(ids[i], u.rows[ids[i]].attempts)
    ensures AllOwned(u, batch, worker) && SameRoutes(rows, u.rows) && ClaimedFrom(rows, u.rows, ids, worker, now)
  {
  }

  /** By hand only a FAILED event that has a route starts over, due at once. */
  lemma RetryDecides(s: State, id: Text, now: int, name: Id -> Id)
    ensures Step(s, RetryByHand(id, now), name) ==
      if id in s.rows && s.rows[id].status == Failed && s.rows[id].routed then
        s.(rows := s.rows[id := Row(Pending, 0, now, s.rows[id].createdAt, None, None, true)], claims := s.claims[id := []])
      else s
  {
  }
}
