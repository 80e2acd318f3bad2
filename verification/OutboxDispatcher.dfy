/**
 The dispatcher as it is written (apps/worker/src/outbox/outbox-dispatcher.service.ts), proved to take the
 steps of the outbox protocol.
 */
module OutboxDispatcher {
  import opened CodeUnits
  import opened Options
  import opened Outbox

  /**
   What the queue, and the database on settling and on putting back, answer while one event is published,
   and the time at which it would be put back.
   */
  datatype Answers = Answers(added: Added, marked: bool, withdrawn: bool, failedAt: int)

  class Dispatcher {
    const self: Id
    const names: Id -> Id
    var rows: map<Text, Row>
    var jobs: set<Text>
    var activeDispatch: bool
    ghost var dispatchers: map<Id, Stage>
    ghost var claims: map<Text, seq<Id>>

    constructor (self: Id, names: Id -> Id)
      ensures Contents() == EMPTY && this.self == self && this.names == names && !activeDispatch
    {
      this.self, this.names := self, names;
      rows, jobs, activeDispatch := map[], {}, false;
      dispatchers, claims := map[], map[];
    }

    ghost function Contents(): State
      reads this
    {
      State(rows, jobs, dispatchers, claims)
    }

    /** The candidates of the claim in the order of their due times, at most `limit` of them. */
    method Candidates(cutoff: int, now: int, limit: nat, locked: set<Text>) returns (ids: seq<Text>)
      ensures MayClaim(rows, ids, cutoff, now) && Earliest(rows, ids, cutoff, now, limit, locked)
    {
      hide Claimable;
      var rest := set id | id in rows && id !in locked && Claimable(rows[id], cutoff, now);
      ids := [];
      while rest != {} && |ids| < limit
        invariant |ids| <= limit
        invariant forall i | 0 <= i < |ids| :: ids[i] in rows && ids[i] !in rest && ids[i] !in locked
        invariant forall i | 0 <= i < |ids| :: Claimable(rows[ids[i]], cutoff, now)
        invariant forall i, j | 0 <= i < j < |ids| :: ids[i] != ids[j] && NoLater(rows[ids[i]], rows[ids[j]])
        invariant forall id | id in rest :: id in rows && id !in locked && Claimable(rows[id], cutoff, now)
        invariant forall id, i | id in rest && 0 <= i < |ids| :: NoLater(rows[ids[i]], rows[id])
        invariant forall id | id in rows && id !in locked && Claimable(rows[id], cutoff, now) :: id in rest || id in ids
        decreases rest
      {
        EarliestExists(rows, rest);
        var id :| id in rest && forall other | other in rest :: NoLater(rows[id], rows[other]);
        ids := ids + [id];
        rest := rest - {id};
      }
    }

    /** The claim, and the events read back after it. */
    method ClaimBatch(cutoff: int, now: int, limit: nat, locked: set<Text>)
      returns (ids: seq<Text>, events: seq<Snapshot>, ghost trace: seq<Event>)
      requires self !in dispatchers && claims.Keys == rows.Keys
      modifies this`rows, this`claims, this`dispatchers
      ensures MayClaim(old(rows), ids, cutoff, now) && Earliest(old(rows), ids, cutoff, now, limit, locked)
      ensures trace == [Claim(self, ids, cutoff, now), Load(self)] && Contents() == Run(old(Contents()), trace, names)
      ensures events == Snapshots(ClaimAll(old(rows), ids, names(self), now), ids)
      ensures events == [] ==> self !in dispatchers
      ensures events != [] ==> self in dispatchers && dispatchers[self] == Holding(events)
      ensures SameRoutes(old(rows), rows)
    {
      hide MayClaim, Run, Snapshots, Earliest;
      ghost var before := Contents();
      ids := Candidates(cutoff, now, limit, locked);
      NoEvents(before, names);
      trace := Took(before, [], Claim(self, ids, cutoff, now));
      rows := ClaimAll(rows, ids, names(self), now);
      claims := Claims(claims, ids, self);
      dispatchers := dispatchers[self := Claimed(ids)];
      trace := Took(before, trace, Load(self));
      events := Snapshots(rows, ids);
      dispatchers := if events == [] then dispatchers - {self} else dispatchers[self := Holding(events)];
    }

    /** updateMany on an event that is still PROCESSING under this dispatcher's name. */
    method Settle(id: Text, status: Status, availableAt: Option<int>)
      modifies this`rows
      ensures rows == Settled(old(rows), id, names(self), status, availableAt) && SameRoutes(old(rows), rows)
    {
      if id in rows && rows[id].status == Processing && rows[id].lockedBy == Some(names(self)) {
        rows := rows[id := rows[id].(status := status, lockedAt := None, lockedBy := None,
                                     availableAt := match availableAt case Some(t) => t case None => rows[id].availableAt)];
      }
    }

    method PublicationFailed(event: Snapshot, now: int)
      modifies this`rows
      ensures rows == Withdrawn(old(rows), event, names(self), now) && SameRoutes(old(rows), rows)
    {
      var exhausted := event.attempts >= MAX_ATTEMPTS;
      var doublings := if event.attempts >= 1 then event.attempts - 1 else 0;
      var factor := 1;
      for i := 0 to doublings
        invariant factor == Pow2(i) && rows == old(rows)
      {
        factor := 2 * factor;
      }
      var delay := if 2_000 * factor < 300_000 then 2_000 * factor else 300_000;
      Settle(event.id, if exhausted then Failed else Pending, Some(now + delay));
    }

    /** Publishing the first event of the batch; false when even the last write about it fails. */
    method Publish(batch: seq<Snapshot>, answers: Answers, ghost before: State, ghost soFar: seq<Event>)
      returns (ok: bool, ghost trace: seq<Event>)
      requires batch != [] && Reached(before, soFar, Holding(batch)) && batch[0].id in rows
      modifies this`rows, this`jobs, this`dispatchers
      ensures trace == soFar + EventSteps(self, old(rows)[batch[0].id].routed, answers)
      ensures ok == Continues(old(rows)[batch[0].id].routed, answers)
      ensures Ended(ok, batch, before, trace) && SameRoutes(old(rows), rows)
    {
      hide Run, Settled, JobId;
      var event := batch[0];
      if !rows[event.id].routed && !answers.marked {
        trace := Took(before, soFar, Stop(self));
        dispatchers := dispatchers - {self};
        return false, trace;
      }
      trace := Took(before, soFar, Event.Route(self, answers.added));
      if !rows[event.id].routed {
        Settle(event.id, Failed, None);
        MoveOn(batch);
        return true, trace;
      }
      if answers.added.Stored? || answers.added.reached { jobs := jobs + {JobId(event.id)}; }
      if answers.added.Stored? {
        dispatchers := dispatchers[self := Marking(batch)];
        ok, trace := MarkPublished(batch, answers, before, trace);
      } else {
        dispatchers := dispatchers[self := Retreating(batch)];
        ok, trace := StepBack(batch, answers, before, trace);
      }
    }

    method MarkPublished(batch: seq<Snapshot>, answers: Answers, ghost before: State, ghost soFar: seq<Event>)
      returns (ok: bool, ghost trace: seq<Event>)
      requires batch != [] && Reached(before, soFar, Marking(batch))
      modifies this`rows, this`dispatchers
      ensures trace == soFar + MarkSteps(self, answers) && ok == (answers.marked || answers.withdrawn)
      ensures Ended(ok, batch, before, trace) && SameRoutes(old(rows), rows)
    {
      hide Run, Settled;
      trace := Took(before, soFar, Mark(self, answers.marked));
      if answers.marked {
        Settle(batch[0].id, Published, None);
        MoveOn(batch);
        return true, trace;
      }
      dispatchers := dispatchers[self := Retreating(batch)];
      ok, trace := StepBack(batch, answers, before, trace);
    }

    /** What the catch block does; when that throws too, the whole dispatch ends. */
    method StepBack(batch: seq<Snapshot>, answers: Answers, ghost before: State, ghost soFar: seq<Event>)
      returns (ok: bool, ghost trace: seq<Event>)
      requires batch != [] && Reached(before, soFar, Retreating(batch))
      modifies this`rows, this`dispatchers
      ensures trace == soFar + RetreatSteps(self, answers) && ok == answers.withdrawn
      ensures Ended(ok, batch, before, trace) && SameRoutes(old(rows), rows)
    {
      hide Run, Withdrawn;
      if !answers.withdrawn {
        trace := Took(before, soFar, Stop(self));
        dispatchers := dispatchers - {self};
        return false, trace;
      }
      trace := Took(before, soFar, Retreat(self, answers.failedAt));
      PublicationFailed(batch[0], answers.failedAt);
      MoveOn(batch);
      return true, trace;
    }

    ghost predicate Ended(ok: bool, batch: seq<Snapshot>, before: State, trace: seq<Event>)
      reads this
    {
      && Contents() == Run(before, trace, names)
      && (if ok && |batch| > 1 then self in dispatchers && dispatchers[self] == Holding(batch[1..]) else self !in dispatchers)
    }

    /** The events of the batch, one after another, until nothing more can be written about one. */
    method PublishAll(events: seq<Snapshot>, answers: Text -> Answers, ghost before: State, ghost soFar: seq<Event>)
      returns (ok: bool, ghost trace: seq<Event>)
      requires Contents() == Run(before, soFar, names)
      requires forall i | 0 <= i < |events| :: events[i].id in rows
      requires if events == [] then self !in dispatchers else self in dispatchers && dispatchers[self] == Holding(events)
      modifies this`rows, this`jobs, this`dispatchers
      ensures trace == soFar + BatchSteps(self, old(rows), events, answers)
      ensures Contents() == Run(before, trace, names) && self !in dispatchers
    {
      hide Run, EventSteps, BatchSteps, Continues;
      ghost var start := rows;
      trace, ok := soFar, true;
      NoSteps(self, start, answers);
      var i := 0;
      while i < |events|
        invariant 0 <= i <= |events| && ok
        invariant Contents() == Run(before, trace, names) && SameRoutes(start, rows)
        invariant i == |events| ==> self !in dispatchers
        invariant i < |events| ==> self in dispatchers && dispatchers[self] == Holding(events[i..])
        invariant trace + BatchSteps(self, start, events[i..], answers)
                  == soFar + BatchSteps(self, start, events, answers)
      {
        assert events[i..] != [] && events[i..][0] == events[i] && events[i..][1..] == events[i + 1..];
        FirstSteps(self, start, events[i..], answers, trace);
        ok, trace := Publish(events[i..], answers(events[i].id), before, trace);
        if !ok { return; }
        i := i + 1;
      }
    }

    /** A claim and the publication of what it claimed, with no step left out. */
    method DispatchOnce(cutoff: int, now: int, limit: nat, locked: set<Text>, answers: Text -> Answers)
      returns (ok: bool, count: nat, ghost trace: seq<Event>)
      requires self !in dispatchers && claims.Keys == rows.Keys
      modifies this`rows, this`jobs, this`claims, this`dispatchers
      ensures Contents() == Run(old(Contents()), trace, names) && self !in dispatchers
      ensures Dispatches(self, old(rows), trace, cutoff, now, limit, locked, names, answers)
      ensures |trace| >= 2 && trace[0].Claim? && count == |trace[0].ids|
    {
      hide Run, Earliest, Snapshots, BatchSteps, MayClaim;
      ghost var before := Contents();
      var ids, events;
      ids, events, trace := ClaimBatch(cutoff, now, limit, locked);
      AllRead(before.rows, ids, names(self), cutoff, now);
      ghost var claimed := rows;
      SameSteps(self, before.rows, claimed, events, answers);
      ok, trace := PublishAll(events, answers, before, trace);
      count := |events|;
      assert trace[0] == Claim(self, ids, cutoff, now);
    }

    /** One timer tick: a dispatch that is still running is left alone, and a failed one is forgotten. */
    method Tick(cutoff: int, now: int, limit: nat, locked: set<Text>, answers: Text -> Answers) returns (ghost trace: seq<Event>)
      requires !activeDispatch ==> self !in dispatchers && claims.Keys == rows.Keys
      modifies this
      ensures Contents() == Run(old(Contents()), trace, names)
      ensures old(activeDispatch) ==> trace == [] && activeDispatch
      ensures !old(activeDispatch) ==> !activeDispatch && self !in dispatchers
      ensures !old(activeDispatch) ==> Dispatches(self, old(rows), trace, cutoff, now, limit, locked, names, answers)
    {
      hide Run, Dispatches;
      NoEvents(Contents(), names);
      if activeDispatch { return []; }
      activeDispatch := true;
      var ok, count;
      ok, count, trace := DispatchOnce(cutoff, now, limit, locked, answers);
      activeDispatch := false;
    }

    ghost predicate Reached(before: State, trace: seq<Event>, stage: Stage)
      reads this
    {
      && Contents() == Run(before, trace, names)
      && self in dispatchers && dispatchers[self] == stage
    }

    ghost method MoveOn(batch: seq<Snapshot>)
      modifies this`dispatchers
      ensures dispatchers == if |batch| <= 1 then old(dispatchers) - {self} else old(dispatchers)[self := Holding(batch[1..])]
    {
      dispatchers := if |batch| <= 1 then dispatchers - {self} else dispatchers[self := Holding(batch[1..])];
    }

    /** The next event of the trace; the code after it makes the contents follow. */
    ghost method Took(before: State, trace: seq<Event>, e: Event) returns (longer: seq<Event>)
      requires Contents() == Run(before, trace, names)
      ensures longer == trace + [e] && Run(before, longer, names) == Step(Contents(), e, names)
    {
      hide Step;
      longer := trace + [e];
      RunSnoc(before, trace, e, names);
    }
  }

  /** The order of a claim and of the reading after it; equal times leave it open. */
  predicate NoLater(a: Row, b: Row) {
    a.availableAt < b.availableAt || (a.availableAt == b.availableAt && a.createdAt <= b.createdAt)
  }

  /**
   The batch a claim takes: in the order of their due times, and who is left out is locked by another
   claim, not claimable, or later than all that are taken.
   */
  ghost predicate Earliest(rows: map<Text, Row>, ids: seq<Text>, cutoff: int, now: int, limit: nat, locked: set<Text>) {
    && |ids| <= limit && (forall i | 0 <= i < |ids| :: ids[i] in rows && ids[i] !in locked)
    && (forall i, j | 0 <= i < j < |ids| :: NoLater(rows[ids[i]], rows[ids[j]]))
    && (forall id | id in rows && id !in locked && id !in ids && Claimable(rows[id], cutoff, now) ::
          |ids| == limit && forall i | 0 <= i < |ids| :: NoLater(rows[ids[i]], rows[id]))
  }

  /** Nothing but a claim adds events, and nothing changes their routes. */
  ghost predicate SameRoutes(a: map<Text, Row>, b: map<Text, Row>) {
    a.Keys == b.Keys && forall id | id in a :: a[id].routed == b[id].routed
  }

  // ----- the steps of a dispatch, as the answers decide them ------------------------------------

  function RetreatSteps(d: Id, a: Answers): seq<Event> {
    if a.withdrawn then [Retreat(d, a.failedAt)] else [Stop(d)]
  }

  function MarkSteps(d: Id, a: Answers): seq<Event> {
    [Mark(d, a.marked)] + if a.marked then [] else RetreatSteps(d, a)
  }

  function EventSteps(d: Id, routed: bool, a: Answers): seq<Event> {
    if !routed then [if a.marked then Event.Route(d, a.added) else Stop(d)]
    else [Event.Route(d, a.added)] + if a.added.Stored? then MarkSteps(d, a) else RetreatSteps(d, a)
  }

  /** The dispatch goes on to the next event unless even the last write about this one failed. */
  predicate Continues(routed: bool, a: Answers) {
    if routed then (a.added.Stored? && a.marked) || a.withdrawn else a.marked
  }

  function BatchSteps(d: Id, rows: map<Text, Row>, batch: seq<Snapshot>, answers: Text -> Answers): seq<Event> {
    if batch == [] then []
    else
      var id := batch[0].id;
      var routed := id in rows && rows[id].routed;
      EventSteps(d, routed, answers(id))
      + if Continues(routed, answers(id)) then BatchSteps(d, rows, batch[1..], answers) else []
  }

  /** A claim of the earliest events, its reading, and then every step of their publication. */
  ghost predicate Dispatches(d: Id, rows: map<Text, Row>, trace: seq<Event>, cutoff: int, now: int, limit: nat,
                             locked: set<Text>, names: Id -> Id, answers: Text -> Answers) {
    && |trace| >= 2 && trace[0].Claim?
    && var ids := trace[0].ids;
    && MayClaim(rows, ids, cutoff, now) && Earliest(rows, ids, cutoff, now, limit, locked)
    && trace == [Claim(d, ids, cutoff, now), Load(d)]
                + BatchSteps(d, rows, Snapshots(ClaimAll(rows, ids, names(d), now), ids), answers)
  }

  lemma NoSteps(d: Id, rows: map<Text, Row>, answers: Text -> Answers)
    ensures BatchSteps(d, rows, [], answers) == []
  {
  }

  lemma {:induction false} SameSteps(
    d: Id, a: map<Text, Row>, b: map<Text, Row>, batch: seq<Snapshot>, answers: Text -> Answers)
    requires SameRoutes(a, b)
    ensures BatchSteps(d, a, batch, answers) == BatchSteps(d, b, batch, answers)
  {
    hide EventSteps, Continues;
    if batch != [] { SameSteps(d, a, b, batch[1..], answers); }
  }

  lemma FirstSteps(d: Id, rows: map<Text, Row>, batch: seq<Snapshot>, answers: Text -> Answers, soFar: seq<Event>)
    requires batch != []
    ensures var id := batch[0].id; var routed := id in rows && rows[id].routed;
      var next := soFar + EventSteps(d, routed, answers(id));
      soFar + BatchSteps(d, rows, batch, answers)
      == if Continues(routed, answers(id)) then next + BatchSteps(d, rows, batch[1..], answers) else next
  {
    hide EventSteps, Continues;
  }

  /** Every claimed event is read back, in the order of the claim. */
  lemma {:induction false} ReadInOrder(rows: map<Text, Row>, ids: seq<Text>)
    requires forall i | 0 <= i < |ids| :: ids[i] in rows
    ensures |Snapshots(rows, ids)| == |ids|
    ensures forall i | 0 <= i < |ids| :: Snapshots(rows, ids)[i] == Snapshot(ids[i], rows[ids[i]].attempts)
  {
    if ids != [] { ReadInOrder(rows, ids[1..]); }
  }

  lemma AllRead(rows: map<Text, Row>, ids: seq<Text>, worker: Id, cutoff: int, now: int)
    requires MayClaim(rows, ids, cutoff, now)
    ensures var events := Snapshots(ClaimAll(rows, ids, worker, now), ids);
      |events| == |ids| && forall i | 0 <= i < |events| :: events[i].id in rows
  {
    hide Claimable, Snapshots;
    ReadInOrder(ClaimAll(rows, ids, worker, now), ids);
  }

  lemma {:induction false} EarliestExists(rows: map<Text, Row>, ids: set<Text>)
    requires ids != {} && ids <= rows.Keys
    ensures exists id | id in ids :: forall other | other in ids :: NoLater(rows[id], rows[other])
    decreases ids
  {
    var a :| a in ids;
    var rest := ids - {a};
    if rest == {} {
      assert ids == rest + {a} == {a};
    } else {
      EarliestExists(rows, rest);
      var b :| b in rest && forall other | other in rest :: NoLater(rows[b], rows[other]);
      var least := if NoLater(rows[a], rows[b]) then a else b;
      assert forall other | other in ids :: NoLater(rows[least], rows[other]);
    }
  }
}
