/**
 Claiming, publishing and retrying outbox events (apps/worker/src/outbox/outbox-dispatcher.service.ts,
 the job id of packages/queue/src/background-queue.catalog.ts and the manual retry of
 apps/api/src/modules/background-jobs/background-job.service.ts).

 Every statement on the events is one step, and so is adding a job to the queue.  A dispatcher may stop
 between any two steps, and then starts again without its batch.
 */
module Outbox {
  import opened CodeUnits
  import opened Options

  /** A running dispatcher; a process that is started again is another one. */
  type Id = nat

  const MAX_ATTEMPTS: nat := 5

  datatype Status = Pending | Processing | Published | Failed

  datatype Row = Row(
    status: Status, attempts: nat, availableAt: int, createdAt: int, lockedAt: Option<int>, lockedBy: Option<Id>, routed: bool)

  /** An event as findMany returned it after the claim. */
  datatype Snapshot = Snapshot(id: Text, attempts: nat)

  datatype Stage =
    | Claimed(ids: seq<Text>)
    | Holding(batch: seq<Snapshot>)
    | Marking(batch: seq<Snapshot>)
    | Retreating(batch: seq<Snapshot>)

  /** claims lists who claimed an event since it was created or last retried by hand. */
  datatype State = State(
    rows: map<Text, Row>, jobs: set<Text>, dispatchers: map<Id, Stage>, claims: map<Text, seq<Id>>)

  datatype Added = Stored | Lost(reached: bool)

  datatype Event =
    | Emit(id: Text, availableAt: int, createdAt: int, routed: bool)
    | Claim(dispatcher: Id, ids: seq<Text>, cutoff: int, now: int)
    | Load(dispatcher: Id)
    | Route(dispatcher: Id, answer: Added)
    | Mark(dispatcher: Id, stored: bool)
    | Retreat(dispatcher: Id, now: int)
    | Stop(dispatcher: Id)
    | RetryByHand(id: Text, now: int)

  // ----- the job id ---------------------------------------------------------------------------

  function WithoutDashes(t: Text): Text {
    if t == [] then [] else (if t[0] == MINUS then [] else [t[0]]) + WithoutDashes(t[1..])
  }

  function JobId(id: Text): Text {
    Units("outbox-") + WithoutDashes(id)
  }

  predicate Dashed(i: int) {
    i == 8 || i == 13 || i == 18 || i == 23
  }

  predicate IsUuid(t: Text) {
    |t| == 36 && forall i | 0 <= i < 36 :: t[i] == MINUS <==> Dashed(i)
  }

  lemma {:induction false} DashFree(t: Text)
    requires forall i | 0 <= i < |t| :: t[i] != MINUS
    ensures WithoutDashes(t) == t
  {
    if t != [] {
      DashFree(t[1..]);
      assert t == [t[0]] + t[1..];
    }
  }

  /** A section without dashes and the dash after it. */
  lemma {:induction false} SectionThenDash(a: Text, rest: Text)
    requires forall i | 0 <= i < |a| :: a[i] != MINUS
    ensures WithoutDashes(a + ([MINUS] + rest)) == a + WithoutDashes(rest)
  {
    var t := a + ([MINUS] + rest);
    if a == [] {
      assert t[1..] == rest;
      assert [] + WithoutDashes(rest) == WithoutDashes(rest);
    } else {
      assert t[1..] == a[1..] + ([MINUS] + rest);
      SectionThenDash(a[1..], rest);
      assert a == [a[0]] + a[1..];
      assert [a[0]] + (a[1..] + WithoutDashes(rest)) == a + WithoutDashes(rest);
    }
  }

  lemma UuidSections(t: Text)
    requires IsUuid(t)
    ensures WithoutDashes(t) == t[..8] + (t[9..13] + (t[14..18] + (t[19..23] + t[24..])))
  {
    hide WithoutDashes;
    assert t == t[..8] + ([MINUS] + t[9..]);
    assert t[9..] == t[9..13] + ([MINUS] + t[14..]);
    assert t[14..] == t[14..18] + ([MINUS] + t[19..]);
    assert t[19..] == t[19..23] + ([MINUS] + t[24..]);
    SectionThenDash(t[..8], t[9..]);
    SectionThenDash(t[9..13], t[14..]);
    SectionThenDash(t[14..18], t[19..]);
    SectionThenDash(t[19..23], t[24..]);
    DashFree(t[24..]);
  }

  /** Different events have different job ids, so a queue that drops repeats of an id drops no event. */
  lemma JobIdIsInjective(a: Text, b: Text)
    requires IsUuid(a) && IsUuid(b) && JobId(a) == JobId(b)
    ensures a == b
  {
    hide WithoutDashes;
    UuidSections(a);
    UuidSections(b);
    var x, y := WithoutDashes(a), WithoutDashes(b);
    assert JobId(a)[|Units("outbox-")|..] == x && JobId(b)[|Units("outbox-")|..] == y;
    assert a[..8] == x[..8] == b[..8] && a[9..13] == x[8..12] == b[9..13] && a[14..18] == x[12..16] == b[14..18];
    assert a[19..23] == x[16..20] == b[19..23] && a[24..] == x[20..] == b[24..];
    forall i | 0 <= i < 36 ensures a[i] == b[i] {
      if i < 8 { assert a[i] == a[..8][i]; }
      else if 9 <= i < 13 { assert a[i] == a[9..13][i - 9]; }
      else if 14 <= i < 18 { assert a[i] == a[14..18][i - 14]; }
      else if 19 <= i < 23 { assert a[i] == a[19..23][i - 19]; }
      else if 24 <= i { assert a[i] == a[24..][i - 24]; }
    }
  }

  // ----- the statements -----------------------------------------------------------------------

  predicate Claimable(row: Row, cutoff: int, now: int) {
    (row.status == Pending && row.availableAt <= now)
    || (row.status == Processing && row.lockedAt.Some? && row.lockedAt.value < cutoff)
  }

  function ClaimedRow(row: Row, worker: Id, now: int): Row {
    row.(status := Processing, attempts := row.attempts + 1, lockedAt := Some(now), lockedBy := Some(worker))
  }

  /** Any events that may be claimed, each at most once. */
  predicate MayClaim(rows: map<Text, Row>, ids: seq<Text>, cutoff: int, now: int) {
    && (forall i | 0 <= i < |ids| :: ids[i] in rows && Claimable(rows[ids[i]], cutoff, now))
    && (forall i, j | 0 <= i < j < |ids| :: ids[i] != ids[j])
  }

  function ClaimAll(rows: map<Text, Row>, ids: seq<Text>, worker: Id, now: int): map<Text, Row> {
    map id | id in rows :: if id in ids then ClaimedRow(rows[id], worker, now) else rows[id]
  }

  function Snapshots(rows: map<Text, Row>, ids: seq<Text>): seq<Snapshot> {
    if ids == [] then []
    else (if ids[0] in rows then [Snapshot(ids[0], rows[ids[0]].attempts)] else []) + Snapshots(rows, ids[1..])
  }

  /** The guard of every settling updateMany. */
  predicate Held(rows: map<Text, Row>, id: Text, worker: Id) {
    id in rows && rows[id].status == Processing && rows[id].lockedBy == Some(worker)
  }

  function Free(row: Row, status: Status): Row {
    row.(status := status, lockedAt := None, lockedBy := None)
  }

  function Settled(rows: map<Text, Row>, id: Text, worker: Id, status: Status, availableAt: Option<int>): map<Text, Row> {
    if !Held(rows, id, worker) then rows
    else rows[id := Free(rows[id], status).(
           availableAt := match availableAt case Some(t) => t case None => rows[id].availableAt)]
  }

  function Pow2(n: nat): (p: nat)
    ensures p >= 1
  {
    if n == 0 then 1 else 2 * Pow2(n - 1)
  }

  function Backoff(attempts: nat): int {
    var delay := 2_000 * Pow2(if attempts >= 1 then attempts - 1 else 0);
    if delay < 300_000 then delay else 300_000
  }

  function Withdrawn(rows: map<Text, Row>, event: Snapshot, worker: Id, now: int): map<Text, Row> {
    Settled(rows, event.id, worker, if event.attempts >= MAX_ATTEMPTS then Failed else Pending, Some(now + Backoff(event.attempts)))
  }

  predicate Retriable(rows: map<Text, Row>, id: Text) {
    id in rows && rows[id].status == Failed && rows[id].routed
  }

  function Retried(row: Row, now: int): Row {
    row.(status := Pending, attempts := 0, availableAt := now, lockedAt := None, lockedBy := None)
  }

  // ----- the protocol, for dispatchers under given names ---------------------------------------

  function Gone(s: State, d: Id): State {
    s.(dispatchers := s.dispatchers - {d})
  }

  function At(s: State, d: Id, stage: Stage): State {
    s.(dispatchers := s.dispatchers[d := stage])
  }

  /** The next event of the batch, or the end of it. */
  function Onward(s: State, d: Id, batch: seq<Snapshot>): State {
    if |batch| <= 1 then Gone(s, d) else At(s, d, Holding(batch[1..]))
  }

  function Claims(claims: map<Text, seq<Id>>, ids: seq<Text>, d: Id): map<Text, seq<Id>> {
    map id | id in claims :: if id in ids then claims[id] + [d] else claims[id]
  }

  /** publish: an event without a route fails for good, any other has its job added to the queue. */
  function Routed(s: State, d: Id, batch: seq<Snapshot>, answer: Added, name: Id): State
    requires batch != []
  {
    var id := batch[0].id;
    if id !in s.rows then Onward(s, d, batch)
    else if !s.rows[id].routed then Onward(s.(rows := Settled(s.rows, id, name, Failed, None)), d, batch)
    else
      match answer
      case Stored => At(s, d, Marking(batch)).(jobs := s.jobs + {JobId(id)})
      case Lost(reached) => At(s, d, Retreating(batch)).(jobs := if reached then s.jobs + {JobId(id)} else s.jobs)
  }

  function Step(s: State, e: Event, name: Id -> Id): State {
    match e
    case Emit(id, availableAt, createdAt, routed) =>
      if id in s.rows || id in s.claims || !IsUuid(id) then s
      else s.(rows := s.rows[id := Row(Pending, 0, availableAt, createdAt, None, None, routed)], claims := s.claims[id := []])
    case Claim(d, ids, cutoff, now) =>
      if d in s.dispatchers || !MayClaim(s.rows, ids, cutoff, now) then s
      else At(s, d, Claimed(ids)).(rows := ClaimAll(s.rows, ids, name(d), now), claims := Claims(s.claims, ids, d))
    case Load(d) =>
      if d !in s.dispatchers || !s.dispatchers[d].Claimed? then s
      else
        var batch := Snapshots(s.rows, s.dispatchers[d].ids);
        if batch == [] then Gone(s, d) else At(s, d, Holding(batch))
    case Route(d, answer) =>
      if d !in s.dispatchers || !s.dispatchers[d].Holding? || s.dispatchers[d].batch == [] then s
      else Routed(s, d, s.dispatchers[d].batch, answer, name(d))
    case Mark(d, stored) =>
      if d !in s.dispatchers || !s.dispatchers[d].Marking? || s.dispatchers[d].batch == [] then s
      else
        var batch := s.dispatchers[d].batch;
        if !stored then At(s, d, Retreating(batch))
        else Onward(s.(rows := Settled(s.rows, batch[0].id, name(d), Published, None)), d, batch)
    case Retreat(d, now) =>
      if d !in s.dispatchers || !s.dispatchers[d].Retreating? || s.dispatchers[d].batch == [] then s
      else
        var batch := s.dispatchers[d].batch;
        Onward(s.(rows := Withdrawn(s.rows, batch[0], name(d), now)), d, batch)
    case Stop(d) => Gone(s, d)
    case RetryByHand(id, now) =>
      if !Retriable(s.rows, id) then s
      else s.(rows := s.rows[id := Retried(s.rows[id], now)], claims := s.claims[id := []])
  }

  function Run(s: State, events: seq<Event>, name: Id -> Id): State
    decreases |events|
  {
    if events == [] then s else Run(Step(s, events[0], name), events[1..], name)
  }

  lemma NoEvents(s: State, name: Id -> Id)
    ensures Run(s, [], name) == s
  {
  }

  lemma {:induction false} RunSnoc(s: State, events: seq<Event>, e: Event, name: Id -> Id)
    ensures Run(s, events + [e], name) == Step(Run(s, events, name), e, name)
    decreases |events|
  {
    hide Step;
    if events == [] {
      assert [e][1..] == [];
    } else {
      RunSnoc(Step(s, events[0], name), events[1..], e, name);
      assert (events + [e])[1..] == events[1..] + [e];
    }
  }

  const EMPTY: State := State(map[], {}, map[], map[])
}
