/**
 What every run of the outbox keeps while dispatchers have distinct names, and what one shared name breaks.
 */
module OutboxSafety {
  import opened CodeUnits
  import opened Options
  import opened Outbox

  ghost predicate DistinctNames(name: Id -> Id) {
    forall a, b | name(a) == name(b) :: a == b
  }

  // ----- the invariant ------------------------------------------------------------------------

  /** What every row keeps, whatever the dispatchers are called. */
  ghost predicate RowBase(row: Row, id: Text, claimants: seq<Id>, jobs: set<Text>, name: Id -> Id) {
    && (row.status == Processing <==> row.lockedAt.Some?)
    && (row.status == Processing <==> row.lockedBy.Some?)
    && (row.status == Published ==> JobId(id) in jobs)
    && row.attempts == |claimants|
    && (row.status == Processing ==> claimants != [] && row.lockedBy == Some(name(claimants[|claimants| - 1])))
    && IsUuid(id)
  }

  ghost predicate RowsBased(s: State, name: Id -> Id) {
    s.rows.Keys == s.claims.Keys && forall id | id in s.rows :: RowBase(s.rows[id], id, s.claims[id], s.jobs, name)
  }

  ghost predicate JobsAdded(s: State) {
    forall d | d in s.dispatchers && s.dispatchers[d].Marking? && s.dispatchers[d].batch != [] ::
      JobId(s.dispatchers[d].batch[0].id) in s.jobs
  }

  ghost predicate Base(s: State, name: Id -> Id) {
    RowsBased(s, name) && JobsAdded(s)
  }

  ghost predicate RowSound(row: Row, id: Text, claimants: seq<Id>, jobs: set<Text>, name: Id -> Id) {
    RowBase(row, id, claimants, jobs, name) && (row.status == Pending ==> row.attempts < MAX_ATTEMPTS)
  }

  ghost predicate RowsSound(s: State, name: Id -> Id) {
    && s.rows.Keys == s.claims.Keys
    && forall id | id in s.rows :: RowSound(s.rows[id], id, s.claims[id], s.jobs, name)
  }

  function Batch(stage: Stage): seq<Snapshot> {
    if stage.Claimed? then [] else stage.batch
  }

  /** While the lock is still its own, a dispatcher's snapshot of an event is up to date. */
  ghost predicate UpToDate(rows: map<Text, Row>, snapshot: Snapshot, worker: Id) {
    Held(rows, snapshot.id, worker) ==> rows[snapshot.id].attempts == snapshot.attempts
  }

  ghost predicate Knows(s: State, d: Id, name: Id -> Id)
    requires d in s.dispatchers
  {
    var batch := Batch(s.dispatchers[d]);
    && (forall i | 0 <= i < |batch| :: UpToDate(s.rows, batch[i], name(d)))
    && (s.dispatchers[d].Marking? && batch != [] ==> JobId(batch[0].id) in s.jobs)
  }

  ghost predicate AllKnow(s: State, name: Id -> Id) {
    forall d | d in s.dispatchers :: Knows(s, d, name)
  }

  ghost predicate Inv(s: State, name: Id -> Id) {
    RowsSound(s, name) && AllKnow(s, name)
  }

  lemma RowsKeptByClaim(s: State, e: Event, name: Id -> Id)
    requires Base(s, name) && e.Claim?
    ensures RowsBased(Step(s, e, name), name)
  {
    hide JobId, IsUuid, MayClaim, JobsAdded;
  }

  lemma RowsKeptBySettling(s: State, id: Text, worker: Id, status: Status, availableAt: Option<int>, name: Id -> Id)
    requires RowsBased(s, name) && status != Processing && (status == Published ==> JobId(id) in s.jobs)
    ensures RowsBased(s.(rows := Settled(s.rows, id, worker, status, availableAt)), name)
  {
    hide JobId, IsUuid;
  }

  lemma RowsKeptByHand(s: State, e: Event, name: Id -> Id)
    requires RowsBased(s, name) && (e.Emit? || e.RetryByHand?)
    ensures RowsBased(Step(s, e, name), name)
  {
    hide JobId, IsUuid;
  }

  lemma RowsStand(s: State, t: State, name: Id -> Id)
    requires RowsBased(s, name) && t.rows == s.rows && t.claims == s.claims && s.jobs <= t.jobs
    ensures RowsBased(t, name)
  {
    hide JobId, IsUuid;
  }

  lemma RowsKept(s: State, e: Event, name: Id -> Id)
    requires Base(s, name)
    ensures RowsBased(Step(s, e, name), name)
  {
    hide JobId, IsUuid, Backoff, Snapshots, MayClaim, Settled, ClaimAll, Claims, RowsBased;
    var t := Step(s, e, name);
    if s.rows == t.rows && s.claims == t.claims { RowsStand(s, t, name); }
    match e {
      case Emit(_, _, _, _) => RowsKeptByHand(s, e, name);
      case RetryByHand(_, _) => RowsKeptByHand(s, e, name);
      case Claim(_, _, _, _) => RowsKeptByClaim(s, e, name);
      case Route(d, _) => if t.rows != s.rows { SettledAs(s, t, s.dispatchers[d].batch[0].id, name(d), Failed, None, name); }
      case Mark(d, _) => if t.rows != s.rows { SettledAs(s, t, s.dispatchers[d].batch[0].id, name(d), Published, None, name); }
      case Retreat(d, now) =>
        if t.rows != s.rows {
          var event := s.dispatchers[d].batch[0];
          SettledAs(s, t, event.id, name(d), if event.attempts >= MAX_ATTEMPTS then Failed else Pending,
                    Some(now + Backoff(event.attempts)), name);
        }
      case _ =>
    }
  }

  lemma SettledAs(s: State, t: State, id: Text, worker: Id, status: Status, availableAt: Option<int>, name: Id -> Id)
    requires RowsBased(s, name) && status != Processing && (status == Published ==> JobId(id) in s.jobs)
    requires t.rows == Settled(s.rows, id, worker, status, availableAt) && t.claims == s.claims && t.jobs == s.jobs
    ensures RowsBased(t, name)
  {
    hide JobId, IsUuid, Settled, RowsBased;
    var u := s.(rows := t.rows);
    RowsKeptBySettling(s, id, worker, status, availableAt, name);
    RowsStand(u, t, name);
  }

  lemma JobsKept(s: State, e: Event, name: Id -> Id)
    requires JobsAdded(s)
    ensures JobsAdded(Step(s, e, name))
  {
    hide JobId, IsUuid, Backoff, MayClaim, Settled, Withdrawn, ClaimAll, Claims;
  }

  lemma BaseKept(s: State, e: Event, name: Id -> Id)
    requires Base(s, name)
    ensures Base(Step(s, e, name), name)
  {
    hide RowBase, JobsAdded, Step;
    RowsKept(s, e, name);
    JobsKept(s, e, name);
  }

  lemma {:induction false} BaseAlways(s: State, events: seq<Event>, name: Id -> Id)
    requires Base(s, name)
    ensures Base(Run(s, events, name), name)
    decreases |events|
  {
    hide Base, Step;
    if events != [] {
      BaseKept(s, events[0], name);
      BaseAlways(Step(s, events[0], name), events[1..], name);
    }
  }

  // ----- rewriting one row --------------------------------------------------------------------

  /** Settling an event, or retrying it, leaves every dispatcher's snapshots up to date. */
  lemma RewriteKeeps(s: State, id: Text, row: Row, claimants: seq<Id>, jobs: set<Text>, name: Id -> Id)
    requires Inv(s, name) && id in s.rows && s.jobs <= jobs
    requires row.status != Processing && RowSound(row, id, claimants, jobs, name)
    ensures Inv(State(s.rows[id := row], jobs, s.dispatchers, s.claims[id := claimants]), name)
  {
  }

  lemma SettledKeeps(s: State, id: Text, worker: Id, status: Status, availableAt: Option<int>, name: Id -> Id)
    requires Inv(s, name) && status != Processing
    requires status == Published ==> JobId(id) in s.jobs
    requires status == Pending && Held(s.rows, id, worker) ==> s.rows[id].attempts < MAX_ATTEMPTS
    ensures Inv(s.(rows := Settled(s.rows, id, worker, status, availableAt)), name)
  {
    hide JobId, IsUuid, AllKnow, Knows;
    if Held(s.rows, id, worker) {
      assert RowSound(s.rows[id], id, s.claims[id], s.jobs, name);
      var row := Settled(s.rows, id, worker, status, availableAt)[id];
      RewriteKeeps(s, id, row, s.claims[id], s.jobs, name);
      assert s.claims[id := s.claims[id]] == s.claims;
    }
  }

  lemma RetryKeeps(s: State, id: Text, now: int, name: Id -> Id)
    requires Inv(s, name) && Retriable(s.rows, id)
    ensures Inv(s.(rows := s.rows[id := Retried(s.rows[id], now)], claims := s.claims[id := []]), name)
  {
  }

  // ----- moving one dispatcher ----------------------------------------------------------------

  lemma MoveKeeps(s: State, d: Id, stage: Stage, jobs: set<Text>, name: Id -> Id)
    requires Inv(s, name) && s.jobs <= jobs
    requires var batch := Batch(stage);
      && (forall i | 0 <= i < |batch| :: UpToDate(s.rows, batch[i], name(d)))
      && (stage.Marking? && batch != [] ==> JobId(batch[0].id) in jobs)
    ensures Inv(At(s, d, stage).(jobs := jobs), name)
  {
  }

  lemma GoneKeeps(s: State, d: Id, name: Id -> Id)
    requires Inv(s, name)
    ensures Inv(Gone(s, d), name)
  {
  }

  lemma OnwardKeeps(s: State, d: Id, batch: seq<Snapshot>, name: Id -> Id)
    requires Inv(s, name) && forall i | 0 <= i < |batch| :: UpToDate(s.rows, batch[i], name(d))
    ensures Inv(Onward(s, d, batch), name)
  {
    hide Inv, UpToDate;
    GoneKeeps(s, d, name);
    if |batch| > 1 { MoveKeeps(s, d, Holding(batch[1..]), s.jobs, name); }
  }

  lemma KnowsOf(s: State, d: Id, name: Id -> Id)
    requires Inv(s, name) && d in s.dispatchers
    ensures Knows(s, d, name)
  {
  }

  /** After the first event of a batch is settled the rest of it is still up to date. */
  lemma SettledThenOnward(s: State, d: Id, status: Status, availableAt: Option<int>, name: Id -> Id)
    requires Inv(s, name) && d in s.dispatchers && Batch(s.dispatchers[d]) != [] && status != Processing
    requires var id := Batch(s.dispatchers[d])[0].id;
      && (status == Published ==> JobId(id) in s.jobs)
      && (status == Pending && Held(s.rows, id, name(d)) ==> s.rows[id].attempts < MAX_ATTEMPTS)
    ensures var batch := Batch(s.dispatchers[d]);
      Inv(Onward(s.(rows := Settled(s.rows, batch[0].id, name(d), status, availableAt)), d, batch), name)
  {
    hide RowsSound, JobId;
    var batch := Batch(s.dispatchers[d]);
    var t := s.(rows := Settled(s.rows, batch[0].id, name(d), status, availableAt));
    SettledKeeps(s, batch[0].id, name(d), status, availableAt, name);
    KnowsOf(t, d, name);
    OnwardKeeps(t, d, batch, name);
  }

  // ----- claiming -----------------------------------------------------------------------------

  lemma ClaimKeeps(s: State, d: Id, ids: seq<Text>, cutoff: int, now: int, name: Id -> Id)
    requires Inv(s, name) && DistinctNames(name) && d !in s.dispatchers && MayClaim(s.rows, ids, cutoff, now)
    ensures Inv(Step(s, Claim(d, ids, cutoff, now), name), name)
  {
    hide JobId, IsUuid, MayClaim;
    var t := Step(s, Claim(d, ids, cutoff, now), name);
    forall k | k in t.rows ensures RowSound(t.rows[k], k, t.claims[k], t.jobs, name) {
      assert RowSound(s.rows[k], k, s.claims[k], s.jobs, name);
    }
    forall c | c in t.dispatchers ensures Knows(t, c, name) {
      if c != d {
        assert Knows(s, c, name);
        assert name(c) != name(d);
      }
    }
  }

  lemma {:induction false} SnapshotsUpToDate(rows: map<Text, Row>, ids: seq<Text>, worker: Id)
    ensures forall i | 0 <= i < |Snapshots(rows, ids)| :: UpToDate(rows, Snapshots(rows, ids)[i], worker)
  {
    if ids != [] {
      SnapshotsUpToDate(rows, ids[1..], worker);
      var first := if ids[0] in rows then [Snapshot(ids[0], rows[ids[0]].attempts)] else [];
      assert Snapshots(rows, ids) == first + Snapshots(rows, ids[1..]);
    }
  }

  // ----- every step and every run -------------------------------------------------------------

  lemma RouteKeeps(s: State, d: Id, answer: Added, name: Id -> Id)
    requires Inv(s, name) && d in s.dispatchers && s.dispatchers[d].Holding? && s.dispatchers[d].batch != []
    ensures Inv(Routed(s, d, s.dispatchers[d].batch, answer, name(d)), name)
  {
    hide Inv, UpToDate, JobId, Settled;
    var batch := s.dispatchers[d].batch;
    KnowsOf(s, d, name);
    OnwardKeeps(s, d, batch, name);
    SettledThenOnward(s, d, Failed, None, name);
    MoveKeeps(s, d, Marking(batch), s.jobs + {JobId(batch[0].id)}, name);
    MoveKeeps(s, d, Retreating(batch), s.jobs, name);
    MoveKeeps(s, d, Retreating(batch), s.jobs + {JobId(batch[0].id)}, name);
  }

  lemma MarkKeeps(s: State, d: Id, stored: bool, name: Id -> Id)
    requires Inv(s, name)
    ensures Inv(Step(s, Mark(d, stored), name), name)
  {
    hide Inv, UpToDate, JobId, Settled;
    if d in s.dispatchers && s.dispatchers[d].Marking? && s.dispatchers[d].batch != [] {
      KnowsOf(s, d, name);
      MoveKeeps(s, d, Retreating(s.dispatchers[d].batch), s.jobs, name);
      SettledThenOnward(s, d, Published, None, name);
    }
  }

  lemma RetreatKeeps(s: State, d: Id, now: int, name: Id -> Id)
    requires Inv(s, name)
    ensures Inv(Step(s, Retreat(d, now), name), name)
  {
    hide Inv, JobId, Settled, Backoff;
    if d in s.dispatchers && s.dispatchers[d].Retreating? && s.dispatchers[d].batch != [] {
      var event := s.dispatchers[d].batch[0];
      KnowsOf(s, d, name);
      assert UpToDate(s.rows, event, name(d));
      SettledThenOnward(s, d, if event.attempts >= MAX_ATTEMPTS then Failed else Pending,
                        Some(now + Backoff(event.attempts)), name);
    }
  }

  lemma EmitKeeps(s: State, id: Text, availableAt: int, createdAt: int, routed: bool, name: Id -> Id)
    requires Inv(s, name)
    ensures Inv(Step(s, Emit(id, availableAt, createdAt, routed), name), name)
  {
    hide JobId, IsUuid;
    var t := Step(s, Emit(id, availableAt, createdAt, routed), name);
    forall k | k in t.rows ensures RowSound(t.rows[k], k, t.claims[k], t.jobs, name) {
      if k in s.rows { assert RowSound(s.rows[k], k, s.claims[k], s.jobs, name); }
    }
    forall d | d in t.dispatchers ensures Knows(t, d, name) {
      assert Knows(s, d, name);
    }
  }

  lemma StepKeeps(s: State, e: Event, name: Id -> Id)
    requires Inv(s, name) && DistinctNames(name)
    ensures Inv(Step(s, e, name), name)
  {
    hide Inv, JobId, Settled, Backoff, Routed, MayClaim, DistinctNames, Snapshots, UpToDate, IsUuid;
    match e {
      case Emit(id, availableAt, createdAt, routed) => EmitKeeps(s, id, availableAt, createdAt, routed, name);
      case Claim(d, ids, cutoff, now) =>
        if d !in s.dispatchers && MayClaim(s.rows, ids, cutoff, now) { ClaimKeeps(s, d, ids, cutoff, now, name); }
      case Load(d) =>
        if d in s.dispatchers && s.dispatchers[d].Claimed? {
          GoneKeeps(s, d, name);
          SnapshotsUpToDate(s.rows, s.dispatchers[d].ids, name(d));
          MoveKeeps(s, d, Holding(Snapshots(s.rows, s.dispatchers[d].ids)), s.jobs, name);
        }
      case Route(d, answer) =>
        if d in s.dispatchers && s.dispatchers[d].Holding? && s.dispatchers[d].batch != [] { RouteKeeps(s, d, answer, name); }
      case Mark(d, stored) => MarkKeeps(s, d, stored, name);
      case Retreat(d, now) => RetreatKeeps(s, d, now, name);
      case Stop(d) => GoneKeeps(s, d, name);
      case RetryByHand(id, now) => if Retriable(s.rows, id) { RetryKeeps(s, id, now, name); }
    }
  }

  lemma {:induction false} RunKeeps(s: State, events: seq<Event>, name: Id -> Id)
    requires Inv(s, name) && DistinctNames(name)
    ensures Inv(Run(s, events, name), name)
    decreases |events|
  {
    hide Inv, Step, DistinctNames;
    if events != [] {
      StepKeeps(s, events[0], name);
      RunKeeps(Step(s, events[0], name), events[1..], name);
    }
  }

  lemma NothingYet(name: Id -> Id)
    ensures Inv(EMPTY, name)
  {
  }

  // ----- what holds in every run --------------------------------------------------------------

  /**
   Whatever the dispatchers are called, an event is locked exactly while PROCESSING, PUBLISHED only once its
   job was added, and its attempts are the claims since it was created or last retried by hand.
   */
  lemma EventsAreSound(events: seq<Event>, name: Id -> Id, id: Text)
    requires id in Run(EMPTY, events, name).rows
    ensures var s := Run(EMPTY, events, name); var row := s.rows[id];
      && (row.status == Processing <==> row.lockedAt.Some?) && (row.status == Processing <==> row.lockedBy.Some?)
      && (row.status == Published ==> JobId(id) in s.jobs)
      && id in s.claims && row.attempts == |s.claims[id]|
  {
    hide Run, JobId;
    BaseAlways(EMPTY, events, name);
    var s := Run(EMPTY, events, name);
    assert RowBase(s.rows[id], id, s.claims[id], s.jobs, name);
  }

  lemma PublishedStaysOnce(s: State, e: Event, name: Id -> Id, id: Text)
    requires id in s.rows && s.rows[id].status == Published
    ensures id in Step(s, e, name).rows && Step(s, e, name).rows[id] == s.rows[id]
  {
    hide JobId, IsUuid, Backoff, Snapshots;
  }

  /** A PUBLISHED event never changes again, whatever the dispatchers are called. */
  lemma {:induction false} PublishedStays(s: State, events: seq<Event>, name: Id -> Id, id: Text)
    requires id in s.rows && s.rows[id].status == Published
    ensures id in Run(s, events, name).rows && Run(s, events, name).rows[id] == s.rows[id]
    decreases |events|
  {
    hide Step;
    if events != [] {
      PublishedStaysOnce(s, events[0], name, id);
      PublishedStays(Step(s, events[0], name), events[1..], name, id);
    }
  }

  predicate Settles(e: Event) {
    e.Route? || e.Mark? || e.Retreat?
  }

  lemma OnlyHoldersSettle(s: State, e: Event, name: Id -> Id, id: Text)
    requires id in s.rows && s.rows[id].status == Processing && s.claims.Keys == s.rows.Keys
    requires id in Step(s, e, name).rows && Step(s, e, name).rows[id].status != Processing
    ensures Settles(e) && Held(s.rows, id, name(e.dispatcher))
  {
    hide JobId, IsUuid, Backoff, Snapshots;
  }

  ghost predicate FourWhilePending(events: seq<Event>, name: Id -> Id, id: Text) {
    var s := Run(EMPTY, events, name);
    id in s.rows && s.rows[id].status == Pending ==> s.rows[id].attempts <= 4
  }

  /** If this event takes the row out of PROCESSING, it is the work of whoever claimed the row last. */
  ghost predicate SettledByLatest(events: seq<Event>, e: Event, name: Id -> Id, id: Text) {
    var s := Run(EMPTY, events, name);
    var t := Step(s, e, name);
    id in s.rows && s.rows[id].status == Processing && id in t.rows && t.rows[id].status != Processing ==>
      Settles(e) && id in s.claims && s.claims[id] != [] && e.dispatcher == s.claims[id][|s.claims[id]| - 1]
  }

  lemma FourAttempts(events: seq<Event>, name: Id -> Id, id: Text)
    requires DistinctNames(name)
    ensures FourWhilePending(events, name, id)
  {
    hide Run, DistinctNames, AllKnow, JobId;
    NothingYet(name);
    RunKeeps(EMPTY, events, name);
    var s := Run(EMPTY, events, name);
    if id in s.rows { assert RowSound(s.rows[id], id, s.claims[id], s.jobs, name); }
  }

  lemma LatestSettles(events: seq<Event>, e: Event, name: Id -> Id, id: Text)
    requires DistinctNames(name)
    ensures SettledByLatest(events, e, name, id)
  {
    hide Run, Step, AllKnow, JobId, IsUuid;
    BaseAlways(EMPTY, events, name);
    var s := Run(EMPTY, events, name);
    var t := Step(s, e, name);
    if id in s.rows && s.rows[id].status == Processing && id in t.rows && t.rows[id].status != Processing {
      assert RowBase(s.rows[id], id, s.claims[id], s.jobs, name);
      OnlyHoldersSettle(s, e, name, id);
      var last := s.claims[id][|s.claims[id]| - 1];
      assert name(last) == name(e.dispatcher);
    }
  }

  // ----- one name for two dispatchers ---------------------------------------------------------

  const AN_EVENT: Text := Units("00000000-0000-4000-8000-000000000000")

  /** Dispatcher a stalls with the event in its batch, and b has claimed it k more times. */
  function Contended(a: Id, b: Id, k: nat, name: Id -> Id): State {
    State(map[AN_EVENT := Row(Processing, k + 1, 0, 0, Some(k), Some(name(if k == 0 then a else b)), true)], {},
          map[a := Holding([Snapshot(AN_EVENT, 1)])], map[AN_EVENT := [a] + seq(k, _ => b)])
  }

  function Reclaims(b: Id, k: nat): seq<Event> {
    if k == 0 then [] else Reclaims(b, k - 1) + [Claim(b, [AN_EVENT], k, k), Stop(b)]
  }

  function Contention(a: Id, b: Id, k: nat): seq<Event> {
    [Emit(AN_EVENT, 0, 0, true), Claim(a, [AN_EVENT], 0, 0), Load(a)] + Reclaims(b, k)
  }

  lemma AnEventIsUuid()
    ensures IsUuid(AN_EVENT)
  {
  }

  lemma FirstClaim(a: Id, b: Id, name: Id -> Id)
    ensures Run(EMPTY, [Emit(AN_EVENT, 0, 0, true), Claim(a, [AN_EVENT], 0, 0), Load(a)], name) == Contended(a, b, 0, name)
  {
    hide IsUuid, JobId, Run, Units;
    AnEventIsUuid();
    var events := [Emit(AN_EVENT, 0, 0, true), Claim(a, [AN_EVENT], 0, 0), Load(a)];
    var s1 := Step(EMPTY, events[0], name);
    var s2 := Step(s1, events[1], name);
    assert s2.claims[AN_EVENT] == [a];
    assert Snapshots(s2.rows, [AN_EVENT]) == [Snapshot(AN_EVENT, 1)] by { assert [AN_EVENT][1..] == []; }
    var s3 := Step(s2, events[2], name);
    var c := Contended(a, b, 0, name);
    assert s3.claims[AN_EVENT] == c.claims[AN_EVENT];
    assert s3.rows == c.rows && s3.claims == c.claims && s3.dispatchers == c.dispatchers;
    NoEvents(EMPTY, name);
    RunSnoc(EMPTY, [], events[0], name);
    RunSnoc(EMPTY, [events[0]], events[1], name);
    RunSnoc(EMPTY, [events[0], events[1]], events[2], name);
    assert [] + [events[0]] == [events[0]] && [events[0]] + [events[1]] == [events[0], events[1]];
    assert [events[0], events[1]] + [events[2]] == events;
  }

  /** The lock of the last claim is stale for the next one, which stops again. */
  lemma NextClaim(a: Id, b: Id, k: nat, name: Id -> Id)
    requires a != b
    ensures Step(Step(Contended(a, b, k, name), Claim(b, [AN_EVENT], k + 1, k + 1), name), Stop(b), name)
         == Contended(a, b, k + 1, name)
  {
    hide IsUuid, JobId, Units;
    var c := Contended(a, b, k + 1, name);
    var t := Step(Step(Contended(a, b, k, name), Claim(b, [AN_EVENT], k + 1, k + 1), name), Stop(b), name);
    assert t.claims[AN_EVENT] == c.claims[AN_EVENT];
    assert t.rows == c.rows && t.claims == c.claims && t.dispatchers == c.dispatchers;
  }

  lemma {:induction false} Contends(a: Id, b: Id, k: nat, name: Id -> Id)
    requires a != b
    ensures Run(EMPTY, Contention(a, b, k), name) == Contended(a, b, k, name)
  {
    hide Run, Step, Contended;
    if k == 0 {
      FirstClaim(a, b, name);
      assert Contention(a, b, 0) == [Emit(AN_EVENT, 0, 0, true), Claim(a, [AN_EVENT], 0, 0), Load(a)];
    } else {
      Contends(a, b, k - 1, name);
      NextClaim(a, b, k - 1, name);
      var c := Claim(b, [AN_EVENT], k, k);
      RunSnoc(EMPTY, Contention(a, b, k - 1), c, name);
      RunSnoc(EMPTY, Contention(a, b, k - 1) + [c], Stop(b), name);
      assert Contention(a, b, k) == Contention(a, b, k - 1) + [c] + [Stop(b)];
    }
  }

  /** Under a shared name a settles what b claimed last: it puts an event back that was claimed five times. */
  lemma SharedNameBreaksIt(a: Id, b: Id, name: Id -> Id)
    requires a != b && name(a) == name(b)
    ensures var events := Contention(a, b, 4) + [Route(a, Lost(false))];
      && !SettledByLatest(events, Retreat(a, 5), name, AN_EVENT)
      && !FourWhilePending(events + [Retreat(a, 5)], name, AN_EVENT)
  {
    hide Run, IsUuid, JobId, Units, Contention;
    var route := Route(a, Lost(false));
    Contends(a, b, 4, name);
    RunSnoc(EMPTY, Contention(a, b, 4), route, name);
    RunSnoc(EMPTY, Contention(a, b, 4) + [route], Retreat(a, 5), name);
    var s := Step(Contended(a, b, 4, name), route, name);
    assert s.rows == Contended(a, b, 4, name).rows;
    assert s.claims[AN_EVENT][4] == b;
    assert s.dispatchers[a] == Retreating([Snapshot(AN_EVENT, 1)]);
  }

  /** That only the latest claimant settles an event holds exactly for dispatchers with distinct names. */
  lemma LatestClaimantSettles(name: Id -> Id)
    ensures DistinctNames(name) <==> forall events, e, id :: SettledByLatest(events, e, name, id)
  {
    hide SettledByLatest;
    if DistinctNames(name) {
      forall events, e, id ensures SettledByLatest(events, e, name, id) { LatestSettles(events, e, name, id); }
    } else {
      var a, b :| name(a) == name(b) && a != b;
      SharedNameBreaksIt(a, b, name);
    }
  }

  /** And so does the limit of four claims on a PENDING event. */
  lemma FourAttemptsWhilePending(name: Id -> Id)
    ensures DistinctNames(name) <==> forall events, id :: FourWhilePending(events, name, id)
  {
    hide FourWhilePending;
    if DistinctNames(name) {
      forall events, id ensures FourWhilePending(events, name, id) { FourAttempts(events, name, id); }
    } else {
      var a, b :| name(a) == name(b) && a != b;
      SharedNameBreaksIt(a, b, name);
    }
  }
}
