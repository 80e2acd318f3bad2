/**
 Delivering the email of one outbox event: its log, its attempts and its queue job
 (apps/worker/src/email/email-delivery.service.ts, packages/queue/src/background-worker.ts and the manual
 retry of apps/api/src/modules/background-jobs/background-job.service.ts).

 The queue runs one delivery of a job at a time.  A run may be interrupted between any two steps, and the
 queue may then run the job again.
 */
module Email {
  import opened Options

  datatype Kind = Temporary | Permanent | Inconsistent

  datatype LogStatus = Queued | Sending | Sent | Failed

  datatype Log = Log(status: LogStatus, attemptCount: nat)

  datatype AttemptStatus = Started | Delivered | Refused | Unknown

  datatype Attempt = Attempt(number: nat, status: AttemptStatus)

  datatype JobState = Waiting | Running | Succeeded | Dead

  /** failureKind is what the last failed run wrote into the job. */
  datatype Job = Job(state: JobState, failureKind: Option<Kind>)

  /** Where the run is; i is the attempt it claimed. */
  datatype Stage =
    | Idle
    | Claiming
    | Checking(i: nat)
    | Handing(i: nat)
    | Storing(i: nat)
    | Recording(i: nat, kind: Kind)
    | Reporting(kind: Kind)
    | Finishing

  /** sends lists the attempts for which the mail adapter was entered. */
  datatype State = State(log: Option<Log>, attempts: seq<Attempt>, job: Job, stage: Stage, sends: seq<nat>)

  datatype Answer = Accepted | Threw(kind: Kind)

  datatype Event =
    | Start(error: Option<Kind>)
    | Claim(stored: bool)
    | Check(aborted: bool)
    | Send(answer: Answer)
    | Store(stored: bool)
    | Record(stored: bool)
    | Report(written: bool, again: bool)
    | Finish
    | Interrupt(again: bool)
    | RetryByHand

  // ----- the transactions ---------------------------------------------------------------------

  datatype Claimed = AlreadySent | OutcomeUnknown | Fresh(attempt: nat)

  function LogOf(log: Option<Log>): Log {
    match log case Some(l) => l case None => Log(Queued, 0)
  }

  function ClaimAnswer(log: Option<Log>, attempts: seq<Attempt>): Claimed {
    match LogOf(log).status
    case Sent => AlreadySent
    case Sending => OutcomeUnknown
    case _ => Fresh(|attempts|)
  }

  /** Every attempt that was left STARTED becomes one of unknown outcome. */
  function Abandoned(attempts: seq<Attempt>): (r: seq<Attempt>)
    ensures |r| == |attempts|
    ensures forall k | 0 <= k < |attempts| ::
              r[k] == (if attempts[k].status == Started then attempts[k].(status := Unknown) else attempts[k])
  {
    seq(|attempts|, k requires 0 <= k < |attempts| =>
      if attempts[k].status == Started then attempts[k].(status := Unknown) else attempts[k])
  }

  function ClaimedLog(log: Option<Log>): Log {
    var l := LogOf(log);
    match l.status
    case Sent => l
    case Sending => l.(status := Failed)
    case _ => Log(Sending, l.attemptCount + 1)
  }

  function ClaimedAttempts(log: Option<Log>, attempts: seq<Attempt>): seq<Attempt> {
    match LogOf(log).status
    case Sent => attempts
    case Sending => Abandoned(attempts)
    case _ => attempts + [Attempt(LogOf(log).attemptCount + 1, Started)]
  }

  function FailureStatus(kind: Kind): AttemptStatus {
    if kind == Inconsistent then Unknown else Refused
  }

  function Settled(s: State, i: nat, attempt: AttemptStatus, log: LogStatus): State {
    if i >= |s.attempts| || s.log.None? then s
    else s.(attempts := s.attempts[i := s.attempts[i].(status := attempt)], log := Some(s.log.value.(status := log)))
  }

  // ----- the protocol -------------------------------------------------------------------------

  function At(s: State, stage: Stage): State {
    s.(stage := stage)
  }

  /** The run is over; the job waits for another one or is dead. */
  function Over(s: State, again: bool): State {
    s.(stage := Idle, job := s.job.(state := if again then Waiting else Dead))
  }

  function Reported(s: State, kind: Kind, written: bool, again: bool): State {
    if !written then Over(s, again)
    else
      var t := s.(job := s.job.(failureKind := Some(kind)));
      Over(t, kind == Temporary && again)
  }

  function Step(s: State, e: Event): State {
    match e
    case Start(error) =>
      if s.job.state != Waiting || s.stage != Idle then s
      else s.(job := s.job.(state := Running),
              stage := match error case None => Claiming case Some(kind) => Reporting(kind))
    case Claim(stored) =>
      if s.stage != Claiming then s
      else if !stored then At(s, Reporting(Temporary))
      else
        s.(log := Some(ClaimedLog(s.log)), attempts := ClaimedAttempts(s.log, s.attempts),
           stage := match ClaimAnswer(s.log, s.attempts)
                    case AlreadySent => Finishing
                    case OutcomeUnknown => Reporting(Inconsistent)
                    case Fresh(i) => Checking(i))
    case Check(aborted) =>
      if !s.stage.Checking? then s
      else At(s, if aborted then Recording(s.stage.i, Temporary) else Handing(s.stage.i))
    case Send(answer) =>
      if !s.stage.Handing? then s
      else
        At(s, match answer case Accepted => Storing(s.stage.i) case Threw(kind) => Recording(s.stage.i, kind)).(
          sends := s.sends + [s.stage.i])
    case Store(stored) =>
      if !s.stage.Storing? then s
      else if !stored then At(s, Recording(s.stage.i, Inconsistent))
      else At(Settled(s, s.stage.i, Delivered, Sent), Finishing)
    case Record(stored) =>
      if !s.stage.Recording? then s
      else if !stored then At(s, Reporting(Temporary))
      else At(Settled(s, s.stage.i, FailureStatus(s.stage.kind), Failed), Reporting(s.stage.kind))
    case Report(written, again) => if !s.stage.Reporting? then s else Reported(s, s.stage.kind, written, again)
    case Finish => if s.stage != Finishing then s else s.(stage := Idle, job := s.job.(state := Succeeded))
    case Interrupt(again) => if s.stage == Idle then s else Over(s, again)
    case RetryByHand =>
      if s.job.state == Dead && s.job.failureKind == Some(Temporary) && s.stage == Idle
      then s.(job := s.job.(state := Waiting)) else s
  }

  function Run(s: State, events: seq<Event>): State
    decreases |events|
  {
    if events == [] then s else Run(Step(s, events[0]), events[1..])
  }

  const QUEUED: State := State(None, [], Job(Waiting, None), Idle, [])

  // ----- the invariant ------------------------------------------------------------------------

  ghost predicate Numbered(s: State) {
    && LogOf(s.log).attemptCount == |s.attempts|
    && (forall i | 0 <= i < |s.attempts| :: s.attempts[i].number == i + 1)
  }

  function LastStatus(s: State): Option<AttemptStatus> {
    if s.attempts == [] then None else Some(s.attempts[|s.attempts| - 1].status)
  }

  /** The log mirrors its last attempt, and earlier attempts are over and were not delivered. */
  ghost predicate Mirrored(s: State) {
    && (LogOf(s.log).status == Sending <==> LastStatus(s) == Some(Started))
    && (LogOf(s.log).status == Sent <==> LastStatus(s) == Some(Delivered))
    && (forall i | 0 <= i < |s.attempts| - 1 :: s.attempts[i].status != Started && s.attempts[i].status != Delivered)
  }

  predicate Holding(stage: Stage) {
    stage.Checking? || stage.Handing? || stage.Storing? || stage.Recording?
  }

  ghost predicate Placed(s: State) {
    && (s.stage == Idle <==> s.job.state != Running)
    && (Holding(s.stage) ==> s.stage.i == |s.attempts| - 1 && LastStatus(s) == Some(Started))
  }

  ghost predicate SentOnce(s: State) {
    && (forall k | 0 <= k < |s.sends| :: s.sends[k] < |s.attempts|)
    && (forall k, l | 0 <= k < l < |s.sends| :: s.sends[k] < s.sends[l])
    && (s.stage.Checking? || s.stage.Handing? ==> forall k | 0 <= k < |s.sends| :: s.sends[k] < s.stage.i)
  }

  ghost predicate Inv(s: State) {
    Numbered(s) && Mirrored(s) && Placed(s) && SentOnce(s)
  }

  lemma StepKeeps(s: State, e: Event)
    requires Inv(s)
    ensures Inv(Step(s, e))
  {
    StepKeepsNumbers(s, e);
    StepKeepsMirror(s, e);
    StepKeepsSends(s, e);
  }

  lemma StepKeepsNumbers(s: State, e: Event)
    requires Inv(s)
    ensures Numbered(Step(s, e))
  {
    hide SentOnce;
  }

  lemma StepKeepsMirror(s: State, e: Event)
    requires Inv(s)
    ensures Mirrored(Step(s, e)) && Placed(Step(s, e))
  {
    hide SentOnce;
  }

  lemma StepKeepsSends(s: State, e: Event)
    requires Inv(s)
    ensures SentOnce(Step(s, e))
  {
    hide Mirrored;
  }

  lemma {:induction false} RunKeeps(s: State, events: seq<Event>)
    requires Inv(s)
    ensures Inv(Run(s, events))
    decreases |events|
  {
    hide Inv, Step;
    if events != [] {
      StepKeeps(s, events[0]);
      RunKeeps(Step(s, events[0]), events[1..]);
    }
  }

  lemma NothingYet()
    ensures Inv(QUEUED)
  {
  }

  // ----- what holds in every run --------------------------------------------------------------

  /**
   Attempts are numbered 1 to attemptCount, the log is SENDING exactly while one attempt is STARTED, and
   SENT exactly when the last attempt was delivered.
   */
  lemma LogMirrorsAttempts(events: seq<Event>)
    ensures var s := Run(QUEUED, events);
      && LogOf(s.log).attemptCount == |s.attempts|
      && (forall i | 0 <= i < |s.attempts| :: s.attempts[i].number == i + 1)
      && (LogOf(s.log).status == Sending <==> exists i | 0 <= i < |s.attempts| :: s.attempts[i].status == Started)
      && (forall i, j | 0 <= i < |s.attempts| && 0 <= j < |s.attempts|
            && s.attempts[i].status == Started && s.attempts[j].status == Started :: i == j)
      && (LogOf(s.log).status == Sent <==> LastStatus(s) == Some(Delivered))
  {
    hide Run, Step, SentOnce, Placed;
    NothingYet();
    RunKeeps(QUEUED, events);
    var s := Run(QUEUED, events);
    if LastStatus(s) == Some(Started) { assert s.attempts[|s.attempts| - 1].status == Started; }
  }

  /** The adapter is entered at most once for an attempt. */
  lemma OneSendPerAttempt(events: seq<Event>)
    ensures var s := Run(QUEUED, events);
      forall k, l | 0 <= k < l < |s.sends| :: s.sends[k] != s.sends[l]
  {
    hide Run, Step, Numbered, Mirrored, Placed;
    NothingYet();
    RunKeeps(QUEUED, events);
  }

  lemma SentStaysOnce(s: State, e: Event)
    requires Inv(s) && LogOf(s.log).status == Sent
    ensures Step(s, e).log == s.log && Step(s, e).attempts == s.attempts && Step(s, e).sends == s.sends
  {
    hide SentOnce, Numbered;
  }

  /** Once SENT, neither the log nor an attempt changes and nothing is sent again. */
  lemma {:induction false} SentStays(s: State, events: seq<Event>)
    requires Inv(s) && LogOf(s.log).status == Sent
    ensures var t := Run(s, events); t.log == s.log && t.attempts == s.attempts && t.sends == s.sends
    decreases |events|
  {
    hide Inv, Step;
    if events != [] {
      SentStaysOnce(s, events[0]);
      StepKeeps(s, events[0]);
      SentStays(Step(s, events[0]), events[1..]);
    }
  }

  // ----- attempts of unknown outcome ----------------------------------------------------------

  /** The run ends after an unknown outcome was recorded and before the queue learned of it. */
  predicate Forgets(s: State, e: Event) {
    s.stage == Reporting(Inconsistent) && (e.Interrupt? || (e.Report? && !e.written))
  }

  /** It may have its job run again then: by the queue, or by hand if an earlier run failed for a temporary reason. */
  predicate Repeats(s: State, e: Event) {
    Forgets(s, e) && (e.again || s.job.failureKind == Some(Temporary))
  }

  ghost predicate NeverRepeats(s: State, events: seq<Event>)
    decreases |events|
  {
    events != [] ==> !Repeats(s, events[0]) && NeverRepeats(Step(s, events[0]), events[1..])
  }

  /** The job has failed and nothing will run it again. */
  predicate Closed(s: State) {
    s.stage == Idle && s.job.state == Dead && s.job.failureKind != Some(Temporary)
  }

  /** Only the last attempt may have an unknown outcome, and then the job runs no more. */
  ghost predicate UnknownEnds(s: State) {
    && (forall i | 0 <= i < |s.attempts| - 1 :: s.attempts[i].status != Unknown)
    && (LastStatus(s) == Some(Unknown) ==> s.stage == Reporting(Inconsistent) || Closed(s))
  }

  lemma UnknownEndsOnce(s: State, e: Event)
    requires Inv(s) && UnknownEnds(s) && !Repeats(s, e)
    ensures UnknownEnds(Step(s, e))
  {
    hide SentOnce, Numbered;
  }

  lemma {:induction false} UnknownEndsAlways(s: State, events: seq<Event>)
    requires Inv(s) && UnknownEnds(s) && NeverRepeats(s, events)
    ensures UnknownEnds(Run(s, events))
    decreases |events|
  {
    hide Inv, Step, UnknownEnds, Repeats;
    if events != [] {
      UnknownEndsOnce(s, events[0]);
      StepKeeps(s, events[0]);
      UnknownEndsAlways(Step(s, events[0]), events[1..]);
    }
  }

  /** While that never happens, an attempt of unknown outcome is the last one there will be. */
  lemma UnknownIsLast(events: seq<Event>, i: nat)
    requires NeverRepeats(QUEUED, events)
    requires i < |Run(QUEUED, events).attempts| && Run(QUEUED, events).attempts[i].status == Unknown
    ensures i == |Run(QUEUED, events).attempts| - 1
  {
    hide Run, Step, NeverRepeats;
    UnknownEndsAlways(QUEUED, events);
  }

  /** And no later event, manual retries included, adds another attempt or enters the adapter again. */
  lemma {:induction false} UnknownStays(s: State, events: seq<Event>)
    requires Inv(s) && UnknownEnds(s) && LastStatus(s) == Some(Unknown) && NeverRepeats(s, events)
    ensures Run(s, events).attempts == s.attempts && Run(s, events).sends == s.sends
    decreases |events|
  {
    hide Inv, SentOnce, Mirrored, Numbered;
    if events != [] {
      UnknownEndsOnce(s, events[0]);
      StepKeeps(s, events[0]);
      assert Step(s, events[0]).attempts == s.attempts && Step(s, events[0]).sends == s.sends;
      UnknownStays(Step(s, events[0]), events[1..]);
    }
  }

  lemma ClosedStaysOnce(s: State, e: Event)
    requires Closed(s)
    ensures Step(s, e) == s
  {
  }

  lemma {:induction false} ClosedStays(s: State, events: seq<Event>)
    requires Closed(s)
    ensures Run(s, events) == s
    decreases |events|
  {
    hide Closed, Step;
    if events != [] {
      ClosedStaysOnce(s, events[0]);
      ClosedStays(s, events[1..]);
    }
  }

  /** Some continuation attempts the email again. */
  ghost predicate AttemptedAgain(s: State) {
    exists events :: |Run(s, events).attempts| > |s.attempts|
  }

  lemma RepeatedByTheQueue(s: State)
    requires Inv(s) && LastStatus(s) == Some(Unknown) && s.stage == Idle && s.job.state == Waiting
    ensures AttemptedAgain(s)
  {
    hide SentOnce;
    var t := Step(s, Start(None));
    RunOnward(s, Start(None), [Claim(true)]);
    RunOnward(t, Claim(true), []);
    assert |Run(s, [Start(None)] + [Claim(true)]).attempts| == |s.attempts| + 1;
  }

  lemma RepeatedByHand(s: State)
    requires Inv(s) && LastStatus(s) == Some(Unknown) && s.stage == Idle && s.job == Job(Dead, Some(Temporary))
    ensures AttemptedAgain(s)
  {
    hide Inv, Run, LastStatus;
    StepKeeps(s, RetryByHand);
    var t := Step(s, RetryByHand);
    assert LastStatus(t) == LastStatus(s) by { SameLast(s, t); }
    RepeatedByTheQueue(t);
    var events :| |Run(t, events).attempts| > |t.attempts|;
    RunOnward(s, RetryByHand, events);
    assert |Run(s, [RetryByHand] + events).attempts| > |s.attempts|;
  }

  lemma SameLast(s: State, t: State)
    requires s.attempts == t.attempts
    ensures LastStatus(s) == LastStatus(t)
  {
  }

  /**
   When a run ends with an unknown outcome to tell the queue, the email can be attempted again exactly if
   the queue does not learn of it and runs the job again, or had recorded a temporary failure before, which
   lets the job be retried by hand.
   */
  lemma UnknownIsLastExactly(s: State, e: Event)
    requires Inv(s) && LastStatus(s) == Some(Unknown) && s.stage == Reporting(Inconsistent) && (e.Report? || e.Interrupt?)
    ensures AttemptedAgain(Step(s, e)) <==> Repeats(s, e)
  {
    hide Inv, Run, AttemptedAgain;
    StepKeeps(s, e);
    var t := Step(s, e);
    SameLast(s, t);
    if Repeats(s, e) {
      if t.job.state == Waiting { RepeatedByTheQueue(t); } else { RepeatedByHand(t); }
    } else {
      assert Closed(t);
      NotAttemptedAgain(t);
    }
  }

  lemma NotAttemptedAgain(s: State)
    requires Closed(s)
    ensures !AttemptedAgain(s)
  {
    hide Run;
    forall events ensures |Run(s, events).attempts| == |s.attempts| { ClosedStays(s, events); }
  }

  // ----- both ways are open -------------------------------------------------------------------

  ghost predicate Reachable(s: State) {
    exists events :: Run(QUEUED, events) == s
  }

  lemma Reaches(s: State, e: Event)
    requires Reachable(s)
    ensures Reachable(Step(s, e))
  {
    hide Step;
    var events :| Run(QUEUED, events) == s;
    RunSnoc(QUEUED, events, e);
  }

  /** An ordinary send whose answer never comes. */
  lemma SendsIntoTheUnknown(s: State) returns (t: State)
    requires Reachable(s) && Inv(s) && s.stage == Idle && s.job.state == Waiting
    requires LogOf(s.log).status != Sent && LogOf(s.log).status != Sending
    ensures Reachable(t) && LastStatus(t) == Some(Unknown) && t.stage == Reporting(Inconsistent)
    ensures t.job.failureKind == s.job.failureKind
  {
    hide Reachable, SentOnce;
    t := s;
    Reaches(t, Start(None));
    t := Step(t, Start(None));
    Reaches(t, Claim(true));
    t := Step(t, Claim(true));
    Reaches(t, Check(false));
    t := Step(t, Check(false));
    Reaches(t, Send(Threw(Inconsistent)));
    t := Step(t, Send(Threw(Inconsistent)));
    Reaches(t, Record(true));
    t := Step(t, Record(true));
  }

  /** A first run that is aborted before it sends, and is tried again. */
  lemma FailsForNow() returns (t: State)
    ensures Reachable(t) && Inv(t) && t.stage == Idle && t.job == Job(Waiting, Some(Temporary)) && LogOf(t.log).status == Failed
  {
    hide Reachable, SentOnce;
    QueuedIsReachable();
    t := QUEUED;
    Reaches(t, Start(None));
    t := Step(t, Start(None));
    Reaches(t, Claim(true));
    t := Step(t, Claim(true));
    Reaches(t, Check(true));
    t := Step(t, Check(true));
    Reaches(t, Record(true));
    t := Step(t, Record(true));
    Reaches(t, Report(true, true));
    t := Step(t, Report(true, true));
    ReachableKeeps(t);
  }

  lemma QueuedIsReachable()
    ensures Reachable(QUEUED)
  {
    NoEvents(QUEUED);
  }

  lemma ReachableKeeps(s: State)
    requires Reachable(s)
    ensures Inv(s)
  {
    hide Inv, Run;
    NothingYet();
    var events :| Run(QUEUED, events) == s;
    RunKeeps(QUEUED, events);
  }

  /** The queue can run it again after a first run, and after a temporary failure it can be retried by hand. */
  lemma RepeatingIsReachable()
    ensures exists s :: Reachable(s) && LastStatus(s) == Some(Unknown) && Repeats(s, Interrupt(true))
    ensures exists s :: Reachable(s) && LastStatus(s) == Some(Unknown) && Repeats(s, Interrupt(false))
  {
    hide Reachable, Inv;
    QueuedIsReachable();
    NothingYet();
    var first := SendsIntoTheUnknown(QUEUED);
    assert Repeats(first, Interrupt(true));
    var aborted := FailsForNow();
    var second := SendsIntoTheUnknown(aborted);
    assert Repeats(second, Interrupt(false));
  }

  lemma NoEvents(s: State)
    ensures Run(s, []) == s
  {
  }

  lemma {:induction false} RunSnoc(s: State, events: seq<Event>, e: Event)
    ensures Run(s, events + [e]) == Step(Run(s, events), e)
    decreases |events|
  {
    hide Step;
    if events == [] {
      assert [e][1..] == [];
    } else {
      RunSnoc(Step(s, events[0]), events[1..], e);
      assert (events + [e])[1..] == events[1..] + [e];
    }
  }

  lemma RunOnward(s: State, e: Event, events: seq<Event>)
    ensures Run(s, [e] + events) == Run(Step(s, e), events)
    ensures events == [] ==> Run(s, [e]) == Step(s, e)
  {
    hide Step;
    assert ([e] + events)[1..] == events;
    if events == [] { assert [e] + events == [e]; }
  }
}
