/**
 What one run of an email job comes to, answer by answer: whether the mail adapter is entered, what is
 written about the attempt and its log, which error is thrown and what becomes of the job.
 */
module EmailDecisions {
  import opened Email
  import opened Options

  /** What the resolver, the database, the abort signal, the adapter and the queue answer in one run. */
  datatype Answers = Answers(
    resolve: Option<Kind>, claimStored: bool, aborted: bool, sent: Answer, sentStored: bool, failureStored: bool,
    reportWritten: bool, again: bool)

  /** What a delivery leaves behind, and the kind of the error it throws. */
  datatype Made = Made(log: Option<Log>, attempts: seq<Attempt>, sends: seq<nat>, thrown: Option<Kind>)

  /** Attempts that were begun and never finished have an unknown outcome. */
  function GivenUp(attempts: seq<Attempt>): seq<Attempt> {
    if attempts == [] then []
    else [if attempts[0].status == Started then Attempt(attempts[0].number, Unknown) else attempts[0]] + GivenUp(attempts[1..])
  }

  /** A new attempt that failed this way; when even that cannot be written, it stays begun. */
  function FailedAttempt(s: State, count: nat, sends: seq<nat>, kind: Kind, stored: bool): Made {
    var status := if kind == Inconsistent then Unknown else Refused;
    if stored then Made(Some(Log(Failed, count)), s.attempts + [Attempt(count, status)], sends, Some(kind))
    else Made(Some(Log(Sending, count)), s.attempts + [Attempt(count, Started)], sends, Some(Temporary))
  }

  /** A new attempt; only an answer that was accepted and stored makes it SENT. */
  function FreshAttempt(s: State, count: nat, a: Answers): Made {
    var sends := s.sends + [|s.attempts|];
    if a.aborted then FailedAttempt(s, count, s.sends, Temporary, a.failureStored)
    else if a.sent.Threw? then FailedAttempt(s, count, sends, a.sent.kind, a.failureStored)
    else if !a.sentStored then FailedAttempt(s, count, sends, Inconsistent, a.failureStored)
    else Made(Some(Log(Sent, count)), s.attempts + [Attempt(count, Delivered)], sends, None)
  }

  /** One delivery, by what its log says. */
  function DeliveryMakes(s: State, a: Answers): Made {
    if a.resolve.Some? then Made(s.log, s.attempts, s.sends, a.resolve)
    else if !a.claimStored then Made(s.log, s.attempts, s.sends, Some(Temporary))
    else
      match s.log
      case None => FreshAttempt(s, 1, a)
      case Some(Log(Sent, count)) => Made(s.log, s.attempts, s.sends, None)
      case Some(Log(Sending, count)) => Made(Some(Log(Failed, count)), GivenUp(s.attempts), s.sends, Some(Inconsistent))
      case Some(Log(_, count)) => FreshAttempt(s, count + 1, a)
  }

  lemma SameDelivery(s: State, t: State, a: Answers)
    requires t.log == s.log && t.attempts == s.attempts && t.sends == s.sends
    ensures DeliveryMakes(t, a) == DeliveryMakes(s, a)
  {
    hide GivenUp;
  }

  /** The job after the run: done, waiting for another one, or dead. */
  function JobAfter(job: Job, thrown: Option<Kind>, a: Answers): Job {
    if thrown == None then Job(Succeeded, job.failureKind)
    else if !a.reportWritten then Job(if a.again then Waiting else Dead, job.failureKind)
    else Job(if thrown == Some(Temporary) && a.again then Waiting else Dead, thrown)
  }

  function AfterRun(s: State, a: Answers): State {
    var made := DeliveryMakes(s, a);
    State(made.log, made.attempts, JobAfter(s.job, made.thrown, a), Idle, made.sends)
  }

  // ----- the protocol comes to the same -------------------------------------------------------

  lemma {:induction false} GivenUpIsAbandoned(attempts: seq<Attempt>)
    ensures GivenUp(attempts) == Abandoned(attempts)
  {
    if attempts != [] {
      GivenUpIsAbandoned(attempts[1..]);
      assert Abandoned(attempts)[1..] == Abandoned(attempts[1..]);
      assert Abandoned(attempts) == [Abandoned(attempts)[0]] + Abandoned(attempts)[1..];
    }
  }

  /** The steps of one run in order; those that are not next do nothing. */
  function RunEvents(a: Answers): seq<Event> {
    [Start(a.resolve), Claim(a.claimStored), Check(a.aborted), Send(a.sent), Store(a.sentStored), Record(a.failureStored),
     Report(a.reportWritten, a.again), Finish]
  }

  lemma RunEight(s: State, es: seq<Event>)
    requires |es| == 8
    ensures Run(s, es) == Step(Step(Step(Step(Step(Step(Step(Step(s, es[0]), es[1]), es[2]), es[3]), es[4]), es[5]), es[6]), es[7])
  {
    hide Step;
    RunFour(s, es[..4]);
    var t := Run(s, es[..4]);
    RunFour(t, es[4..]);
    RunJoin(s, es[..4], es[4..]);
    assert es[..4] + es[4..] == es;
  }

  lemma RunFour(s: State, es: seq<Event>)
    requires |es| == 4
    ensures Run(s, es) == Step(Step(Step(Step(s, es[0]), es[1]), es[2]), es[3])
  {
    hide Step;
    assert es[1..][1..] == es[2..] && es[2..][1..] == es[3..] && es[3..][1..] == [];
    assert Run(s, es) == Run(Step(s, es[0]), es[1..]);
    var t := Step(s, es[0]);
    assert Run(t, es[1..]) == Run(Step(t, es[1]), es[2..]);
    var u := Step(t, es[1]);
    assert Run(u, es[2..]) == Run(Step(u, es[2]), es[3..]);
    var v := Step(u, es[2]);
    assert Run(v, es[3..]) == Run(Step(v, es[3]), []);
  }

  lemma {:induction false} RunJoin(s: State, xs: seq<Event>, ys: seq<Event>)
    ensures Run(s, xs + ys) == Run(Run(s, xs), ys)
    decreases |xs|
  {
    hide Step;
    if xs == [] {
      assert xs + ys == ys;
    } else {
      RunJoin(Step(s, xs[0]), xs[1..], ys);
      assert (xs + ys)[1..] == xs[1..] + ys;
    }
  }

  /** The run with what it made, about to report or to finish. */
  function Finished(s: State, made: Made): State {
    State(made.log, made.attempts, s.job.(state := Running),
          match made.thrown case None => Finishing case Some(kind) => Reporting(kind), made.sends)
  }

  lemma BeginDecides(s: State, a: Answers)
    requires s.job.state == Waiting && s.stage == Idle
    ensures var u := Step(Step(s, Start(a.resolve)), Claim(a.claimStored));
      if a.resolve != None || !a.claimStored || LogOf(s.log).status in {Sent, Sending} then
        u == Finished(s, DeliveryMakes(s, a))
      else
        u == s.(log := Some(Log(Sending, LogOf(s.log).attemptCount + 1)),
                attempts := s.attempts + [Attempt(LogOf(s.log).attemptCount + 1, Started)],
                job := s.job.(state := Running), stage := Checking(|s.attempts|))
  {
    hide Abandoned, GivenUp;
    GivenUpIsAbandoned(s.attempts);
  }

  lemma SettledLast(s: State, u: State, attempt: AttemptStatus, log: LogStatus)
    requires u.log.Some? && |u.attempts| == |s.attempts| + 1 && u.attempts[..|s.attempts|] == s.attempts
    ensures Settled(u, |s.attempts|, attempt, log)
         == u.(attempts := s.attempts + [Attempt(u.attempts[|s.attempts|].number, attempt)],
               log := Some(Log(log, u.log.value.attemptCount)))
  {
  }

  /** From a fresh attempt to its report. */
  lemma AttemptDecides(s: State, u: State, count: nat, a: Answers)
    requires u == s.(log := Some(Log(Sending, count)), attempts := s.attempts + [Attempt(count, Started)],
                     job := s.job.(state := Running), stage := Checking(|s.attempts|))
    ensures Step(Step(Step(Step(u, Check(a.aborted)), Send(a.sent)), Store(a.sentStored)), Record(a.failureStored))
         == Finished(s, FreshAttempt(s, count, a))
  {
    hide Settled;
    var sends := s.sends + [|s.attempts|];
    forall v: State, attempt: AttemptStatus, log: LogStatus | v.log == u.log && v.attempts == u.attempts
      ensures Settled(v, |s.attempts|, attempt, log)
           == v.(attempts := s.attempts + [Attempt(count, attempt)], log := Some(Log(log, count)))
    {
      SettledLast(s, v, attempt, log);
    }
  }

  lemma NothingMore(u: State, a: Answers)
    requires u.stage.Reporting? || u.stage.Finishing?
    ensures Step(Step(Step(Step(u, Check(a.aborted)), Send(a.sent)), Store(a.sentStored)), Record(a.failureStored)) == u
  {
  }

  lemma EndDecides(s: State, made: Made, a: Answers)
    ensures Step(Step(Finished(s, made), Report(a.reportWritten, a.again)), Finish)
         == State(made.log, made.attempts, JobAfter(s.job, made.thrown, a), Idle, made.sends)
  {
  }

  /** A run of the protocol ends where the answers say. */
  lemma RunDecides(s: State, a: Answers)
    requires s.job.state == Waiting && s.stage == Idle
    ensures Run(s, RunEvents(a)) == AfterRun(s, a)
  {
    hide Run, Step, Abandoned, GivenUp, FreshAttempt, JobAfter;
    RunEight(s, RunEvents(a));
    BeginDecides(s, a);
    var u := Step(Step(s, Start(a.resolve)), Claim(a.claimStored));
    EndDecides(s, DeliveryMakes(s, a), a);
    if u.stage.Checking? {
      AttemptDecides(s, u, LogOf(s.log).attemptCount + 1, a);
    } else {
      NothingMore(u, a);
    }
  }

  /** Nothing is thrown exactly when the log is SENT, and the adapter is entered at most once, for the newest attempt. */
  lemma DeliveryMeans(s: State, a: Answers)
    ensures var made := DeliveryMakes(s, a);
      && (made.thrown == None ==> made.log.Some? && made.log.value.status == Sent)
      && (a.resolve == None && a.claimStored && made.log.Some? && made.log.value.status == Sent ==> made.thrown == None)
      && (made.sends == s.sends || (made.sends == s.sends + [|s.attempts|] && |made.attempts| == |s.attempts| + 1))
  {
    hide GivenUp;
  }
}
