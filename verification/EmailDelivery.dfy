/**
 The delivery service and the queue worker around it as they are written
 (apps/worker/src/email/email-delivery.service.ts and packages/queue/src/background-worker.ts), proved to
 take the steps of the email protocol.
 */
module EmailDelivery {
  import opened Email
  import opened EmailDecisions
  import opened Options

  /** An event of one run, with the answer it gets; an interruption is not one of them. */
  predicate Allowed(e: Event, answers: Answers) {
    match e
    case Start(error) => error == answers.resolve
    case Claim(stored) => stored == answers.claimStored
    case Check(aborted) => aborted == answers.aborted
    case Send(answer) => answer == answers.sent
    case Store(stored) => stored == answers.sentStored
    case Record(stored) => stored == answers.failureStored
    case Report(written, again) => written == answers.reportWritten && again == answers.again
    case Finish => true
    case _ => false
  }

  ghost predicate Truthful(trace: seq<Event>, answers: Answers) {
    forall i | 0 <= i < |trace| :: Allowed(trace[i], answers)
  }

  class Delivery {
    var log: Option<Log>
    var attempts: seq<Attempt>
    var job: Job
    ghost var stage: Stage
    ghost var sends: seq<nat>

    constructor ()
      ensures Contents() == QUEUED
    {
      log, attempts, job := None, [], Job(Waiting, None);
      stage, sends := Idle, [];
    }

    ghost function Contents(): State
      reads this
    {
      State(log, attempts, job, stage, sends)
    }

    /** The claiming transaction. */
    method ClaimAttempt() returns (claim: Claimed)
      requires Numbered(Contents())
      modifies this`log, this`attempts
      ensures claim == ClaimAnswer(old(log), old(attempts))
      ensures log == Some(ClaimedLog(old(log))) && attempts == ClaimedAttempts(old(log), old(attempts))
    {
      var emailLog := match log case Some(l) => l case None => Log(Queued, 0);
      log := Some(emailLog);
      if emailLog.status == Sent { return AlreadySent; }
      if emailLog.status == Sending {
        attempts := MarkStarted();
        log := Some(emailLog.(status := Failed));
        return OutcomeUnknown;
      }
      var number := emailLog.attemptCount + 1;
      var attempt := |attempts|;
      attempts := attempts + [Attempt(number, Started)];
      log := Some(Log(Sending, number));
      return Fresh(attempt);
    }

    /** updateMany on the attempts still STARTED. */
    method MarkStarted() returns (marked: seq<Attempt>)
      ensures marked == Abandoned(attempts)
    {
      marked := [];
      for k := 0 to |attempts|
        invariant |marked| == k && marked == Abandoned(attempts)[..k]
      {
        marked := marked + [if attempts[k].status == Started then attempts[k].(status := Unknown) else attempts[k]];
      }
    }

    /** An attempt and its log are settled together. */
    method Settle(i: nat, attempt: AttemptStatus, status: LogStatus)
      requires i < |attempts| && log.Some?
      modifies this`log, this`attempts
      ensures Contents() == Settled(old(Contents()), i, attempt, status)
    {
      attempts := attempts[i := attempts[i].(status := attempt)];
      log := Some(log.value.(status := status));
    }

    /** deliver: the kind of the error it throws, if it does. */
    method Deliver(answers: Answers, ghost before: State, ghost soFar: seq<Event>)
      returns (thrown: Option<Kind>, ghost trace: seq<Event>)
      requires Inv(Contents()) && Contents() == Run(before, soFar) && Truthful(soFar, answers)
      requires stage == match answers.resolve case None => Claiming case Some(kind) => Reporting(kind)
      modifies this`log, this`attempts, this`stage, this`sends
      ensures Inv(Contents()) && Contents() == Run(before, trace) && Truthful(trace, answers) && soFar <= trace
      ensures stage == match thrown case None => Finishing case Some(kind) => Reporting(kind)
      ensures Made(log, attempts, sends, thrown) == DeliveryMakes(old(Contents()), answers)
    {
      hide Truthful, Inv, Run, GivenUp, Abandoned, FreshAttempt;
      GivenUpIsAbandoned(attempts);
      trace := soFar;
      if answers.resolve.Some? { return answers.resolve, trace; }
      trace := Took(before, trace, answers, Claim(answers.claimStored));
      if !answers.claimStored {
        stage := Reporting(Temporary);
        return Some(Temporary), trace;
      }
      NumbersOf(Contents());
      var claim := ClaimAttempt();
      stage := match claim
        case AlreadySent => Finishing
        case OutcomeUnknown => Reporting(Inconsistent)
        case Fresh(i) => Checking(i);
      match claim {
        case AlreadySent => return None, trace;
        case OutcomeUnknown => return Some(Inconsistent), trace;
        case Fresh(i) =>
          thrown, trace := SendAttempt(i, answers, old(Contents()), before, trace);
      }
    }

    /** What follows a fresh claim. */
    method SendAttempt(i: nat, answers: Answers, ghost s: State, ghost before: State, ghost soFar: seq<Event>)
      returns (thrown: Option<Kind>, ghost trace: seq<Event>)
      requires log.Some? && log.value.status == Sending && attempts == s.attempts + [Attempt(log.value.attemptCount, Started)]
      requires i == |s.attempts| && sends == s.sends
      requires Inv(Contents()) && Contents() == Run(before, soFar) && Truthful(soFar, answers) && stage == Checking(i)
      modifies this`log, this`attempts, this`stage, this`sends
      ensures Inv(Contents()) && Contents() == Run(before, trace) && Truthful(trace, answers) && soFar <= trace
      ensures stage == match thrown case None => Finishing case Some(kind) => Reporting(kind)
      ensures Made(log, attempts, sends, thrown) == FreshAttempt(s, old(log).value.attemptCount, answers)
    {
      hide Truthful, Inv, Run, Settled;
      trace := Took(before, soFar, answers, Check(answers.aborted));
      if answers.aborted {
        stage := Recording(i, Temporary);
        thrown, trace := RecordFailure(i, Temporary, answers, before, trace);
        return;
      }
      stage := Handing(i);
      trace := Took(before, trace, answers, Send(answers.sent));
      sends := sends + [i];
      match answers.sent {
        case Threw(kind) =>
          stage := Recording(i, kind);
          thrown, trace := RecordFailure(i, kind, answers, before, trace);
        case Accepted =>
          stage := Storing(i);
          thrown, trace := StoreSent(i, answers, before, trace);
      }
    }

    /** The transaction after an accepted message; a message that cannot be recorded has an unknown outcome. */
    method StoreSent(i: nat, answers: Answers, ghost before: State, ghost soFar: seq<Event>)
      returns (thrown: Option<Kind>, ghost trace: seq<Event>)
      requires Inv(Contents()) && Contents() == Run(before, soFar) && Truthful(soFar, answers) && stage == Storing(i)
      requires i < |attempts| && log.Some?
      modifies this`log, this`attempts, this`stage
      ensures Inv(Contents()) && Contents() == Run(before, trace) && Truthful(trace, answers) && soFar <= trace
      ensures stage == match thrown case None => Finishing case Some(kind) => Reporting(kind)
      ensures if answers.sentStored then
                && thrown == None && log == Some(old(log).value.(status := Sent))
                && attempts == old(attempts)[i := old(attempts)[i].(status := Delivered)]
              else if answers.failureStored then
                && thrown == Some(Inconsistent) && log == Some(old(log).value.(status := Failed))
                && attempts == old(attempts)[i := old(attempts)[i].(status := Unknown)]
              else thrown == Some(Temporary) && attempts == old(attempts) && log == old(log)
    {
      hide Truthful, Inv, Run;
      trace := Took(before, soFar, answers, Store(answers.sentStored));
      if !answers.sentStored {
        stage := Recording(i, Inconsistent);
        thrown, trace := RecordFailure(i, Inconsistent, answers, before, trace);
        return;
      }
      HeldOf(Contents());
      Settle(i, Delivered, Sent);
      stage := Finishing;
      thrown := None;
    }

    /** recordFailure, and the error that is thrown after it; its own failure is an unexpected error. */
    method RecordFailure(i: nat, kind: Kind, answers: Answers, ghost before: State, ghost soFar: seq<Event>)
      returns (thrown: Option<Kind>, ghost trace: seq<Event>)
      requires Inv(Contents()) && Contents() == Run(before, soFar) && Truthful(soFar, answers) && stage == Recording(i, kind)
      requires i < |attempts| && log.Some?
      modifies this`log, this`attempts, this`stage
      ensures Inv(Contents()) && Contents() == Run(before, trace) && Truthful(trace, answers) && soFar <= trace
      ensures thrown.Some? && stage == Reporting(thrown.value)
      ensures if answers.failureStored then
                && thrown == Some(kind) && log == Some(old(log).value.(status := Failed))
                && attempts == old(attempts)[i := old(attempts)[i].(status := if kind == Inconsistent then Unknown else Refused)]
              else thrown == Some(Temporary) && attempts == old(attempts) && log == old(log)
    {
      hide Truthful, Inv, Run;
      trace := Took(before, soFar, answers, Record(answers.failureStored));
      if !answers.failureStored {
        stage := Reporting(Temporary);
        return Some(Temporary), trace;
      }
      HeldOf(Contents());
      Settle(i, FailureStatus(kind), Failed);
      stage := Reporting(kind);
      return Some(kind), trace;
    }

    /** One run of the job by the queue worker. */
    method Process(answers: Answers) returns (ghost trace: seq<Event>)
      requires Inv(Contents()) && job.state == Waiting && stage == Idle
      modifies this
      ensures Inv(Contents()) && Contents() == Run(old(Contents()), trace) && stage == Idle
      ensures Truthful(trace, answers) && trace != [] && trace[0] == Start(answers.resolve)
      ensures Contents() == AfterRun(old(Contents()), answers)
      ensures job.state == Waiting ==> answers.again
      // only a temporary failure is tried again or may be retried by hand, once the worker has classified it
      ensures answers.reportWritten && job.state != Succeeded ==>
                job.failureKind.Some? && (job.state == Waiting ==> job.failureKind == Some(Temporary))
    {
      hide Inv, Run, DeliveryMakes;
      ghost var before := Contents();
      NoEvents(before);
      trace := Took(before, [], answers, Start(answers.resolve));
      job := job.(state := Running);
      stage := match answers.resolve case None => Claiming case Some(kind) => Reporting(kind);
      var thrown;
      SameDelivery(before, Contents(), answers);
      thrown, trace := Deliver(answers, before, trace);
      match thrown {
        case None =>
          trace := Took(before, trace, answers, Finish);
          job := job.(state := Succeeded);
        case Some(kind) =>
          trace := Took(before, trace, answers, Report(answers.reportWritten, answers.again));
          var unrecoverable := answers.reportWritten && kind != Temporary;
          if answers.reportWritten { job := job.(failureKind := Some(kind)); }
          job := job.(state := if answers.again && !unrecoverable then Waiting else Dead);
      }
      stage := Idle;
    }

    /** retryQueueJob: refused unless the job failed in a way that was classified as temporary. */
    method RetryJob() returns (queued: bool)
      requires Inv(Contents())
      modifies this`job
      ensures Inv(Contents()) && Contents() == Step(old(Contents()), RetryByHand)
      ensures queued <==> old(job) == Job(Dead, Some(Temporary))
    {
      hide Numbered, Mirrored, SentOnce;
      StepKeeps(Contents(), RetryByHand);
      if job.state != Dead || job.failureKind != Some(Temporary) { return false; }
      job := job.(state := Waiting);
      return true;
    }

    /** The next event of the trace; the code after it makes the contents follow. */
    ghost method Took(before: State, trace: seq<Event>, answers: Answers, e: Event) returns (longer: seq<Event>)
      requires Contents() == Run(before, trace) && Inv(Contents()) && Truthful(trace, answers) && Allowed(e, answers)
      ensures Truthful(longer, answers)
      ensures longer == trace + [e] && Run(before, longer) == Step(Contents(), e) && Inv(Run(before, longer))
    {
      hide Inv, Step;
      longer := trace + [e];
      RunSnoc(before, trace, e);
      StepKeeps(Contents(), e);
    }
  }

  lemma NumbersOf(s: State)
    requires Inv(s)
    ensures Numbered(s)
  {
  }

  lemma HeldOf(s: State)
    requires Inv(s) && Holding(s.stage)
    ensures s.stage.i < |s.attempts| && s.log.Some?
  {
    hide SentOnce;
  }
}
