/**
 What one delivery makes of a notification entry, answer by answer: whether it may go out at all, where it
 goes, and how the submission of a live one is settled.
 */
module NotificationDecisions {
  import opened Notifications

  /** What the configuration, the rows and the adapters say to one delivery. */
  datatype Answers = Answers(facts: Facts, result: Result, stored: bool, caught: bool)

  /** The entry waits, or failed as a preview for a reason its job calls temporary. */
  predicate IsDue(entry: Entry, c: Config, temporary: bool) {
    if entry.status == Failed then c == Config(Preview, PreviewAdapter, c.liveEnabled) && temporary else entry.status == Queued
  }

  /** Nobody wants it, or its channel cannot carry it. */
  predicate IsSuppressed(entry: Entry, c: Config, unwanted: bool) {
    match entry.channel
    case Email => unwanted
    case Other => true
    case WhatsApp => unwanted || c.adapter == NoAdapter || (c.adapter == Meta && c.mode == Preview)
  }

  /** A claimed submission: the adapter's answer, if it was stored; and an answer that could not be stored leaves doubt. */
  function AfterSubmission(a: Answers): Status {
    if a.stored then
      match a.result
      case WasAccepted => Accepted
      case WasDisabled => Disabled
      case WasPreviewed => Unknown
      case Threw(true) => Unknown
      case Threw(false) => Failed
    else if a.caught && (a.result == WasAccepted || a.result == WasDisabled) then Unknown
    else Submitting
  }

  /** The live adapter is entered. */
  predicate IsSubmitted(entry: Entry, c: Config, temporary: bool, unwanted: bool) {
    && IsDue(entry, c, temporary) && !IsSuppressed(entry, c, unwanted)
    && entry.channel == WhatsApp && c == Config(Live, Meta, true)
  }

  /** The preview adapter is entered and fails. */
  predicate PreviewFails(entry: Entry, c: Config, temporary: bool, f: Facts) {
    IsDue(entry, c, temporary) && !IsSuppressed(entry, c, f.unwanted) && c.mode == Preview && !f.previewWorks
  }

  function AfterDelivery(entry: Entry, c: Config, temporary: bool, a: Answers): Entry {
    if !IsDue(entry, c, temporary) then entry
    else if IsSuppressed(entry, c, a.facts.unwanted) then Entry(entry.channel, Suppressed, entry.attempts)
    else if c.mode == Preview then
      var status := if a.facts.previewWorks then Previewed else if entry.attempts >= 4 then Failed else Queued;
      Entry(entry.channel, status, entry.attempts + 1)
    else if entry.channel == WhatsApp && c == Config(Live, Meta, true) then
      Entry(entry.channel, AfterSubmission(a), entry.attempts + 1)
    else Entry(entry.channel, Disabled, entry.attempts)
  }

  /** The state after one delivery that nothing interrupted. */
  function Delivered(s: State, id: Id, c: Config, a: Answers): State {
    if id !in s.entries then s
    else
      var entry, temporary := s.entries[id], id in s.temporary;
      s.(entries := s.entries[id := AfterDelivery(entry, c, temporary, a)],
         entered := if IsSubmitted(entry, c, temporary, a.facts.unwanted) then s.entered + [id] else s.entered)
  }

  /** The steps of one delivery in order; those that are not next do nothing. */
  function Steps(w: Id, id: Id, c: Config, a: Answers): seq<Configured> {
    [Configured(Deliver(w, id, a.facts), c), Configured(Submit(w, a.result), c), Configured(Settle(w, a.stored), c),
     Configured(Settle(w, a.caught), c)]
  }

  lemma RunFour(s: State, es: seq<Configured>, c: Config)
    requires |es| == 4 && Under(es, c)
    ensures Run(s, es) == Step(Step(Step(Step(s, es[0].event, c), es[1].event, c), es[2].event, c), es[3].event, c)
  {
    hide Step;
    assert es[1..][1..] == es[2..] && es[2..][1..] == es[3..] && es[3..][1..] == [];
    var t := Step(s, es[0].event, c);
    assert Run(s, es) == Run(t, es[1..]);
    var u := Step(t, es[1].event, c);
    assert Run(t, es[1..]) == Run(u, es[2..]);
    var v := Step(u, es[2].event, c);
    assert Run(u, es[2..]) == Run(v, es[3..]);
    assert Run(v, es[3..]) == Run(Step(v, es[3].event, c), []);
  }

  /** The transaction. */
  lemma TransactionDecides(s: State, w: Id, id: Id, c: Config, a: Answers)
    requires w !in s.workers && id in s.entries
    ensures var t := Step(s, Deliver(w, id, a.facts), c); var entry, temporary := s.entries[id], id in s.temporary;
      if IsSubmitted(entry, c, temporary, a.facts.unwanted) then
        t == s.(entries := s.entries[id := Entry(entry.channel, Submitting, entry.attempts + 1)],
                workers := s.workers[w := Sending(id)])
      else t == s.(entries := s.entries[id := AfterDelivery(entry, c, temporary, a)])
  {
    hide AfterSubmission;
  }

  /** What follows the claim of a submission. */
  lemma SubmissionDecides(s: State, w: Id, id: Id, c: Config, a: Answers)
    requires w in s.workers && s.workers[w] == Sending(id) && id in s.entries && s.entries[id].status == Submitting
    ensures Step(Step(Step(s, Submit(w, a.result), c), Settle(w, a.stored), c), Settle(w, a.caught), c)
         == s.(entries := s.entries[id := s.entries[id].(status := AfterSubmission(a))], workers := s.workers - {w},
               entered := s.entered + [id])
  {
    assert s.entries[id := s.entries[id]] == s.entries;
  }

  /** A delivery of the protocol ends where the answers say. */
  lemma DeliveryDecides(s: State, w: Id, id: Id, c: Config, a: Answers)
    requires w !in s.workers
    ensures Run(s, Steps(w, id, c, a)) == Delivered(s, id, c, a)
  {
    hide Run, AfterSubmission;
    RunFour(s, Steps(w, id, c, a), c);
    if id in s.entries {
      hide Step;
      TransactionDecides(s, w, id, c, a);
      var t := Step(s, Deliver(w, id, a.facts), c);
      var entry, temporary := s.entries[id], id in s.temporary;
      if IsSubmitted(entry, c, temporary, a.facts.unwanted) {
        SubmissionDecides(t, w, id, c, a);
        assert t.workers - {w} == s.workers;
      } else {
        NobodySends(t, w, c, a);
      }
    } else {
      NobodySends(s, w, c, a);
    }
  }

  lemma NobodySends(s: State, w: Id, c: Config, a: Answers)
    requires w !in s.workers
    ensures Step(Step(Step(s, Submit(w, a.result), c), Settle(w, a.stored), c), Settle(w, a.caught), c) == s
  {
  }

  /** Only an accepted or refused answer that was stored is certain; every other submission is never sent again. */
  lemma SubmittedMeans(s: State, id: Id, c: Config, a: Answers)
    requires id in s.entries && Delivered(s, id, c, a).entered != s.entered
    ensures var t := Delivered(s, id, c, a);
      && t.entered == s.entered + [id] && c == Config(Live, Meta, true) && s.entries[id].status == Queued
      && t.entries[id].status in {Accepted, Disabled, Failed, Unknown, Submitting}
      && (t.entries[id].status == Accepted <==> a.stored && a.result == WasAccepted)
      && (t.entries[id].status == Failed <==> a.stored && a.result == Threw(false))
  {
  }
}
