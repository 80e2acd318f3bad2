/**
 Delivering notification entries (apps/worker/src/notifications/notification-delivery.service.ts).

 The delivery transaction is one step, the live submission after it another, and the guarded settlement a
 third; a worker may stop between any two, and an entry may be delivered by any number of workers.
 */
module Notifications {
  type Id = nat

  const MAX_PREVIEWS: nat := 5

  datatype Channel = Email | WhatsApp | Other

  datatype Status = Disabled | Queued | Previewed | Suppressed | Failed | Submitting | Accepted | Unknown

  datatype Entry = Entry(channel: Channel, status: Status, attempts: nat)

  datatype DeliveryMode = Preview | Live | Off

  datatype Adapter = PreviewAdapter | Meta | NoAdapter

  /** What the worker is configured with. */
  datatype Config = Config(mode: DeliveryMode, adapter: Adapter, liveEnabled: bool)

  /** What the rows and the preview adapter say to one delivery. */
  datatype Facts = Facts(unwanted: bool, previewWorks: bool)

  datatype Result = WasPreviewed | WasDisabled | WasAccepted | Threw(unknown: bool)

  datatype Stage = Sending(entry: Id) | Settling(entry: Id, status: Status, first: bool)

  /**
   temporary holds the entries whose job says that its last failed run failed for a temporary reason; entered
   lists the entries the live adapter was called for.
   */
  datatype State = State(entries: map<Id, Entry>, temporary: set<Id>, workers: map<Id, Stage>, entered: seq<Id>)

  datatype Event =
    | Create(id: Id, channel: Channel)
    | Deliver(worker: Id, id: Id, facts: Facts)
    | Submit(worker: Id, result: Result)
    | Settle(worker: Id, stored: bool)
    | Stop(worker: Id)
    // a run of the entry's job ends with an error, which the queue worker classifies and writes into the job
    | RunFailed(id: Id, temporary: bool)

  /** Each event happens under the configuration of the worker it belongs to. */
  datatype Configured = Configured(event: Event, config: Config)

  // ----- the delivery transaction -------------------------------------------------------------

  predicate Sendable(entry: Entry, c: Config, temporary: bool) {
    entry.status == Queued
    || (entry.status == Failed && c.mode == Preview && c.adapter == PreviewAdapter && temporary)
  }

  predicate Suppresses(entry: Entry, c: Config, unwanted: bool) {
    || unwanted
    || entry.channel == Other
    || (entry.channel == WhatsApp && (c.adapter == NoAdapter || (c.mode == Preview && c.adapter != PreviewAdapter)))
  }

  predicate GoesLive(entry: Entry, c: Config) {
    entry.channel == WhatsApp && c.mode == Live && c.liveEnabled && c.adapter == Meta
  }

  /** What the transaction makes of an entry. */
  function DeliveredEntry(entry: Entry, c: Config, temporary: bool, f: Facts): Entry {
    if !Sendable(entry, c, temporary) then entry
    else if Suppresses(entry, c, f.unwanted) then entry.(status := Suppressed)
    else if c.mode != Preview && !GoesLive(entry, c) then entry.(status := Disabled)
    else
      var attempts := entry.attempts + 1;
      if c.mode == Live then entry.(status := Submitting, attempts := attempts)
      else if f.previewWorks then entry.(status := Previewed, attempts := attempts)
      else entry.(status := if attempts >= MAX_PREVIEWS then Failed else Queued, attempts := attempts)
  }

  /** The entry is claimed for the live adapter. */
  predicate Claims(entry: Entry, c: Config, temporary: bool, f: Facts) {
    Sendable(entry, c, temporary) && !Suppresses(entry, c, f.unwanted) && GoesLive(entry, c)
  }

  function Outcome(result: Result): Status {
    match result
    case WasAccepted => Accepted
    case WasDisabled => Disabled
    case WasPreviewed => Unknown
    case Threw(unknown) => if unknown then Unknown else Failed
  }

  /** updateMany on an entry that is still SUBMITTING. */
  function SettledEntries(entries: map<Id, Entry>, id: Id, status: Status): map<Id, Entry> {
    if id in entries && entries[id].status == Submitting then entries[id := entries[id].(status := status)] else entries
  }

  function Step(s: State, e: Event, c: Config): State {
    match e
    case Create(id, channel) =>
      if id in s.entries then s else s.(entries := s.entries[id := Entry(channel, Queued, 0)])
    case Deliver(w, id, f) =>
      if w in s.workers || id !in s.entries then s
      else
        s.(entries := s.entries[id := DeliveredEntry(s.entries[id], c, id in s.temporary, f)],
           workers := if Claims(s.entries[id], c, id in s.temporary, f) then s.workers[w := Sending(id)] else s.workers)
    case Submit(w, result) =>
      if w !in s.workers || !s.workers[w].Sending? then s
      else
        var id := s.workers[w].entry;
        s.(workers := s.workers[w := Settling(id, Outcome(result), !result.Threw? && !result.WasPreviewed?)],
           entered := s.entered + [id])
    case Settle(w, stored) =>
      if w !in s.workers || !s.workers[w].Settling? then s
      else
        var run := s.workers[w];
        if stored then s.(entries := SettledEntries(s.entries, run.entry, run.status), workers := s.workers - {w})
        else if run.first then s.(workers := s.workers[w := Settling(run.entry, Unknown, false)])
        else s.(workers := s.workers - {w})
    case Stop(w) => s.(workers := s.workers - {w})
    case RunFailed(id, temporary) => s.(temporary := if temporary then s.temporary + {id} else s.temporary - {id})
  }

  function Run(s: State, events: seq<Configured>): State
    decreases |events|
  {
    if events == [] then s else Run(Step(s, events[0].event, events[0].config), events[1..])
  }

  const EMPTY: State := State(map[], {}, map[], [])

  ghost predicate Under(events: seq<Configured>, c: Config) {
    forall i | 0 <= i < |events| :: events[i].config == c
  }

  // ----- configurations -----------------------------------------------------------------------

  /** Under this configuration an entry is claimed and goes out. */
  predicate IsLive(c: Config) {
    c.mode == Live && c.liveEnabled && c.adapter == Meta
  }

  /** Under this one an entry that failed may be delivered again. */
  predicate IsPreview(c: Config) {
    c.mode == Preview && c.adapter == PreviewAdapter
  }

  function ConfigsOf(events: seq<Configured>): seq<Config> {
    seq(|events|, i requires 0 <= i < |events| => events[i].config)
  }

  /** From live to preview and back. */
  ghost predicate ComesBack(cs: seq<Config>) {
    exists i, j, k :: 0 <= i < j < k < |cs| && IsLive(cs[i]) && IsPreview(cs[j]) && IsLive(cs[k])
  }

  // ----- the invariants -----------------------------------------------------------------------

  ghost predicate Distinct(s: State) {
    && (forall i | 0 <= i < |s.entered| :: s.entered[i] in s.entries)
    && (forall i, j | 0 <= i < j < |s.entered| :: s.entered[i] != s.entered[j])
  }

  ghost predicate WorkersSound(s: State) {
    && (forall w | w in s.workers && s.workers[w].Sending? ::
          && s.workers[w].entry in s.entries && s.entries[s.workers[w].entry].status == Submitting
          && s.workers[w].entry !in s.entered)
    && (forall v, w | v in s.workers && w in s.workers && s.workers[v].Sending? && s.workers[w].Sending?
          && s.workers[v].entry == s.workers[w].entry :: v == w)
    && (forall w | w in s.workers && s.workers[w].Settling? ::
          s.workers[w].entry in s.entered && s.workers[w].status != Queued && s.workers[w].status != Submitting)
  }

  /** Nothing was submitted twice, nor will be by the workers there are. */
  ghost predicate Sound(s: State) {
    Distinct(s) && WorkersSound(s)
  }

  /** And what was submitted cannot be claimed. */
  ghost predicate Spent(s: State) {
    Sound(s) && forall i | 0 <= i < |s.entered| :: s.entries[s.entered[i]].status != Queued
  }

  /** Nothing was claimed yet. */
  ghost predicate Unclaimed(s: State) {
    s.entered == [] && s.workers == map[]
  }

  lemma UnclaimedKept(s: State, e: Event, c: Config)
    requires Unclaimed(s) && !IsLive(c)
    ensures Unclaimed(Step(s, e, c))
  {
    hide Suppresses, Sendable;
  }

  lemma SoundKept(s: State, e: Event, c: Config)
    requires Sound(s) && !IsLive(c)
    ensures Sound(Step(s, e, c))
  {
    hide Suppresses;
  }

  lemma SpentWorkersKept(s: State, e: Event, c: Config)
    requires Spent(s) && !IsPreview(c)
    ensures WorkersSound(Step(s, e, c))
  {
    hide Suppresses;
  }

  lemma SpentKept(s: State, e: Event, c: Config)
    requires Spent(s) && !IsPreview(c)
    ensures Spent(Step(s, e, c))
  {
    hide Suppresses;
    SpentWorkersKept(s, e, c);
  }

  lemma {:induction false} SoundAlways(s: State, events: seq<Configured>)
    requires Sound(s) && forall i | 0 <= i < |events| :: !IsLive(events[i].config)
    ensures Sound(Run(s, events))
    decreases |events|
  {
    hide Sound, Step;
    if events != [] {
      SoundKept(s, events[0].event, events[0].config);
      SoundAlways(Step(s, events[0].event, events[0].config), events[1..]);
    }
  }

  /** Once a preview follows, nothing is claimed any more. */
  lemma {:induction false} SpentThenSound(s: State, events: seq<Configured>)
    requires Spent(s)
    requires forall j, k | 0 <= j < k < |events| :: !(IsPreview(events[j].config) && IsLive(events[k].config))
    ensures Sound(Run(s, events))
    decreases |events|
  {
    hide Sound, Step;
    if events != [] {
      if IsPreview(events[0].config) {
        SoundAlways(s, events);
      } else {
        SpentKept(s, events[0].event, events[0].config);
        SpentThenSound(Step(s, events[0].event, events[0].config), events[1..]);
      }
    }
  }

  lemma {:induction false} UnclaimedThenSound(s: State, events: seq<Configured>)
    requires Unclaimed(s) && !ComesBack(ConfigsOf(events))
    ensures Sound(Run(s, events))
    decreases |events|
  {
    hide Sound, Step, Spent, IsLive, IsPreview;
    var cs := ConfigsOf(events);
    UnclaimedIsSpent(s);
    if events != [] {
      if IsLive(events[0].config) {
        forall j, k | 0 <= j < k < |events| ensures !(IsPreview(events[j].config) && IsLive(events[k].config)) {
          assert cs[0] == events[0].config && cs[j] == events[j].config && cs[k] == events[k].config;
          LiveIsNoPreview(events[0].config);
        }
        SpentThenSound(s, events);
      } else {
        UnclaimedKept(s, events[0].event, events[0].config);
        assert forall i | 0 <= i < |events| - 1 :: ConfigsOf(events[1..])[i] == cs[i + 1];
        UnclaimedThenSound(Step(s, events[0].event, events[0].config), events[1..]);
      }
    }
  }

  lemma LiveIsNoPreview(c: Config)
    ensures !(IsLive(c) && IsPreview(c))
  {
  }

  lemma UnclaimedIsSpent(s: State)
    requires Unclaimed(s)
    ensures Spent(s) && Sound(s)
  {
  }

  // ----- what holds in every run --------------------------------------------------------------

  ghost predicate OnceEach(s: State) {
    forall i, j | 0 <= i < j < |s.entered| :: s.entered[i] != s.entered[j]
  }

  /** Unless the configuration comes back from preview to live, the live adapter is called at most once for an entry. */
  lemma OneSubmissionPerEntry(events: seq<Configured>)
    requires !ComesBack(ConfigsOf(events))
    ensures OnceEach(Run(EMPTY, events))
  {
    hide Run, WorkersSound;
    UnclaimedThenSound(EMPTY, events);
  }

  /** It is called only for an entry whose claim is committed: SUBMITTING and not submitted before. */
  lemma SubmissionFollowsClaim(events: seq<Configured>, e: Event, c: Config)
    requires !ComesBack(ConfigsOf(events))
    ensures var s := Run(EMPTY, events); var t := Step(s, e, c);
      t.entered != s.entered ==>
        && e.Submit? && e.worker in s.workers && s.workers[e.worker].Sending?
        && var id := s.workers[e.worker].entry;
           && id in s.entries && s.entries[id].status == Submitting && id !in s.entered
           && t.entered == s.entered + [id] && t.entries == s.entries
  {
    hide Run, Suppresses;
    UnclaimedThenSound(EMPTY, events);
  }

  predicate Final(status: Status, mode: DeliveryMode) {
    status != Queued && status != Submitting && !(status == Failed && mode == Preview)
  }

  lemma FinalStaysOnce(s: State, e: Event, c: Config, id: Id)
    requires id in s.entries && Final(s.entries[id].status, c.mode)
    ensures id in Step(s, e, c).entries && Step(s, e, c).entries[id] == s.entries[id]
  {
    hide Suppresses;
  }

  /** A settled entry, one of unknown outcome included, is not touched again; nor is one left SUBMITTING sent. */
  lemma {:induction false} FinalStays(s: State, events: seq<Configured>, c: Config, id: Id)
    requires Under(events, c) && id in s.entries && Final(s.entries[id].status, c.mode)
    ensures id in Run(s, events).entries && Run(s, events).entries[id] == s.entries[id]
    decreases |events|
  {
    hide Step;
    if events != [] {
      FinalStaysOnce(s, events[0].event, c, id);
      FinalStays(Step(s, events[0].event, c), events[1..], c, id);
    }
  }

  lemma SubmittingStaysOnce(s: State, e: Event, c: Config, id: Id)
    requires id in s.entries && s.entries[id].status == Submitting
    requires forall w | w in s.workers :: s.workers[w].entry != id
    ensures id in Step(s, e, c).entries && Step(s, e, c).entries[id] == s.entries[id]
    ensures forall w | w in Step(s, e, c).workers :: Step(s, e, c).workers[w].entry != id
    ensures Step(s, e, c).entered == s.entered || Step(s, e, c).entered[|s.entered|..] != [id]
  {
    hide Suppresses;
  }

  /** When its worker stops in between, an entry stays SUBMITTING for good, whatever the configuration. */
  lemma {:induction false} AbandonedStays(s: State, events: seq<Configured>, id: Id)
    requires id in s.entries && s.entries[id].status == Submitting
    requires forall w | w in s.workers :: s.workers[w].entry != id
    ensures id in Run(s, events).entries && Run(s, events).entries[id] == s.entries[id]
    decreases |events|
  {
    hide Step;
    if events != [] {
      SubmittingStaysOnce(s, events[0].event, events[0].config, id);
      AbandonedStays(Step(s, events[0].event, events[0].config), events[1..], id);
    }
  }

  // ----- a configuration that comes back ------------------------------------------------------

  /**
   A first run fails because the outbox event is not PUBLISHED yet.  The next one submits the entry, which the
   provider rejects, and stops before the queue learns that it is done.  Run again while the worker previews,
   and failing there too, the entry is queued once more, and goes out a second time when the worker is live.
   */
  function FirstSubmission(live: Config): seq<Configured> {
    [Configured(Create(0, WhatsApp), live), Configured(RunFailed(0, true), live),
     Configured(Deliver(1, 0, Facts(false, false)), live), Configured(Submit(1, Threw(false)), live),
     Configured(Settle(1, true), live)]
  }

  function SecondSubmission(live: Config): seq<Configured> {
    [Configured(Deliver(1, 0, Facts(false, false)), live), Configured(Submit(1, WasAccepted), live)]
  }

  function FailingRun(live: Config, preview: Config, again: Config): seq<Configured> {
    FirstSubmission(live) + [Configured(Deliver(1, 0, Facts(false, false)), preview)] + SecondSubmission(again)
  }

  lemma FirstSubmissionFails(live: Config)
    requires IsLive(live)
    ensures Run(EMPTY, FirstSubmission(live)) == State(map[0 := Entry(WhatsApp, Failed, 1)], {0}, map[], [0])
  {
    hide Run;
    var events := FirstSubmission(live);
    var s2 := Step(Step(EMPTY, events[0].event, live), events[1].event, live);
    assert s2 == State(map[0 := Entry(WhatsApp, Queued, 0)], {0}, map[], []);
    var s3 := Step(s2, events[2].event, live);
    assert s3 == State(map[0 := Entry(WhatsApp, Submitting, 1)], {0}, map[1 := Sending(0)], []);
    var s4 := Step(s3, events[3].event, live);
    assert s4 == State(map[0 := Entry(WhatsApp, Submitting, 1)], {0}, map[1 := Settling(0, Failed, false)], [0]);
    var s5 := Step(s4, events[4].event, live);
    assert s5 == State(map[0 := Entry(WhatsApp, Failed, 1)], {0}, map[], [0]);
    NoEvents(EMPTY);
    RunFront(EMPTY, events, 0);
    RunFront(EMPTY, events, 1);
    RunFront(EMPTY, events, 2);
    RunFront(EMPTY, events, 3);
    RunFront(EMPTY, events, 4);
    assert events[..0] == [] && events[..5] == events;
  }

  lemma RunFront(s: State, events: seq<Configured>, n: nat)
    requires n < |events|
    ensures Run(s, events[..n + 1]) == Step(Run(s, events[..n]), events[n].event, events[n].config)
  {
    hide Run, Step;
    RunSnoc(s, events[..n], events[n]);
    assert events[..n + 1] == events[..n] + [events[n]];
  }

  lemma ComingBackRepeats(live: Config, preview: Config, again: Config)
    requires IsLive(live) && IsPreview(preview) && IsLive(again)
    ensures !OnceEach(Run(EMPTY, FailingRun(live, preview, again)))
  {
    hide Run;
    FirstSubmissionFails(live);
    var first := Run(EMPTY, FirstSubmission(live));
    var middle := Configured(Deliver(1, 0, Facts(false, false)), preview);
    var queued := Step(first, middle.event, preview);
    assert queued == State(map[0 := Entry(WhatsApp, Queued, 2)], {0}, map[], [0]);
    var events := SecondSubmission(again);
    var claimed := Step(queued, events[0].event, again);
    assert claimed == State(map[0 := Entry(WhatsApp, Submitting, 3)], {0}, map[1 := Sending(0)], [0]);
    var last := Step(claimed, events[1].event, again);
    assert last.entered == [0, 0];
    RunSnoc(EMPTY, FirstSubmission(live), middle);
    RunSnoc(EMPTY, FirstSubmission(live) + [middle], events[0]);
    RunSnoc(EMPTY, FirstSubmission(live) + [middle] + [events[0]], events[1]);
    assert FailingRun(live, preview, again) == FirstSubmission(live) + [middle] + [events[0]] + [events[1]];
    assert last.entered[0] == last.entered[1];
  }

  /** The events happen while the worker is configured in these ways, one after the other. */
  ghost predicate Follows(events: seq<Configured>, phases: seq<Config>)
    decreases |events| + |phases|
  {
    events == []
    || (phases != []
        && ((events[0].config == phases[0] && Follows(events[1..], phases)) || Follows(events, phases[1..])))
  }

  /** Events of the phase that is on, and what follows them. */
  lemma {:induction false} SamePhase(events: seq<Configured>, rest: seq<Configured>, phases: seq<Config>)
    requires phases != [] && Follows(rest, phases) && forall i | 0 <= i < |events| :: events[i].config == phases[0]
    ensures Follows(events + rest, phases)
    decreases |events|
  {
    if events == [] {
      assert events + rest == rest;
    } else {
      SamePhase(events[1..], rest, phases);
      assert (events + rest)[1..] == events[1..] + rest;
    }
  }

  lemma NothingFollows(phases: seq<Config>)
    ensures Follows([], phases)
  {
  }

  lemma {:induction false} LaterPhase(events: seq<Configured>, phases: seq<Config>, k: nat)
    requires k <= |phases| && Follows(events, phases[k..])
    ensures Follows(events, phases)
    decreases k
  {
    if k == 0 {
      assert phases[0..] == phases;
    } else {
      assert phases[1..][k - 1..] == phases[k..];
      LaterPhase(events, phases[1..], k - 1);
    }
  }

  /** What the run comes back from, the phases come back from. */
  lemma {:induction false} PhaseOf(events: seq<Configured>, phases: seq<Config>, i: nat, j: nat, k: nat)
    returns (a: nat, b: nat, c: nat)
    requires Follows(events, phases) && i <= j <= k < |events|
    ensures a <= b <= c < |phases|
    ensures phases[a] == events[i].config && phases[b] == events[j].config && phases[c] == events[k].config
    decreases |events| + |phases|
  {
    if events[0].config == phases[0] && Follows(events[1..], phases) {
      if i > 0 {
        a, b, c := PhaseOf(events[1..], phases, i - 1, j - 1, k - 1);
      } else if j > 0 {
        a, b, c := PhaseOf(events[1..], phases, j - 1, j - 1, k - 1);
        a := 0;
      } else if k > 0 {
        a, b, c := PhaseOf(events[1..], phases, k - 1, k - 1, k - 1);
        a, b := 0, 0;
      } else {
        a, b, c := 0, 0, 0;
      }
    } else {
      a, b, c := PhaseOf(events, phases[1..], i, j, k);
      a, b, c := a + 1, b + 1, c + 1;
    }
  }

  /** At most one submission per entry, whatever happens in these phases. */
  ghost predicate AtMostOnce(phases: seq<Config>) {
    forall events | Follows(events, phases) :: OnceEach(Run(EMPTY, events))
  }

  lemma FailingRunFollows(phases: seq<Config>, i: nat, j: nat, k: nat)
    requires i < j < k < |phases|
    ensures Follows(FailingRun(phases[i], phases[j], phases[k]), phases)
  {
    hide Follows, FirstSubmission, SecondSubmission;
    var first, last := FirstSubmission(phases[i]), SecondSubmission(phases[k]);
    var middle := [Configured(Deliver(1, 0, Facts(false, false)), phases[j])];
    UnderOne(phases[i]);
    UnderOne(phases[k]);
    NothingFollows(phases[k..]);
    SamePhase(last, [], phases[k..]);
    assert last + [] == last;
    Before(last, phases, j, k);
    SamePhase(middle, last, phases[j..]);
    Before(middle + last, phases, i, j);
    SamePhase(first, middle + last, phases[i..]);
    LaterPhase(first + (middle + last), phases, i);
    assert FailingRun(phases[i], phases[j], phases[k]) == first + (middle + last);
  }

  lemma UnderOne(live: Config)
    ensures forall i | 0 <= i < |FirstSubmission(live)| :: FirstSubmission(live)[i].config == live
    ensures forall i | 0 <= i < |SecondSubmission(live)| :: SecondSubmission(live)[i].config == live
  {
  }

  lemma Before(events: seq<Configured>, phases: seq<Config>, j: nat, k: nat)
    requires j <= k <= |phases| && Follows(events, phases[k..])
    ensures Follows(events, phases[j..])
  {
    hide Follows;
    assert phases[j..][k - j..] == phases[k..];
    LaterPhase(events, phases[j..], k - j);
  }

  /** Entries go out at most once exactly if the worker is never live again after a preview that followed live. */
  lemma AtMostOnceExactly(phases: seq<Config>)
    ensures AtMostOnce(phases) <==> !ComesBack(phases)
  {
    hide Run, Follows, OnceEach, IsLive, IsPreview;
    if ComesBack(phases) {
      var i, j, k :| 0 <= i < j < k < |phases| && IsLive(phases[i]) && IsPreview(phases[j]) && IsLive(phases[k]);
      FailingRunFollows(phases, i, j, k);
      ComingBackRepeats(phases[i], phases[j], phases[k]);
    } else {
      forall events | Follows(events, phases) ensures OnceEach(Run(EMPTY, events)) {
        StaysAway(events, phases);
        OneSubmissionPerEntry(events);
      }
    }
  }

  lemma StaysAway(events: seq<Configured>, phases: seq<Config>)
    requires Follows(events, phases) && !ComesBack(phases)
    ensures !ComesBack(ConfigsOf(events))
  {
    hide Follows, IsLive, IsPreview;
    var cs := ConfigsOf(events);
    if ComesBack(cs) {
      var i, j, k :| 0 <= i < j < k < |cs| && IsLive(cs[i]) && IsPreview(cs[j]) && IsLive(cs[k]);
      var a, b, c := PhaseOf(events, phases, i, j, k);
      LiveIsNoPreview(phases[b]);
      assert false;
    }
  }

  lemma {:induction false} RunSnoc(s: State, events: seq<Configured>, e: Configured)
    ensures Run(s, events + [e]) == Step(Run(s, events), e.event, e.config)
    decreases |events|
  {
    hide Step;
    if events == [] {
      assert [e][1..] == [];
    } else {
      RunSnoc(Step(s, events[0].event, events[0].config), events[1..], e);
      assert (events + [e])[1..] == events[1..] + [e];
    }
  }

  lemma NoEvents(s: State)
    ensures Run(s, []) == s
  {
  }
}
