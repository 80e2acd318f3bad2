/**
 Creating the registrar's customer and contact for an operation
 (packages/database/src/registrar/preparation.ts, and ensureContacts in resellbiz-live.ts).

 Each claim is one transaction and each remote call one step whose answer is arbitrary; workers may stop
 between any two steps, and any number of them may work for the same customer.
 */
module ContactPreparation {
  import opened Options

  type Id = nat

  datatype Key = Key(account: Id, customer: Id, fingerprint: Id)

  datatype Row = Row(
    operation: Id, customerClaimed: bool, contactClaimed: bool, remoteCustomer: Option<Id>, remoteContact: Option<Id>)

  datatype Mapping = Mapping(customer: Id, contact: Id)

  /** Where a worker is inside ensureContacts. */
  datatype Stage =
    | Searching
    | ClaimingCustomer
    | SigningUp
    | Checking(remote: Id)
    | Recording(remote: Id)
    | ClaimingContact(remote: Id)
    | Adding(remote: Id)
    | Verifying(remote: Id, contact: Id)
    | Completing(remote: Id, contact: Id)

  datatype Worker = Worker(operation: Id, key: Key, stage: Stage)

  /** signups and additions record the remote calls that create a customer and a contact. */
  datatype State = State(
    rows: map<Key, Row>, mappings: map<Key, Mapping>, workers: map<Id, Worker>, signups: seq<Key>, additions: seq<Key>)

  datatype Found = Incomplete | Nobody | Customer(id: Id)

  datatype Event =
    | Start(worker: Id, operation: Id, key: Key)
    | SearchAnswer(worker: Id, found: Found)
    | ClaimCustomer(worker: Id)
    | Signup(worker: Id, answer: Option<Id>)
    | Checked(worker: Id, ok: bool)
    | Record(worker: Id)
    | ClaimContact(worker: Id)
    | AddContact(worker: Id, answer: Option<Id>)
    | Verified(worker: Id, ok: bool)
    | Complete(worker: Id)
    | Stop(worker: Id)

  // ----- the transactions ---------------------------------------------------------------------

  function NewRow(operation: Id): Row {
    Row(operation, false, false, None, None)
  }

  /** The row a claim works on: the one there is, or the one the upsert would create. */
  function RowFor(rows: map<Key, Row>, key: Key, operation: Id): Row {
    if key in rows then rows[key] else NewRow(operation)
  }

  /** A signup that was claimed and whose customer is not recorded yet. */
  predicate Pending(row: Row) {
    row.customerClaimed && row.remoteCustomer.None?
  }

  predicate PendingElsewhere(rows: map<Key, Row>, key: Key) {
    exists k | k in rows :: k != key && k.account == key.account && k.customer == key.customer && Pending(rows[k])
  }

  predicate MayClaimCustomer(rows: map<Key, Row>, key: Key, operation: Id) {
    var row := RowFor(rows, key, operation);
    row.operation == operation && !row.customerClaimed && !PendingElsewhere(rows, key)
  }

  predicate MayClaimContact(rows: map<Key, Row>, key: Key, operation: Id) {
    var row := RowFor(rows, key, operation);
    row.operation == operation && !row.contactClaimed && row.remoteCustomer.Some?
  }

  function CustomerClaimed(rows: map<Key, Row>, key: Key, operation: Id): map<Key, Row> {
    rows[key := RowFor(rows, key, operation).(customerClaimed := true)]
  }

  function ContactClaimed(rows: map<Key, Row>, key: Key, operation: Id): map<Key, Row> {
    rows[key := RowFor(rows, key, operation).(contactClaimed := true)]
  }

  function Recorded(rows: map<Key, Row>, key: Key, operation: Id, remote: Id): map<Key, Row> {
    rows[key := RowFor(rows, key, operation).(remoteCustomer := Some(remote))]
  }

  // ----- the protocol -------------------------------------------------------------------------

  function Gone(s: State, w: Id): State {
    s.(workers := s.workers - {w})
  }

  function At(s: State, w: Id, stage: Stage): State
    requires w in s.workers
  {
    s.(workers := s.workers[w := s.workers[w].(stage := stage)])
  }

  /** One step of a worker that is in the middle of a run. */
  function Advance(s: State, w: Id, e: Event): State
    requires w in s.workers
  {
    var run := s.workers[w];
    match run.stage
    case Searching =>
      if !e.SearchAnswer? then s
      else
        (match e.found
         case Incomplete => Gone(s, w)
         case Nobody => At(s, w, ClaimingCustomer)
         case Customer(id) => At(s, w, Checking(id)))
    case ClaimingCustomer =>
      if !e.ClaimCustomer? then s
      else if !MayClaimCustomer(s.rows, run.key, run.operation) then Gone(s, w)
      else At(s, w, SigningUp).(rows := CustomerClaimed(s.rows, run.key, run.operation))
    case SigningUp =>
      if !e.Signup? then s
      else
        (match e.answer
         case None => Gone(s, w).(signups := s.signups + [run.key])
         case Some(id) => At(s, w, Checking(id)).(signups := s.signups + [run.key]))
    case Checking(remote) =>
      if !e.Checked? then s else if e.ok then At(s, w, Recording(remote)) else Gone(s, w)
    case Recording(remote) =>
      if !e.Record? then s
      else At(s, w, ClaimingContact(remote)).(rows := Recorded(s.rows, run.key, run.operation, remote))
    case ClaimingContact(remote) =>
      if !e.ClaimContact? then s
      else if !MayClaimContact(s.rows, run.key, run.operation) then Gone(s, w)
      else At(s, w, Adding(remote)).(rows := ContactClaimed(s.rows, run.key, run.operation))
    case Adding(remote) =>
      if !e.AddContact? then s
      else
        (match e.answer
         case None => Gone(s, w).(additions := s.additions + [run.key])
         case Some(id) => At(s, w, Verifying(remote, id)).(additions := s.additions + [run.key]))
    case Verifying(remote, contact) =>
      if !e.Verified? then s else if e.ok then At(s, w, Completing(remote, contact)) else Gone(s, w)
    case Completing(remote, contact) =>
      if !e.Complete? then s
      else if run.key !in s.rows || run.key in s.mappings then Gone(s, w)
      else Gone(s, w).(rows := s.rows[run.key := s.rows[run.key].(remoteContact := Some(contact))],
                       mappings := s.mappings[run.key := Mapping(remote, contact)])
  }

  function Step(s: State, e: Event): State {
    if e.Start? then
      if e.worker in s.workers || e.key in s.mappings then s
      else s.(workers := s.workers[e.worker := Worker(e.operation, e.key, Searching)])
    else if e.worker !in s.workers then s
    else if e.Stop? then Gone(s, e.worker)
    else Advance(s, e.worker, e)
  }

  function Run(s: State, events: seq<Event>): State
    decreases |events|
  {
    if events == [] then s else Run(Step(s, events[0]), events[1..])
  }

  const EMPTY: State := State(map[], map[], map[], [], [])

  // ----- the invariant ------------------------------------------------------------------------

  ghost predicate OneSignupPending(rows: map<Key, Row>) {
    forall k, l | k in rows && l in rows && k.account == l.account && k.customer == l.customer
      && Pending(rows[k]) && Pending(rows[l]) :: k == l
  }

  ghost predicate RowsSound(s: State) {
    && (forall k | k in s.rows && s.rows[k].contactClaimed :: s.rows[k].remoteCustomer.Some?)
    && (forall k | k in s.mappings :: k in s.rows && s.rows[k].contactClaimed)
  }

  ghost predicate SignupsSound(s: State) {
    && (forall i | 0 <= i < |s.signups| :: s.signups[i] in s.rows && s.rows[s.signups[i]].customerClaimed)
    && (forall i, j | 0 <= i < j < |s.signups| :: s.signups[i] != s.signups[j])
  }

  ghost predicate AdditionsSound(s: State) {
    && (forall i | 0 <= i < |s.additions| :: s.additions[i] in s.rows && s.rows[s.additions[i]].contactClaimed)
    && (forall i, j | 0 <= i < j < |s.additions| :: s.additions[i] != s.additions[j])
  }

  ghost predicate Knows(s: State, w: Id)
    requires w in s.workers
  {
    var run := s.workers[w];
    && (run.stage.SigningUp? ==> run.key in s.rows && s.rows[run.key].customerClaimed && run.key !in s.signups)
    && (run.stage.ClaimingContact? ==> run.key in s.rows && s.rows[run.key].remoteCustomer.Some?)
    && (run.stage.Adding? ==> run.key in s.rows && s.rows[run.key].contactClaimed && run.key !in s.additions)
    && (run.stage.Verifying? || run.stage.Completing? ==> run.key in s.rows && s.rows[run.key].contactClaimed)
  }

  ghost predicate AllKnow(s: State) {
    forall w | w in s.workers :: Knows(s, w)
  }

  ghost predicate OneSigningUp(s: State) {
    forall v, w | v in s.workers && w in s.workers && s.workers[v].stage.SigningUp? && s.workers[w].stage.SigningUp?
      && s.workers[v].key == s.workers[w].key :: v == w
  }

  ghost predicate OneAdding(s: State) {
    forall v, w | v in s.workers && w in s.workers && s.workers[v].stage.Adding? && s.workers[w].stage.Adding?
      && s.workers[v].key == s.workers[w].key :: v == w
  }

  ghost predicate Inv(s: State) {
    && OneSignupPending(s.rows) && RowsSound(s) && SignupsSound(s) && AdditionsSound(s)
    && AllKnow(s) && OneSigningUp(s) && OneAdding(s)
  }

  lemma StepKeepsPending(s: State, e: Event)
    requires Inv(s)
    ensures OneSignupPending(Step(s, e).rows)
  {
    hide RowsSound, SignupsSound, AdditionsSound, AllKnow, OneSigningUp, OneAdding, MayClaimContact;
  }

  lemma StepKeepsRows(s: State, e: Event)
    requires Inv(s)
    ensures RowsSound(Step(s, e))
  {
    hide OneSignupPending, SignupsSound, AdditionsSound, OneSigningUp, OneAdding, MayClaimCustomer;
  }

  lemma StepKeepsSignups(s: State, e: Event)
    requires Inv(s)
    ensures SignupsSound(Step(s, e))
  {
    hide OneSignupPending, RowsSound, AdditionsSound, OneSigningUp, OneAdding, MayClaimCustomer, MayClaimContact;
  }

  lemma StepKeepsAdditions(s: State, e: Event)
    requires Inv(s)
    ensures AdditionsSound(Step(s, e))
  {
    hide OneSignupPending, RowsSound, SignupsSound, OneSigningUp, OneAdding, MayClaimCustomer, MayClaimContact;
  }

  /** The rows only gain flags and ids, so a worker that does not move still knows what it knew. */
  ghost predicate Grows(s: State, t: State) {
    forall k | k in s.rows ::
      && k in t.rows && t.rows[k].operation == s.rows[k].operation
      && (s.rows[k].customerClaimed ==> t.rows[k].customerClaimed)
      && (s.rows[k].contactClaimed ==> t.rows[k].contactClaimed)
      && (s.rows[k].remoteCustomer.Some? ==> t.rows[k].remoteCustomer.Some?)
  }

  lemma StepGrows(s: State, e: Event)
    ensures Grows(s, Step(s, e))
  {
    hide MayClaimCustomer, MayClaimContact;
  }

  lemma OthersStay(s: State, e: Event)
    ensures forall w | w != e.worker :: w in Step(s, e).workers <==> w in s.workers
    ensures forall w | w != e.worker && w in s.workers :: Step(s, e).workers[w] == s.workers[w]
  {
    hide MayClaimCustomer, MayClaimContact;
  }

  /** Remote calls are entered only from the stage that follows their claim. */
  lemma CallsGrow(s: State, e: Event)
    ensures var t := Step(s, e);
      && (t.signups == s.signups
          || (e.worker in s.workers && s.workers[e.worker].stage.SigningUp? && t.signups == s.signups + [s.workers[e.worker].key]))
      && (t.additions == s.additions
          || (e.worker in s.workers && s.workers[e.worker].stage.Adding? && t.additions == s.additions + [s.workers[e.worker].key]))
  {
    hide MayClaimCustomer, MayClaimContact;
  }

  lemma MoverKnows(s: State, e: Event)
    requires Inv(s) && e.worker in Step(s, e).workers
    ensures Knows(Step(s, e), e.worker)
  {
    hide OneSignupPending, RowsSound, OneSigningUp, OneAdding, PendingElsewhere;
  }

  lemma StepKeepsKnowing(s: State, e: Event)
    requires Inv(s)
    ensures AllKnow(Step(s, e))
  {
    hide OneSignupPending, RowsSound, SignupsSound, AdditionsSound, Step;
    StepGrows(s, e);
    OthersStay(s, e);
    CallsGrow(s, e);
    forall w | w in Step(s, e).workers ensures Knows(Step(s, e), w) {
      if w == e.worker { MoverKnows(s, e); } else { assert Knows(s, w); }
    }
  }

  /** A worker enters a creating stage only while nobody else is in it for the same key. */
  lemma MoverIsAlone(s: State, e: Event)
    requires Inv(s) && e.worker in Step(s, e).workers
    ensures var t := Step(s, e); var run := t.workers[e.worker];
      && (run.stage.SigningUp? ==>
            forall v | v in s.workers && v != e.worker && s.workers[v].stage.SigningUp? :: s.workers[v].key != run.key)
      && (run.stage.Adding? ==>
            forall v | v in s.workers && v != e.worker && s.workers[v].stage.Adding? :: s.workers[v].key != run.key)
  {
    hide OneSignupPending, RowsSound, SignupsSound, AdditionsSound, PendingElsewhere;
  }

  lemma StepKeepsOrder(s: State, e: Event)
    requires Inv(s)
    ensures OneSigningUp(Step(s, e)) && OneAdding(Step(s, e))
  {
    hide OneSignupPending, RowsSound, SignupsSound, AdditionsSound, AllKnow, Step;
    OthersStay(s, e);
    if e.worker in Step(s, e).workers { MoverIsAlone(s, e); }
  }

  lemma StepKeeps(s: State, e: Event)
    requires Inv(s)
    ensures Inv(Step(s, e))
  {
    hide OneSignupPending, RowsSound, SignupsSound, AdditionsSound, AllKnow, OneSigningUp, OneAdding, Step;
    StepKeepsPending(s, e);
    StepKeepsRows(s, e);
    StepKeepsSignups(s, e);
    StepKeepsAdditions(s, e);
    StepKeepsKnowing(s, e);
    StepKeepsOrder(s, e);
  }

  lemma {:induction false} RunKeeps(s: State, events: seq<Event>)
    requires Inv(s)
    ensures Inv(Run(s, events))
    decreases |events|
  {
    hide Inv, Step;
    if events != [] {
      StepKeeps(s, events[0]);
      RunKeeps(Step(s, events[0]), events[1..]);
    }
  }

  // ----- what holds in every run --------------------------------------------------------------

  /** Per account and customer at most one claimed signup still lacks its remote id. */
  lemma OneUnresolvedSignup(events: seq<Event>, k: Key, l: Key)
    requires var s := Run(EMPTY, events);
      k in s.rows && l in s.rows && k.account == l.account && k.customer == l.customer
      && Pending(s.rows[k]) && Pending(s.rows[l])
    ensures k == l
  {
    hide Run;
    RunKeeps(EMPTY, events);
  }

  /** Per key the remote signup and the remote contact creation happen at most once, and only when claimed. */
  lemma CreatedAtMostOnce(events: seq<Event>)
    ensures var s := Run(EMPTY, events);
      && (forall i, j | 0 <= i < j < |s.signups| :: s.signups[i] != s.signups[j])
      && (forall i, j | 0 <= i < j < |s.additions| :: s.additions[i] != s.additions[j])
      && (forall i | 0 <= i < |s.signups| :: s.signups[i] in s.rows && s.rows[s.signups[i]].customerClaimed)
      && (forall i | 0 <= i < |s.additions| :: s.additions[i] in s.rows && s.rows[s.additions[i]].contactClaimed)
  {
    hide Run;
    RunKeeps(EMPTY, events);
  }

  /** A contact is claimed, and a mapping exists, only after a remote customer was recorded. */
  lemma ContactFollowsCustomer(events: seq<Event>, k: Key)
    ensures var s := Run(EMPTY, events);
      && (k in s.rows && s.rows[k].contactClaimed ==> s.rows[k].remoteCustomer.Some?)
      && (k in s.mappings ==> k in s.rows && s.rows[k].contactClaimed && s.rows[k].remoteCustomer.Some?)
  {
    hide Run;
    RunKeeps(EMPTY, events);
  }

  /** A mapping is written once and stays, and no run starts for its key any more. */
  lemma MappingsStay(s: State, e: Event, k: Key)
    requires k in s.mappings
    ensures k in Step(s, e).mappings && Step(s, e).mappings[k] == s.mappings[k]
    ensures e.Start? && e.key == k ==> Step(s, e) == s
  {
    hide MayClaimCustomer, MayClaimContact;
  }
}
