/**
 What one run of ensureContacts comes to, answer by answer: when the registrar's customer and contact are
 claimed, how often each is created, and what is recorded of them.
 */
module ContactDecisions {
  import opened ContactPreparation
  import opened Options

  /** What the registrar answers during one run. */
  datatype Answers = Answers(search: Found, signup: Option<Id>, checked: bool, contact: Option<Id>, verified: bool)

  /** The rows, the mappings and the remote creations so far. */
  datatype Books = Books(rows: map<Key, Row>, mappings: map<Key, Mapping>, signups: seq<Key>, additions: seq<Key>)

  function BooksOf(s: State): Books {
    Books(s.rows, s.mappings, s.signups, s.additions)
  }

  /** Another key of this account and customer has a signup that was claimed and not recorded. */
  ghost predicate Unresolved(rows: map<Key, Row>, key: Key) {
    exists k | k in rows && k.account == key.account && k.customer == key.customer && k.fingerprint != key.fingerprint ::
      rows[k].customerClaimed && rows[k].remoteCustomer == None
  }

  /** The key is new or this operation's own, its signup was not claimed, and no other one is unresolved. */
  ghost predicate MaySignUp(rows: map<Key, Row>, operation: Id, key: Key) {
    && (key in rows ==> rows[key].operation == operation && !rows[key].customerClaimed)
    && !Unresolved(rows, key)
  }

  function SignupClaimed(rows: map<Key, Row>, operation: Id, key: Key): map<Key, Row> {
    rows[key := if key in rows then rows[key].(customerClaimed := true) else Row(operation, true, false, None, None)]
  }

  /** The customer that the search finds, or that a claimed signup creates. */
  ghost function AfterSearch(b: Books, operation: Id, key: Key, a: Answers): (Books, Option<Id>) {
    match a.search
    case Incomplete => (b, None)
    case Customer(id) => (b, Some(id))
    case Nobody =>
      if !MaySignUp(b.rows, operation, key) then (b, None)
      else (b.(rows := SignupClaimed(b.rows, operation, key), signups := b.signups + [key]), a.signup)
  }

  /** The remote customer is recorded when it was checked, whatever the row says. */
  function AfterCheck(b: Books, operation: Id, key: Key, remote: Id, a: Answers): Books {
    if !a.checked then b
    else
      b.(rows := b.rows[key := if key in b.rows then b.rows[key].(remoteCustomer := Some(remote))
                               else Row(operation, false, false, Some(remote), None)])
  }

  /** One contact, claimed by this operation and never before. */
  function AfterContact(b: Books, operation: Id, key: Key, a: Answers): (Books, Option<Id>) {
    if key !in b.rows || b.rows[key].operation != operation || b.rows[key].contactClaimed || b.rows[key].remoteCustomer == None
    then (b, None)
    else (b.(rows := b.rows[key := b.rows[key].(contactClaimed := true)], additions := b.additions + [key]), a.contact)
  }

  /** A verified contact completes the row and the mapping together. */
  function AfterVerification(b: Books, key: Key, remote: Id, contact: Id, a: Answers): (Books, bool) {
    if !a.verified || key !in b.rows || key in b.mappings then (b, false)
    else
      (b.(rows := b.rows[key := b.rows[key].(remoteContact := Some(contact))],
          mappings := b.mappings[key := Mapping(remote, contact)]), true)
  }

  /** One run without a mapping, and whether it got to its end. */
  ghost function AfterRun(b: Books, operation: Id, key: Key, a: Answers): (Books, bool) {
    var (searched, remote) := AfterSearch(b, operation, key, a);
    if remote == None then (searched, false)
    else
      var checked := AfterCheck(searched, operation, key, remote.value, a);
      if !a.checked then (checked, false)
      else
        var (added, contact) := AfterContact(checked, operation, key, a);
        if contact == None then (added, false) else AfterVerification(added, key, remote.value, contact.value, a)
  }

  // ----- the protocol comes to the same -------------------------------------------------------

  lemma ClaimsAgree(rows: map<Key, Row>, operation: Id, key: Key)
    ensures MaySignUp(rows, operation, key) <==> MayClaimCustomer(rows, key, operation)
    ensures SignupClaimed(rows, operation, key)
         == if key in rows then CustomerClaimed(rows, key, operation)
            else rows[key := Row(operation, true, false, None, None)]
    ensures key !in rows ==> CustomerClaimed(rows, key, operation) == rows[key := Row(operation, true, false, None, None)]
  {
    if Unresolved(rows, key) {
      var k :| k in rows && k.account == key.account && k.customer == key.customer && k.fingerprint != key.fingerprint
               && rows[k].customerClaimed && rows[k].remoteCustomer == None;
      assert Pending(rows[k]);
    }
    if PendingElsewhere(rows, key) {
      var k :| k in rows && k != key && k.account == key.account && k.customer == key.customer && Pending(rows[k]);
      assert k.fingerprint != key.fingerprint;
    }
  }

  /** The state with these books, and a worker of this key at a stage. */
  function WorkingAt(s: State, b: Books, w: Id, operation: Id, key: Key, stage: Stage): State {
    State(b.rows, b.mappings, s.workers[w := Worker(operation, key, stage)], b.signups, b.additions)
  }

  function LeftWith(s: State, b: Books, w: Id): State {
    State(b.rows, b.mappings, s.workers - {w}, b.signups, b.additions)
  }

  lemma StartStep(s: State, w: Id, operation: Id, key: Key)
    requires w !in s.workers && key !in s.mappings
    ensures Step(s, Start(w, operation, key)) == WorkingAt(s, BooksOf(s), w, operation, key, Searching)
  {
  }

  lemma SearchStep(s: State, b: Books, w: Id, operation: Id, key: Key, found: Found)
    ensures Step(WorkingAt(s, b, w, operation, key, Searching), SearchAnswer(w, found))
         == match found
            case Incomplete => LeftWith(s, b, w)
            case Nobody => WorkingAt(s, b, w, operation, key, ClaimingCustomer)
            case Customer(id) => WorkingAt(s, b, w, operation, key, Checking(id))
  {
  }

  lemma SignupSteps(s: State, b: Books, w: Id, operation: Id, key: Key, answer: Option<Id>)
    ensures Step(Step(WorkingAt(s, b, w, operation, key, ClaimingCustomer), ClaimCustomer(w)), Signup(w, answer))
         == if !MaySignUp(b.rows, operation, key) then LeftWith(s, b, w)
            else
              var c := b.(rows := SignupClaimed(b.rows, operation, key), signups := b.signups + [key]);
              if answer == None then LeftWith(s, c, w) else WorkingAt(s, c, w, operation, key, Checking(answer.value))
  {
    hide MaySignUp, MayClaimCustomer, SignupClaimed, CustomerClaimed;
    ClaimsAgree(b.rows, operation, key);
    if MaySignUp(b.rows, operation, key) {
      var c := b.(rows := SignupClaimed(b.rows, operation, key));
      assert Step(WorkingAt(s, b, w, operation, key, ClaimingCustomer), ClaimCustomer(w))
          == WorkingAt(s, c, w, operation, key, SigningUp);
    } else {
      assert Step(WorkingAt(s, b, w, operation, key, ClaimingCustomer), ClaimCustomer(w)) == LeftWith(s, b, w);
    }
  }

  lemma Ignored(s: State, b: Books, w: Id, operation: Id, key: Key, remote: Id, answer: Option<Id>)
    ensures Step(Step(WorkingAt(s, b, w, operation, key, Checking(remote)), ClaimCustomer(w)), Signup(w, answer))
         == WorkingAt(s, b, w, operation, key, Checking(remote))
  {
  }

  lemma SearchDecides(s: State, w: Id, operation: Id, key: Key, a: Answers)
    requires w !in s.workers && key !in s.mappings
    ensures var begun := Step(Step(s, Start(w, operation, key)), SearchAnswer(w, a.search));
      var t := Step(Step(begun, ClaimCustomer(w)), Signup(w, a.signup));
      var (b, remote) := AfterSearch(BooksOf(s), operation, key, a);
      t == if remote == None then LeftWith(s, b, w) else WorkingAt(s, b, w, operation, key, Checking(remote.value))
  {
    hide Step, MaySignUp, SignupClaimed, WorkingAt;
    StartStep(s, w, operation, key);
    SearchStep(s, BooksOf(s), w, operation, key, a.search);
    match a.search {
      case Incomplete => NoMoreSteps(LeftWith(s, BooksOf(s), w), w, ClaimCustomer(w), Signup(w, a.signup));
      case Customer(id) => Ignored(s, BooksOf(s), w, operation, key, id, a.signup);
      case Nobody => SignupSteps(s, BooksOf(s), w, operation, key, a.signup);
    }
  }

  lemma CheckDecides(s: State, b: Books, w: Id, operation: Id, key: Key, remote: Id, a: Answers)
    ensures Step(Step(WorkingAt(s, b, w, operation, key, Checking(remote)), Checked(w, a.checked)), Record(w))
         == var c := AfterCheck(b, operation, key, remote, a);
            if a.checked then WorkingAt(s, c, w, operation, key, ClaimingContact(remote)) else LeftWith(s, c, w)
  {
  }

  lemma ClaimContactStep(s: State, b: Books, w: Id, operation: Id, key: Key, remote: Id)
    requires key in b.rows && b.rows[key].remoteCustomer == Some(remote)
    ensures Step(WorkingAt(s, b, w, operation, key, ClaimingContact(remote)), ClaimContact(w))
         == if b.rows[key].operation != operation || b.rows[key].contactClaimed then LeftWith(s, b, w)
            else WorkingAt(s, b.(rows := b.rows[key := b.rows[key].(contactClaimed := true)]), w, operation, key, Adding(remote))
  {
  }

  lemma AddContactStep(s: State, b: Books, w: Id, operation: Id, key: Key, remote: Id, answer: Option<Id>)
    ensures Step(WorkingAt(s, b, w, operation, key, Adding(remote)), AddContact(w, answer))
         == var c := b.(additions := b.additions + [key]);
            if answer == None then LeftWith(s, c, w) else WorkingAt(s, c, w, operation, key, Verifying(remote, answer.value))
  {
  }

  lemma OneIgnored(s: State, w: Id, e: Event)
    requires w !in s.workers && !e.Start? && e.worker == w
    ensures Step(s, e) == s
  {
  }

  lemma ContactDecides(s: State, b: Books, w: Id, operation: Id, key: Key, remote: Id, a: Answers)
    requires key in b.rows && b.rows[key].remoteCustomer == Some(remote)
    ensures Step(Step(WorkingAt(s, b, w, operation, key, ClaimingContact(remote)), ClaimContact(w)), AddContact(w, a.contact))
         == var (c, contact) := AfterContact(b, operation, key, a);
            if contact == None then LeftWith(s, c, w) else WorkingAt(s, c, w, operation, key, Verifying(remote, contact.value))
  {
    hide Step, WorkingAt;
    ClaimContactStep(s, b, w, operation, key, remote);
    if b.rows[key].operation != operation || b.rows[key].contactClaimed {
      OneIgnored(LeftWith(s, b, w), w, AddContact(w, a.contact));
    } else {
      AddContactStep(s, b.(rows := b.rows[key := b.rows[key].(contactClaimed := true)]), w, operation, key, remote, a.contact);
    }
  }

  lemma VerificationDecides(s: State, b: Books, w: Id, operation: Id, key: Key, remote: Id, contact: Id, a: Answers)
    ensures Step(Step(WorkingAt(s, b, w, operation, key, Verifying(remote, contact)), Verified(w, a.verified)), Complete(w))
         == LeftWith(s, AfterVerification(b, key, remote, contact, a).0, w)
  {
  }

  /** The steps of one run in order; those that are not next do nothing. */
  function FirstSteps(w: Id, operation: Id, key: Key, a: Answers): seq<Event> {
    [Start(w, operation, key), SearchAnswer(w, a.search), ClaimCustomer(w), Signup(w, a.signup)]
  }

  function Steps(w: Id, operation: Id, key: Key, a: Answers): seq<Event> {
    FirstSteps(w, operation, key, a) + [Checked(w, a.checked), Record(w)] + [ClaimContact(w), AddContact(w, a.contact)]
    + [Verified(w, a.verified), Complete(w)]
  }

  lemma {:induction false} RunJoin(s: State, xs: seq<Event>, ys: seq<Event>)
    ensures Run(s, xs + ys) == Run(Run(s, xs), ys)
    decreases |xs|
  {
    hide Step;
    if xs == [] {
      assert xs + ys == ys;
    } else {
      RunJoin(Step(s, xs[0]), xs[1..], ys);
      assert (xs + ys)[1..] == xs[1..] + ys;
    }
  }

  lemma RunTwo(s: State, d: Event, e: Event)
    ensures Run(s, [d, e]) == Step(Step(s, d), e)
  {
    hide Step;
    assert [d, e][1..] == [e] && [e][1..] == [];
    assert Run(Step(s, d), [e]) == Run(Step(Step(s, d), e), []);
  }

  lemma StepsRun(s: State, w: Id, operation: Id, key: Key, a: Answers)
    ensures var begun := Step(Step(s, Start(w, operation, key)), SearchAnswer(w, a.search));
      var t := Step(Step(begun, ClaimCustomer(w)), Signup(w, a.signup));
      var u := Step(Step(t, Checked(w, a.checked)), Record(w));
      var v := Step(Step(u, ClaimContact(w)), AddContact(w, a.contact));
      Run(s, Steps(w, operation, key, a)) == Step(Step(v, Verified(w, a.verified)), Complete(w))
  {
    hide Run, Step;
    var first := FirstSteps(w, operation, key, a);
    var second, third, last := [Checked(w, a.checked), Record(w)], [ClaimContact(w), AddContact(w, a.contact)],
                               [Verified(w, a.verified), Complete(w)];
    RunJoin(s, first + second + third, last);
    RunJoin(s, first + second, third);
    RunJoin(s, first, second);
    assert first == first[..2] + first[2..];
    RunJoin(s, first[..2], first[2..]);
    RunTwo(s, first[0], first[1]);
    RunTwo(Run(s, first[..2]), first[2], first[3]);
    assert first[..2] == [first[0], first[1]] && first[2..] == [first[2], first[3]];
    RunTwo(Run(s, first), second[0], second[1]);
    RunTwo(Run(s, first + second), third[0], third[1]);
    RunTwo(Run(s, first + second + third), last[0], last[1]);
  }

  lemma NoMoreSteps(s: State, w: Id, d: Event, e: Event)
    requires w !in s.workers && !d.Start? && d.worker == w && !e.Start? && e.worker == w
    ensures Step(Step(s, d), e) == s
  {
  }

  /** A run of the protocol that nothing interrupts ends where the answers say. */
  lemma RunDecides(s: State, w: Id, operation: Id, key: Key, a: Answers)
    requires w !in s.workers && key !in s.mappings
    ensures Run(s, Steps(w, operation, key, a)) == LeftWith(s, AfterRun(BooksOf(s), operation, key, a).0, w)
  {
    hide Run, Step, AfterSearch, AfterContact, AfterVerification;
    StepsRun(s, w, operation, key, a);
    SearchDecides(s, w, operation, key, a);
    var (b, remote) := AfterSearch(BooksOf(s), operation, key, a);
    if remote == None {
      NoMoreSteps(LeftWith(s, b, w), w, Checked(w, a.checked), Record(w));
      NoMoreSteps(LeftWith(s, b, w), w, ClaimContact(w), AddContact(w, a.contact));
      NoMoreSteps(LeftWith(s, b, w), w, Verified(w, a.verified), Complete(w));
    } else {
      CheckDecides(s, b, w, operation, key, remote.value, a);
      var c := AfterCheck(b, operation, key, remote.value, a);
      if !a.checked {
        NoMoreSteps(LeftWith(s, c, w), w, ClaimContact(w), AddContact(w, a.contact));
        NoMoreSteps(LeftWith(s, c, w), w, Verified(w, a.verified), Complete(w));
      } else {
        ContactDecides(s, c, w, operation, key, remote.value, a);
        var (d, contact) := AfterContact(c, operation, key, a);
        if contact == None {
          NoMoreSteps(LeftWith(s, d, w), w, Verified(w, a.verified), Complete(w));
        } else {
          VerificationDecides(s, d, w, operation, key, remote.value, contact.value, a);
        }
      }
    }
  }
}
