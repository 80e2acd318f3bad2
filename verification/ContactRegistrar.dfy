/**
 The preparation store and ensureContacts as they are written
 (packages/database/src/registrar/preparation.ts and resellbiz-live.ts), proved to take the steps of the
 preparation protocol.
 */
module ContactRegistrar {
  import opened ContactDecisions
  import opened ContactPreparation
  import opened Options

  datatype Claimable = TheCustomer | TheContact

  class Store {
    var rows: map<Key, Row>
    var mappings: map<Key, Mapping>
    ghost var workers: map<Id, Worker>
    ghost var signups: seq<Key>
    ghost var additions: seq<Key>

    constructor ()
      ensures Contents() == EMPTY
    {
      rows, mappings, workers, signups, additions := map[], map[], map[], [], [];
    }

    ghost function Contents(): State
      reads this
    {
      State(rows, mappings, workers, signups, additions)
    }

    method Load(key: Key) returns (binding: Option<Mapping>)
      ensures binding == if key in mappings then Some(mappings[key]) else None
    {
      if key in mappings { return Some(mappings[key]); }
      return None;
    }

    /** The query for an earlier signup of this account and customer that is still unresolved. */
    method FindPrior(key: Key) returns (prior: bool)
      ensures prior <==> PendingElsewhere(rows, key)
    {
      var others := set k | k in rows && k != key && k.account == key.account && k.customer == key.customer && Pending(rows[k]);
      prior := others != {};
      if PendingElsewhere(rows, key) {
        ghost var k :| k in rows && k != key && k.account == key.account && k.customer == key.customer && Pending(rows[k]);
        assert k in others;
      }
    }

    /** One claim transaction; false when it throws, and then nothing is kept of it. */
    method Claim(key: Key, operation: Id, step: Claimable) returns (ok: bool)
      modifies this`rows
      ensures ok == if step == TheCustomer then MayClaimCustomer(old(rows), key, operation)
                    else MayClaimContact(old(rows), key, operation)
      ensures rows == if !ok then old(rows)
                      else if step == TheCustomer then CustomerClaimed(old(rows), key, operation)
                      else ContactClaimed(old(rows), key, operation)
    {
      var row := if key in rows then rows[key] else NewRow(operation);
      if row.operation != operation || (if step == TheCustomer then row.customerClaimed else row.contactClaimed) {
        return false;
      }
      if step == TheCustomer {
        var prior := FindPrior(key);
        if prior { return false; }
        rows := rows[key := row.(customerClaimed := true)];
      } else {
        if row.remoteCustomer.None? { return false; }
        rows := rows[key := row.(contactClaimed := true)];
      }
      return true;
    }

    method Customer(key: Key, operation: Id, remote: Id)
      modifies this`rows
      ensures rows == Recorded(old(rows), key, operation, remote)
    {
      var row := if key in rows then rows[key] else NewRow(operation);
      rows := rows[key := row.(remoteCustomer := Some(remote))];
    }

    /** False when the row is missing or the mapping exists already. */
    method Complete(key: Key, remote: Id, contact: Id) returns (ok: bool)
      modifies this`rows, this`mappings
      ensures ok <==> key in old(rows) && key !in old(mappings)
      ensures ok ==> rows == old(rows)[key := old(rows)[key].(remoteContact := Some(contact))]
                     && mappings == old(mappings)[key := Mapping(remote, contact)]
      ensures !ok ==> rows == old(rows) && mappings == old(mappings)
    {
      if key !in rows || key in mappings { return false; }
      rows := rows[key := rows[key].(remoteContact := Some(contact))];
      mappings := mappings[key := Mapping(remote, contact)];
      return true;
    }
  }

  class LiveRegistrar {
    const store: Store
    var binding: Option<Mapping>
    ghost const worker: Id

    constructor (store: Store, ghost worker: Id)
      ensures this.store == store && this.worker == worker && binding == None
    {
      this.store, this.worker := store, worker;
      binding := None;
    }

    /** An event of one call, with the answer it gets; stopping half-way is not one of them. */
    ghost predicate Allowed(e: Event, operation: Id, key: Key, answers: Answers) {
      && e.worker == worker
      && match e
         case Start(_, o, k) => o == operation && k == key
         case SearchAnswer(_, found) => found == answers.search
         case Signup(_, answer) => answer == answers.signup
         case Checked(_, ok) => ok == answers.checked
         case AddContact(_, answer) => answer == answers.contact
         case Verified(_, ok) => ok == answers.verified
         case Stop(_) => false
         case _ => true
    }

    ghost predicate Truthful(trace: seq<Event>, operation: Id, key: Key, answers: Answers) {
      forall i | 0 <= i < |trace| :: Allowed(trace[i], operation, key, answers)
    }

    /** The trace of this run so far, and where it has got to. */
    ghost predicate Reached(before: State, trace: seq<Event>, operation: Id, key: Key, answers: Answers, stage: Stage)
      reads store
    {
      && store.Contents() == Run(before, trace) && Truthful(trace, operation, key, answers)
      && trace != [] && trace[0] == Start(worker, operation, key)
      && worker in store.workers && store.workers[worker] == Worker(operation, key, stage)
    }

    ghost predicate Finished(before: State, trace: seq<Event>, operation: Id, key: Key, answers: Answers)
      reads store
    {
      && store.Contents() == Run(before, trace) && Truthful(trace, operation, key, answers)
      && trace != [] && trace[0] == Start(worker, operation, key)
      && worker !in store.workers
    }

    /**
     False when it throws.  Without a binding or a mapping it goes through the steps of the protocol to their
     end, with the answers it gets.
     */
    method EnsureContacts(operation: Id, key: Key, answers: Answers) returns (ok: bool, ghost trace: seq<Event>)
      requires worker !in store.workers
      modifies this`binding, store
      ensures old(binding).None? && key !in old(store.mappings) ==>
                Finished(old(store.Contents()), trace, operation, key, answers)
      ensures ok ==> binding.Some? && answers.verified
      ensures old(binding).Some? || key in old(store.mappings) ==> ok == answers.verified
      ensures ok && old(binding).None? ==> key in store.mappings && store.mappings[key] == binding.value
      ensures old(binding).Some? || key in old(store.mappings) ==> store.Contents() == old(store.Contents())
      ensures old(binding).None? && key !in old(store.mappings) ==>
                (BooksOf(store.Contents()), ok) == AfterRun(BooksOf(old(store.Contents())), operation, key, answers)
    {
      hide Run, Step, AfterSearch, AfterCheck, AfterContact, AfterVerification;
      ghost var before := store.Contents();
      trace := [];
      NoEvents(before);
      if binding.None? { binding := store.Load(key); }
      if binding.Some? { return answers.verified, trace; }
      trace := StartRun(before, operation, key, answers);
      var remote: Option<Id>;
      remote, trace := FindOrSignUp(before, trace, operation, key, answers);
      if remote.None? { return false, trace; }
      ok, trace := RecordCustomer(before, trace, operation, key, remote.value, answers);
      if !ok { return false, trace; }
      var contact: Option<Id>;
      contact, trace := CreateContact(before, trace, operation, key, remote.value, answers);
      if contact.None? { return false, trace; }
      binding := Some(Mapping(remote.value, contact.value));
      ok, trace := Conclude(before, trace, operation, key, remote.value, contact.value, answers);
    }

    /** The remote customer is checked and its id recorded. */
    method RecordCustomer(ghost before: State, ghost soFar: seq<Event>, operation: Id, key: Key, remote: Id, answers: Answers)
      returns (ok: bool, ghost trace: seq<Event>)
      requires Reached(before, soFar, operation, key, answers, Checking(remote))
      modifies store
      ensures ok ==> Reached(before, trace, operation, key, answers, ContactPreparation.ClaimingContact(remote))
      ensures !ok ==> Finished(before, trace, operation, key, answers)
      ensures ok == answers.checked
      ensures BooksOf(store.Contents()) == AfterCheck(BooksOf(old(store.Contents())), operation, key, remote, answers)
    {
      hide Run, Truthful;
      trace := Took(before, soFar, operation, key, answers, Checked(worker, answers.checked));
      if !answers.checked { Leave(); return false, trace; }
      Go(Recording(remote));
      trace := Took(before, trace, operation, key, answers, Record(worker));
      store.Customer(key, operation, remote);
      Go(ContactPreparation.ClaimingContact(remote));
      return true, trace;
    }

    /** The contact is claimed and then created, once. */
    method CreateContact(ghost before: State, ghost soFar: seq<Event>, operation: Id, key: Key, remote: Id, answers: Answers)
      returns (contact: Option<Id>, ghost trace: seq<Event>)
      requires Reached(before, soFar, operation, key, answers, ContactPreparation.ClaimingContact(remote))
      modifies store
      ensures contact.Some? ==> Reached(before, trace, operation, key, answers, Verifying(remote, contact.value))
      ensures contact.None? ==> Finished(before, trace, operation, key, answers)
      ensures (BooksOf(store.Contents()), contact) == AfterContact(BooksOf(old(store.Contents())), operation, key, answers)
    {
      hide Run, Truthful;
      trace := Took(before, soFar, operation, key, answers, ClaimContact(worker));
      var ok := store.Claim(key, operation, TheContact);
      if !ok { Leave(); return None, trace; }
      Go(Adding(remote));
      trace := Took(before, trace, operation, key, answers, AddContact(worker, answers.contact));
      store.additions := store.additions + [key];
      if answers.contact.None? { Leave(); return None, trace; }
      Go(Verifying(remote, answers.contact.value));
      return answers.contact, trace;
    }

    method Conclude(ghost before: State, ghost soFar: seq<Event>, operation: Id, key: Key, remote: Id, contact: Id,
                    answers: Answers)
      returns (ok: bool, ghost trace: seq<Event>)
      requires Reached(before, soFar, operation, key, answers, Verifying(remote, contact))
      modifies store
      ensures Finished(before, trace, operation, key, answers)
      ensures ok ==> answers.verified && key in store.mappings && store.mappings[key] == Mapping(remote, contact)
      ensures (BooksOf(store.Contents()), ok)
           == AfterVerification(BooksOf(old(store.Contents())), key, remote, contact, answers)
    {
      hide Run, Truthful;
      trace := Took(before, soFar, operation, key, answers, Verified(worker, answers.verified));
      if !answers.verified { Leave(); return false, trace; }
      Go(Completing(remote, contact));
      trace := Took(before, trace, operation, key, answers, ContactPreparation.Complete(worker));
      ok := store.Complete(key, remote, contact);
      Leave();
    }

    /** The customer the search finds, or the one a claimed signup creates. */
    method FindOrSignUp(ghost before: State, ghost soFar: seq<Event>, operation: Id, key: Key, answers: Answers)
      returns (remote: Option<Id>, ghost trace: seq<Event>)
      requires Reached(before, soFar, operation, key, answers, Searching)
      modifies store
      ensures remote.Some? ==> Reached(before, trace, operation, key, answers, Checking(remote.value))
      ensures remote.None? ==> Finished(before, trace, operation, key, answers)
      ensures store.mappings == old(store.mappings)
      ensures (BooksOf(store.Contents()), remote) == AfterSearch(BooksOf(old(store.Contents())), operation, key, answers)
    {
      hide Run, Truthful, MayClaimCustomer, MaySignUp, SignupClaimed;
      ClaimsAgree(store.rows, operation, key);
      trace := Took(before, soFar, operation, key, answers, SearchAnswer(worker, answers.search));
      match answers.search {
        case Incomplete =>
          Leave();
          return None, trace;
        case Customer(id) =>
          Go(Checking(id));
          return Some(id), trace;
        case Nobody =>
          Go(ClaimingCustomer);
          trace := Took(before, trace, operation, key, answers, ClaimCustomer(worker));
          var ok := store.Claim(key, operation, TheCustomer);
          if !ok { Leave(); return None, trace; }
          Go(SigningUp);
          trace := Took(before, trace, operation, key, answers, Signup(worker, answers.signup));
          store.signups := store.signups + [key];
          if answers.signup.None? { Leave(); return None, trace; }
          Go(Checking(answers.signup.value));
          return answers.signup, trace;
      }
    }

    /** The next event of the trace; the code after it makes the rows follow. */
    ghost method Took(before: State, trace: seq<Event>, operation: Id, key: Key, answers: Answers, e: Event)
      returns (longer: seq<Event>)
      requires store.Contents() == Run(before, trace) && Truthful(trace, operation, key, answers)
      requires Allowed(e, operation, key, answers)
      ensures longer == trace + [e] && Run(before, longer) == Step(store.Contents(), e)
      ensures Truthful(longer, operation, key, answers)
    {
      longer := trace + [e];
      RunSnoc(before, trace, e);
    }

    ghost method StartRun(before: State, operation: Id, key: Key, answers: Answers) returns (trace: seq<Event>)
      requires store.Contents() == before && worker !in store.workers && key !in store.mappings
      modifies store`workers
      ensures Reached(before, trace, operation, key, answers, Searching)
    {
      NoEvents(before);
      trace := Took(before, [], operation, key, answers, Start(worker, operation, key));
      store.workers := store.workers[worker := Worker(operation, key, Searching)];
    }

    ghost method Go(stage: Stage)
      requires worker in store.workers
      modifies store`workers
      ensures store.workers == old(store.workers)[worker := old(store.workers)[worker].(stage := stage)]
    {
      store.workers := store.workers[worker := store.workers[worker].(stage := stage)];
    }

    ghost method Leave()
      modifies store`workers
      ensures store.workers == old(store.workers) - {worker}
    {
      store.workers := store.workers - {worker};
    }
  }

  lemma NoEvents(s: State)
    ensures Run(s, []) == s
  {
  }

  lemma {:induction false} RunSnoc(s: State, events: seq<Event>, e: Event)
    ensures Run(s, events + [e]) == Step(Run(s, events), e)
    decreases |events|
  {
    hide Step;
    if events == [] {
      assert [e][1..] == [];
    } else {
      RunSnoc(Step(s, events[0]), events[1..], e);
      assert (events + [e])[1..] == events[1..] + [e];
    }
  }
}
