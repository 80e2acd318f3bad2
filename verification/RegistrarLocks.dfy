/**
 The row locks of registrar transactions and the order they are taken in
 (packages/database/src/registrar/processor.ts, preparation.ts and packages/database/src/fulfillment.ts).
 */
module RegistrarLocks {
  import opened CodeUnits
  import opened Options
  import opened Sorting

  datatype Row =
    | Invoice(id: Text)
    | Domain(id: Text)
    | Operation(id: Text)
    | Account(id: Text)
    | Order(id: Text)

  /** The transactions that lock rows explicitly; an order is locked only when a domain was registered. */
  datatype Transaction =
    | Preparation(invoice: Text, domain: Text, operation: Text, account: Text, selected: Option<Text>)
    | Settlement(invoice: Text, domain: Text, operation: Text, order: Option<Text>)
    | ContactClaim(account: Text)

  /** The account ids without repeats, sorted as strings. */
  function AccountIds(account: Text, selected: Option<Text>): seq<Text> {
    var other := match selected case Some(id) => id case None => account;
    Sort(if other == account then [account] else [account, other], TextLess)
  }

  function Accounts(ids: seq<Text>): seq<Row> {
    seq(|ids|, i requires 0 <= i < |ids| => Account(ids[i]))
  }

  function Locks(t: Transaction): seq<Row> {
    match t
    case Preparation(invoice, domain, operation, account, selected) =>
      [Invoice(invoice), Domain(domain), Operation(operation)] + Accounts(AccountIds(account, selected))
    case Settlement(invoice, domain, operation, order) =>
      [Invoice(invoice), Domain(domain), Operation(operation)]
      + (match order case Some(id) => [Order(id)] case None => [])
    case ContactClaim(account) => [Account(account)]
  }

  // ----- the order ----------------------------------------------------------------------------

  function Rank(r: Row): nat {
    match r
    case Invoice(_) => 0
    case Domain(_) => 1
    case Operation(_) => 2
    case Account(_) => 3
    case Order(_) => 4
  }

  predicate Before(a: Row, b: Row) {
    Rank(a) < Rank(b) || (Rank(a) == Rank(b) && TextLess(a.id, b.id))
  }

  lemma BeforeIsStrict(a: Row, b: Row)
    ensures !(Before(a, b) && Before(b, a))
    ensures a != b <==> Before(a, b) || Before(b, a)
  {
    TextLessIsStrict(a.id, b.id);
    assert Rank(a) == Rank(b) && a.id == b.id ==> a == b;
  }

  lemma BeforeTransitive(a: Row, b: Row, c: Row)
    requires Before(a, b) && Before(b, c)
    ensures Before(a, c)
  {
    if Rank(a) == Rank(b) == Rank(c) { TextLessTransitive(a.id, b.id, c.id); }
  }

  ghost predicate Climbs(rows: seq<Row>) {
    forall i, j | 0 <= i < j < |rows| :: Before(rows[i], rows[j])
  }

  lemma TextLessOn(ids: set<Text>)
    ensures StrictOn(TextLess, ids)
  {
    forall a, b | a in ids && b in ids ensures (a != b ==> TextLess(a, b) != TextLess(b, a)) && !TextLess(a, a) {
      TextLessIsStrict(a, b);
      TextLessIsStrict(a, a);
    }
    forall a, b, c | a in ids && b in ids && c in ids && TextLess(a, b) && TextLess(b, c) ensures TextLess(a, c) {
      TextLessTransitive(a, b, c);
    }
  }

  /** At most two account ids, in ascending order. */
  lemma AccountIdsAscend(account: Text, selected: Option<Text>)
    ensures var ids := AccountIds(account, selected);
      && 1 <= |ids| <= 2 && (|ids| == 2 ==> TextLess(ids[0], ids[1]))
      && Elements(ids) == {account} + (match selected case Some(id) => {id} case None => {})
  {
    var other := match selected case Some(id) => id case None => account;
    var ids := if other == account then [account] else [account, other];
    TextLessOn(Elements(ids));
    SortSorts(ids, TextLess);
    var sorted := Sort(ids, TextLess);
    assert Ascending(TextLess, sorted);
    if |sorted| == 2 { assert sorted[1] in sorted[1..]; }
    assert Elements(ids) == {account, other};
  }

  /** Every transaction takes its locks in ascending order, whatever ids it meets. */
  lemma LocksClimb(t: Transaction)
    ensures Climbs(Locks(t))
  {
    if t.Preparation? {
      hide AccountIds, TextLess;
      AccountIdsAscend(t.account, t.selected);
    }
  }

  // ----- transactions running at once ---------------------------------------------------------

  type Id = nat

  /** A transaction that has been granted the first `taken` of its locks. */
  datatype Running = Running(transaction: Transaction, taken: nat)

  type State = map<Id, Running>

  datatype Event = Begin(id: Id, transaction: Transaction) | Acquire(id: Id) | End(id: Id)

  function Held(r: Running): set<Row>
    requires r.taken <= |Locks(r.transaction)|
  {
    Elements(Locks(r.transaction)[..r.taken])
  }

  predicate Wants(r: Running) {
    r.taken < |Locks(r.transaction)|
  }

  function Next(r: Running): Row
    requires Wants(r)
  {
    Locks(r.transaction)[r.taken]
  }

  ghost predicate Sound(s: State) {
    && (forall a | a in s :: s[a].taken <= |Locks(s[a].transaction)|)
    && (forall a, b | a in s && b in s && a != b :: Held(s[a]) !! Held(s[b]))
  }

  /** Transaction a cannot go on before b ends. */
  ghost predicate WaitsFor(s: State, a: Id, b: Id)
    requires Sound(s)
  {
    a in s && b in s && a != b && Wants(s[a]) && Next(s[a]) in Held(s[b])
  }

  ghost predicate Blocked(s: State, a: Id)
    requires Sound(s)
  {
    exists b :: WaitsFor(s, a, b)
  }

  /** A lock is granted when no other transaction holds it; committing or rolling back frees them all. */
  ghost function Step(s: State, e: Event): State
    requires Sound(s)
  {
    match e
    case Begin(id, t) => if id in s then s else s[id := Running(t, 0)]
    case Acquire(id) =>
      if id !in s || !Wants(s[id]) || Blocked(s, id) then s else s[id := s[id].(taken := s[id].taken + 1)]
    case End(id) => s - {id}
  }

  lemma StepIsSound(s: State, e: Event)
    requires Sound(s)
    ensures Sound(Step(s, e))
  {
    hide Locks;
    var t := Step(s, e);
    if e.Acquire? && e.id in s && Wants(s[e.id]) && !Blocked(s, e.id) {
      var r := s[e.id];
      HeldGrows(r);
      forall b | b in s && b != e.id ensures Held(t[e.id]) !! Held(s[b]) {
        assert !WaitsFor(s, e.id, b);
      }
    }
  }

  lemma HeldGrows(r: Running)
    requires Wants(r)
    ensures Held(r.(taken := r.taken + 1)) == Held(r) + {Next(r)}
  {
    hide Locks;
    var rows := Locks(r.transaction);
    assert rows[..r.taken + 1] == rows[..r.taken] + [rows[r.taken]];
  }

  ghost function Run(s: State, events: seq<Event>): (t: State)
    requires Sound(s)
    ensures Sound(t)
    decreases |events|
  {
    if events == [] then s
    else
      StepIsSound(s, events[0]);
      Run(Step(s, events[0]), events[1..])
  }

  // ----- no deadlock --------------------------------------------------------------------------

  /** Whoever is waited for wants, if anything, a later row. */
  lemma WaitingClimbs(s: State, a: Id, b: Id)
    requires Sound(s) && WaitsFor(s, a, b) && Wants(s[b])
    ensures Before(Next(s[a]), Next(s[b]))
  {
    hide Locks, Before;
    LocksClimb(s[b].transaction);
  }

  ghost predicate WaitingPath(s: State, path: seq<Id>)
    requires Sound(s)
  {
    forall i | 0 < i < |path| :: WaitsFor(s, path[i - 1], path[i])
  }

  lemma {:induction false} PathClimbs(s: State, path: seq<Id>)
    requires Sound(s) && |path| >= 2 && WaitingPath(s, path) && WaitsFor(s, path[0], path[1])
    requires path[|path| - 1] in s && Wants(s[path[|path| - 1]])
    ensures Before(Next(s[path[0]]), Next(s[path[|path| - 1]]))
    decreases |path|
  {
    hide Locks, Before, Next, Sound, Held;
    var k := |path| - 1;
    assert WaitsFor(s, path[k - 1], path[k]);
    WaitingClimbs(s, path[k - 1], path[k]);
    if k > 1 {
      var front := path[..k];
      forall i | 0 < i < |front| ensures WaitsFor(s, front[i - 1], front[i]) {
        assert WaitsFor(s, path[i - 1], path[i]);
      }
      PathClimbs(s, front);
      BeforeTransitive(Next(s[path[0]]), Next(s[path[k - 1]]), Next(s[path[k]]));
    }
  }

  /** In no reachable state does a chain of waiting transactions come back to its start. */
  lemma NoCyclicWait(events: seq<Event>, path: seq<Id>)
    requires |path| >= 2 && WaitingPath(Run(map[], events), path)
    ensures path[0] != path[|path| - 1]
  {
    hide Locks, Before, Next, Run, Held;
    var s := Run(map[], events);
    assert WaitsFor(s, path[0], path[1]);
    if path[0] == path[|path| - 1] {
      PathClimbs(s, path);
      BeforeIsStrict(Next(s[path[0]]), Next(s[path[0]]));
    }
  }

  lemma {:induction false} LastWish(s: State, ids: set<Id>) returns (top: Id)
    requires ids != {} && forall a | a in ids :: a in s && Wants(s[a])
    ensures top in ids && forall a | a in ids :: !Before(Next(s[top]), Next(s[a]))
    decreases ids
  {
    hide Locks, Before, Next;
    var a :| a in ids;
    if ids == {a} {
      top := a;
      BeforeIsStrict(Next(s[a]), Next(s[a]));
    } else {
      top := LastWish(s, ids - {a});
      BeforeIsStrict(Next(s[top]), Next(s[a]));
      if Before(Next(s[top]), Next(s[a])) {
        forall b | b in ids ensures !Before(Next(s[a]), Next(s[b])) {
          BeforeIsStrict(Next(s[a]), Next(s[a]));
          if b != a && Before(Next(s[a]), Next(s[b])) {
            BeforeTransitive(Next(s[top]), Next(s[a]), Next(s[b]));
          }
        }
        top := a;
      }
    }
  }

  lemma SomeoneIsFree(s: State)
    requires Sound(s) && s != map[]
    ensures exists a | a in s :: !Blocked(s, a)
  {
    hide Locks, Before, Next, Sound, Held;
    if forall a | a in s :: Blocked(s, a) {
      forall a | a in s.Keys ensures Wants(s[a]) {
        var b :| WaitsFor(s, a, b);
      }
      assert s.Keys != {};
      var top := LastWish(s, s.Keys);
      var b :| WaitsFor(s, top, b);
      WaitingClimbs(s, top, b);
    }
  }

  /** While any transaction is running, one of them is not blocked. */
  lemma SomeoneCanGoOn(events: seq<Event>)
    ensures var s := Run(map[], events); s != map[] ==> exists a | a in s :: !Blocked(s, a)
  {
    hide Run, Blocked;
    var s := Run(map[], events);
    if s != map[] { SomeoneIsFree(s); }
  }
}
