/**
 Whether an order is complete (packages/database/src/fulfillment.ts).  Its domains are counted, not looked up
 item by item; with the database's indexes, checks and triggers on what is counted, the count and the items
 agree in every state that can be stored.
 */
module Fulfillment {
  import opened CodeUnits
  import opened Options

  type Id = nat

  datatype Kind = Hosting | AddOn | DomainName

  /** takenOver: the provisioning snapshot says that the domain existed before the order. */
  datatype Item = Item(
    order: Id, kind: Kind, requested: Option<Text>, serviceActive: bool, fulfilled: bool, takenOver: bool)

  /** The domain of an item is registered for it; without an item it existed before and was linked. */
  datatype Domain = Domain(item: Option<Id>, name: Text, registered: bool)

  /** order_items, domains and existing_domain_orders: which item took over which domain. */
  datatype Tables = Tables(items: map<Id, Item>, domains: map<Id, Domain>, takeovers: map<Id, Id>)

  const EMPTY: Tables := Tables(map[], map[], map[])

  // ----- the test -----------------------------------------------------------------------------

  function ItemsOf(t: Tables, order: Id): set<Id> {
    set id | id in t.items && t.items[id].order == order
  }

  predicate Pending(item: Item) {
    (item.kind == Hosting && !item.serviceActive) || (item.kind == AddOn && !item.fulfilled)
  }

  function DomainItems(t: Tables, order: Id): set<Id> {
    set id | id in t.items && t.items[id].order == order && t.items[id].kind == DomainName
  }

  /** The domains registered for one of the given items. */
  function Registered(t: Tables, items: set<Id>): set<Id> {
    set d | d in t.domains && t.domains[d].registered && t.domains[d].item.Some? && t.domains[d].item.value in items
  }

  function TakenOver(t: Tables, order: Id): set<Id> {
    set id | id in DomainItems(t, order) && t.items[id].takenOver
  }

  predicate IsLinked(t: Tables, d: Id) {
    d in t.domains && t.domains[d].item.None? && t.domains[d].registered
  }

  /** The existing domains that are registered and that one of the given items took over. */
  function Linked(t: Tables, items: set<Id>): set<Id> {
    set d | d in t.takeovers && t.takeovers[d] in items && IsLinked(t, d)
  }

  predicate OrderFulfillmentComplete(t: Tables, order: Id) {
    if ItemsOf(t, order) == {} then false
    else if exists id | id in ItemsOf(t, order) :: Pending(t.items[id]) then false
    else if DomainItems(t, order) == {} then true
    else |Registered(t, DomainItems(t, order))| + |Linked(t, TakenOver(t, order))| == |DomainItems(t, order)|
  }

  // ----- item by item -------------------------------------------------------------------------

  ghost predicate HasOwn(t: Tables, id: Id) {
    exists d :: d in t.domains && t.domains[d].item == Some(id) && t.domains[d].registered
  }

  ghost predicate HasLinked(t: Tables, id: Id) {
    id in t.items && t.items[id].takenOver && exists d :: d in t.takeovers && t.takeovers[d] == id && IsLinked(t, d)
  }

  ghost predicate Ready(t: Tables, id: Id)
    requires id in t.items
  {
    match t.items[id].kind
    case Hosting => t.items[id].serviceActive
    case AddOn => t.items[id].fulfilled
    case DomainName => HasOwn(t, id) || HasLinked(t, id)
  }

  /** Something was ordered, and each item of it is there. */
  ghost predicate Delivered(t: Tables, order: Id) {
    ItemsOf(t, order) != {} && forall id | id in ItemsOf(t, order) :: Ready(t, id)
  }

  // ----- what can be stored -------------------------------------------------------------------

  datatype Write =
    | AddItem(id: Id, item: Item)
    | EditItem(id: Id, item: Item)
    | RemoveItem(id: Id)
    | OrderTakeover(id: Id, item: Item, domain: Id)
    | Register(domain: Id, id: Id, name: Text)
    | Link(domain: Id, name: Text)
    | SetState(domain: Id, registered: bool)

  predicate NameIsFree(t: Tables, name: Text) {
    forall d | d in t.domains :: t.domains[d].name != name
  }

  /** domain_integrity: a registration is for the name that its item asks for. */
  predicate Asks(t: Tables, id: Id, name: Text) {
    id in t.items && t.items[id].kind == DomainName && t.items[id].requested == Some(name)
  }

  predicate Referenced(t: Tables, id: Id) {
    (exists d | d in t.domains :: t.domains[d].item == Some(id)) || (exists d | d in t.takeovers :: t.takeovers[d] == id)
  }

  /** What the indexes, checks and triggers let through. */
  predicate Accepted(t: Tables, w: Write) {
    match w
    case AddItem(id, item) => id !in t.items && !Referenced(t, id) && !item.takenOver
    // items that took a domain over cannot be changed, and no other can become one
    case EditItem(id, item) => id in t.items && !t.items[id].takenOver && !item.takenOver
    case RemoveItem(id) => id in t.items && !t.items[id].takenOver && !Referenced(t, id)
    // the association is checked when it is inserted, and the item needs it when its transaction commits
    case OrderTakeover(id, item, d) =>
      id !in t.items && !Referenced(t, id) && item.takenOver && item.kind == DomainName
      && d !in t.takeovers && IsLinked(t, d) && item.requested == Some(t.domains[d].name)
    case Register(d, id, name) =>
      d !in t.domains && NameIsFree(t, name) && Asks(t, id, name)
      && forall other | other in t.domains :: t.domains[other].item != Some(id)
    case Link(d, name) => d !in t.domains && NameIsFree(t, name)
    case SetState(d, registered) =>
      d in t.domains && match t.domains[d].item
                        case Some(id) => Asks(t, id, t.domains[d].name)
                        case None => registered
  }

  function Stored(t: Tables, w: Write): Tables {
    if !Accepted(t, w) then t
    else
      match w
      case AddItem(id, item) => t.(items := t.items[id := item])
      case EditItem(id, item) => t.(items := t.items[id := item])
      case RemoveItem(id) => t.(items := t.items - {id})
      case OrderTakeover(id, item, d) => t.(items := t.items[id := item], takeovers := t.takeovers[d := id])
      case Register(d, id, name) => t.(domains := t.domains[d := Domain(Some(id), name, false)])
      case Link(d, name) => t.(domains := t.domains[d := Domain(None, name, true)])
      case SetState(d, registered) => t.(domains := t.domains[d := t.domains[d].(registered := registered)])
  }

  function Run(t: Tables, writes: seq<Write>): Tables
    decreases |writes|
  {
    if writes == [] then t else Run(Stored(t, writes[0]), writes[1..])
  }

  ghost predicate UniqueKeys(t: Tables) {
    && (forall a, b | a in t.domains && b in t.domains && t.domains[a].item.Some? && t.domains[a].item == t.domains[b].item ::
          a == b)
    && (forall a, b | a in t.domains && b in t.domains && t.domains[a].name == t.domains[b].name :: a == b)
    && (forall a, b | a in t.takeovers && b in t.takeovers && t.takeovers[a] == t.takeovers[b] :: a == b)
  }

  ghost predicate TakeoverSound(t: Tables, d: Id, id: Id) {
    && IsLinked(t, d) && id in t.items && t.items[id].takenOver && t.items[id].kind == DomainName
    && t.items[id].requested == Some(t.domains[d].name)
  }

  ghost predicate TakeoversSound(t: Tables) {
    && (forall d | d in t.takeovers :: TakeoverSound(t, d, t.takeovers[d]))
    && (forall id | id in t.items && t.items[id].takenOver :: exists d :: d in t.takeovers && t.takeovers[d] == id)
  }

  ghost predicate RegistrationsSound(t: Tables) {
    forall d | d in t.domains && t.domains[d].item.Some? ::
      var id := t.domains[d].item.value;
      id in t.items && (t.items[id].takenOver ==> t.items[id].requested == Some(t.domains[d].name))
  }

  ghost predicate Storable(t: Tables) {
    UniqueKeys(t) && TakeoversSound(t) && RegistrationsSound(t)
  }

  lemma KeysKept(t: Tables, w: Write)
    requires Storable(t)
    ensures UniqueKeys(Stored(t, w))
  {
    hide TakeoversSound, RegistrationsSound, Asks, IsLinked;
  }

  lemma TakeoversKept(t: Tables, w: Write)
    requires Storable(t)
    ensures TakeoversSound(Stored(t, w))
  {
    hide RegistrationsSound, UniqueKeys, NameIsFree, Asks;
    var u := Stored(t, w);
    forall d | d in u.takeovers ensures TakeoverSound(u, d, u.takeovers[d]) {
      if d in t.takeovers { assert TakeoverSound(t, d, t.takeovers[d]); }
    }
    forall id | id in u.items && u.items[id].takenOver ensures exists d :: d in u.takeovers && u.takeovers[d] == id {
      if id in t.items && t.items[id].takenOver {
        var d :| d in t.takeovers && t.takeovers[d] == id;
        assert d in u.takeovers && u.takeovers[d] == id;
      } else {
        assert w.OrderTakeover? && w.domain in u.takeovers && u.takeovers[w.domain] == id;
      }
    }
  }

  lemma RegistrationsKept(t: Tables, w: Write)
    requires Storable(t)
    ensures RegistrationsSound(Stored(t, w))
  {
    hide TakeoversSound, UniqueKeys, NameIsFree, IsLinked;
  }

  lemma StoredKeeps(t: Tables, w: Write)
    requires Storable(t)
    ensures Storable(Stored(t, w))
  {
    hide *;
    KeysKept(t, w);
    TakeoversKept(t, w);
    RegistrationsKept(t, w);
    StorableParts(Stored(t, w));
  }

  lemma StorableParts(t: Tables)
    ensures Storable(t) <==> UniqueKeys(t) && TakeoversSound(t) && RegistrationsSound(t)
  {
  }

  lemma {:induction false} EveryStateIsStorable(t: Tables, writes: seq<Write>)
    requires Storable(t)
    ensures Storable(Run(t, writes))
    decreases |writes|
  {
    hide Storable, Stored;
    if writes != [] {
      StoredKeeps(t, writes[0]);
      EveryStateIsStorable(Stored(t, writes[0]), writes[1..]);
    }
  }

  /** A domain of its own and one taken over would be two domains of one name. */
  lemma NoItemHasTwo(t: Tables, id: Id)
    requires Storable(t)
    ensures !(HasOwn(t, id) && HasLinked(t, id))
  {
  }

  // ----- what the counts count ----------------------------------------------------------------

  /** As many images as members, where no two members share one. */
  lemma {:induction false} OneEach(members: set<Id>, image: Id -> Id, images: set<Id>)
    requires forall a, b | a in members && b in members && image(a) == image(b) :: a == b
    requires images == set d | d in members :: image(d)
    ensures |images| == |members|
    decreases members
  {
    if members == {} {
      assert images == {};
    } else {
      var d :| d in members;
      var rest := set e | e in members - {d} :: image(e);
      OneEach(members - {d}, image, rest);
      assert image(d) !in rest && images == rest + {image(d)};
    }
  }

  lemma RegisteredCounts(t: Tables, order: Id)
    requires UniqueKeys(t)
    ensures |Registered(t, DomainItems(t, order))| == |set id | id in DomainItems(t, order) && HasOwn(t, id)|
  {
    var domains := Registered(t, DomainItems(t, order));
    var owners := set id | id in DomainItems(t, order) && HasOwn(t, id);
    var owner := (d: Id) => if d in t.domains && t.domains[d].item.Some? then t.domains[d].item.value else 0;
    forall id | id in owners ensures exists d :: d in domains && owner(d) == id {
      var d :| d in t.domains && t.domains[d].item == Some(id) && t.domains[d].registered;
      assert d in domains && owner(d) == id;
    }
    OneEach(domains, owner, owners);
  }

  lemma LinkedCounts(t: Tables, order: Id)
    requires UniqueKeys(t)
    ensures |Linked(t, TakenOver(t, order))| == |set id | id in DomainItems(t, order) && HasLinked(t, id)|
  {
    var domains := Linked(t, TakenOver(t, order));
    var takers := set id | id in DomainItems(t, order) && HasLinked(t, id);
    var taker := (d: Id) => if d in t.takeovers then t.takeovers[d] else 0;
    forall id | id in takers ensures exists d :: d in domains && taker(d) == id {
      var d :| d in t.takeovers && t.takeovers[d] == id && IsLinked(t, d);
      assert d in domains && taker(d) == id;
    }
    OneEach(domains, taker, takers);
  }

  lemma CountedOnce(all: set<Id>, own: set<Id>, linked: set<Id>)
    requires own <= all && linked <= all && own !! linked
    ensures |own| + |linked| == |all| <==> own + linked == all
  {
    assert |own + linked| == |own| + |linked|;
    assert all == (own + linked) + (all - (own + linked));
    assert |all| == |own + linked| + |all - (own + linked)|;
  }

  /** In every storable state the count decides what looking at each item would. */
  lemma CompleteIsDelivered(t: Tables, order: Id)
    requires Storable(t)
    ensures OrderFulfillmentComplete(t, order) <==> Delivered(t, order)
  {
    hide HasOwn, HasLinked, Storable, Registered, Linked, TakenOver;
    var all := DomainItems(t, order);
    var own, linked := set id | id in all && HasOwn(t, id), set id | id in all && HasLinked(t, id);
    StorableParts(t);
    RegisteredCounts(t, order);
    LinkedCounts(t, order);
    forall id | id in own ensures id !in linked {
      NoItemHasTwo(t, id);
    }
    CountedOnce(all, own, linked);
    assert own + linked == all <==> forall id | id in all :: HasOwn(t, id) || HasLinked(t, id);
    ReadyOrPending(t, order);
  }

  /** What is not pending and has its domain is ready. */
  lemma ReadyOrPending(t: Tables, order: Id)
    ensures (forall id | id in ItemsOf(t, order) :: Ready(t, id))
            <==> (forall id | id in ItemsOf(t, order) :: !Pending(t.items[id]))
                 && (forall id | id in DomainItems(t, order) :: HasOwn(t, id) || HasLinked(t, id))
  {
    hide HasOwn, HasLinked;
    assert forall id | id in ItemsOf(t, order) ::
        Ready(t, id) <==> !Pending(t.items[id]) && (t.items[id].kind == DomainName ==> HasOwn(t, id) || HasLinked(t, id));
    assert forall id | id in DomainItems(t, order) :: id in ItemsOf(t, order);
  }

  /** After any writes the database accepts, an order counts as complete exactly when all of it is there. */
  lemma CompleteIsDeliveredAlways(writes: seq<Write>, order: Id)
    ensures OrderFulfillmentComplete(Run(EMPTY, writes), order) <==> Delivered(Run(EMPTY, writes), order)
  {
    hide Run, Delivered, OrderFulfillmentComplete;
    EveryStateIsStorable(EMPTY, writes);
    CompleteIsDelivered(Run(EMPTY, writes), order);
  }

  /** So what is outstanding is a hosting service, an add-on or a registration, never a takeover. */
  lemma TakeoversAreDelivered(writes: seq<Write>, id: Id)
    requires var t := Run(EMPTY, writes); id in t.items && t.items[id].takenOver
    ensures Ready(Run(EMPTY, writes), id)
  {
    hide Run;
    EveryStateIsStorable(EMPTY, writes);
    var t := Run(EMPTY, writes);
    var d :| d in t.takeovers && t.takeovers[d] == id;
    assert TakeoverSound(t, d, id);
  }
}
