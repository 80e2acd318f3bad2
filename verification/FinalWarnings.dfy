/**
 The scan that sends final warnings (apps/worker/src/notifications/notification-projection.service.ts):
 pages of a hundred invoices, each starting after the last id of the one before.
 */
module FinalWarnings {
  import opened BusinessDates
  import opened Options

  type Id = nat

  const PAGE: nat := 100

  /** open: unpaid with a balance and a service line; active: one of its services is ACTIVE. */
  datatype Invoice = Invoice(dueAt: int, open: bool, active: bool)

  predicate Picked(invoices: map<Id, Invoice>, id: Id, now: int, grace: int) {
    id in invoices && invoices[id].open && InWarningRange(now, invoices[id].dueAt, grace)
  }

  /** The exact test on an invoice that was picked; SuspensionMeaning says what it is on texts. */
  predicate Deserves(invoice: Invoice, now: int, zone: Zone, grace: int) {
    invoice.active && ZoneDay(now, zone) == ZoneDay(invoice.dueAt, zone) + grace
  }

  /** The source key of a warning; the unique index keeps a second one with it from being stored. */
  datatype Key = Key(invoice: Id, suspensionDay: int)

  function KeyOf(id: Id, now: int, zone: Zone): Key {
    Key(id, ZoneDay(now, zone) + 1)
  }

  /** The invoices that get their warning now. */
  predicate Warned(invoices: map<Id, Invoice>, stored: set<Key>, id: Id, now: int, zone: Zone, grace: int) {
    Picked(invoices, id, now, grace) && Deserves(invoices[id], now, zone, grace) && KeyOf(id, now, zone) !in stored
  }

  function Keys(ids: seq<Id>, now: int, zone: Zone): set<Key> {
    set id | id in ids :: KeyOf(id, now, zone)
  }

  predicate Past(id: Id, after: Option<Id>) {
    after.None? || id > after.value
  }

  predicate Climbs(ids: seq<Id>) {
    forall i, j | 0 <= i < j < |ids| :: ids[i] < ids[j]
  }

  predicate IsLeast(ids: set<Id>, id: Id) {
    id in ids && forall other | other in ids :: id <= other
  }

  lemma {:induction false} LeastOf(ids: set<Id>) returns (least: Id)
    requires ids != {}
    ensures IsLeast(ids, least)
    decreases ids
  {
    var a :| a in ids;
    var rest := ids - {a};
    assert ids == rest + {a};
    if rest == {} {
      least := a;
    } else {
      var b := LeastOf(rest);
      least := if a <= b then a else b;
    }
  }

  /** One page of the keyset query: the first hundred matching ids after the given one, in order. */
  method PageAfter(matching: set<Id>, after: Option<Id>) returns (page: seq<Id>)
    ensures Climbs(page) && |page| <= PAGE
    ensures forall i | 0 <= i < |page| :: page[i] in matching && Past(page[i], after)
    ensures forall id | id in matching && Past(id, after) && id !in page ::
              |page| == PAGE && forall i | 0 <= i < |page| :: page[i] < id
  {
    var rest := set id | id in matching && Past(id, after);
    page := [];
    while rest != {} && |page| < PAGE
      invariant |page| <= PAGE && Climbs(page)
      invariant forall i | 0 <= i < |page| :: page[i] in matching && Past(page[i], after)
      invariant forall id | id in rest :: id in matching && Past(id, after)
      invariant forall id, i | id in rest && 0 <= i < |page| :: page[i] < id
      invariant forall id | id in matching && Past(id, after) :: id in rest || id in page
      decreases rest
    {
      ghost var least := LeastOf(rest);
      var id :| id in rest && IsLeast(rest, id);
      assert IsLeast(rest, id);
      page := page + [id];
      rest := rest - {id};
    }
  }

  /** The warnings of one page, in its order; createMany skips what is stored already. */
  method WarnPage(invoices: map<Id, Invoice>, page: seq<Id>, stored: set<Key>, now: int, zone: Zone, grace: int)
    returns (warned: seq<Id>, keys: set<Key>)
    requires Climbs(page) && forall i | 0 <= i < |page| :: page[i] in invoices
    ensures Climbs(warned) && keys == stored + Keys(warned, now, zone)
    ensures forall id :: id in warned <==>
              id in page && Deserves(invoices[id], now, zone, grace) && KeyOf(id, now, zone) !in stored
  {
    hide Deserves;
    warned, keys := [], stored;
    for i := 0 to |page|
      invariant Climbs(warned) && keys == stored + Keys(warned, now, zone)
      invariant forall id :: id in warned <==>
          id in page[..i] && Deserves(invoices[id], now, zone, grace) && KeyOf(id, now, zone) !in stored
    {
      var id := page[i];
      forall k | 0 <= k < |warned| ensures warned[k] in page[..i] && warned[k] < id {
        assert warned[k] in warned;
        var j :| 0 <= j < i && page[j] == warned[k];
      }
      assert page[..i + 1] == page[..i] + [id];
      if Deserves(invoices[id], now, zone, grace) {
        FreshKey(stored, warned, id, now, zone);
        if KeyOf(id, now, zone) !in keys {
          warned := warned + [id];
          keys := keys + {KeyOf(id, now, zone)};
        }
      }
    }
    assert page[..|page|] == page;
  }

  /** A key is new unless it was stored before: within one scan no invoice comes twice. */
  lemma FreshKey(stored: set<Key>, warned: seq<Id>, id: Id, now: int, zone: Zone)
    requires forall k | 0 <= k < |warned| :: warned[k] < id
    ensures KeyOf(id, now, zone) in stored + Keys(warned, now, zone) <==> KeyOf(id, now, zone) in stored
    ensures Keys(warned + [id], now, zone) == Keys(warned, now, zone) + {KeyOf(id, now, zone)}
  {
    hide ZoneDay;
  }

  /**
   Every invoice in the range that deserves a warning and has none yet gets exactly one, in the order of the
   ids, however many pages there are.  With two days of grace or more the range leaves nobody out.
   */
  method WarnAll(invoices: map<Id, Invoice>, stored: set<Key>, now: int, zone: Zone, grace: int)
    returns (warned: seq<Id>, keys: set<Key>)
    requires WithinADay(zone) && 0 <= grace <= 60
    ensures Climbs(warned) && keys == stored + Keys(warned, now, zone)
    ensures forall id :: id in warned <==> Warned(invoices, stored, id, now, zone, grace)
    ensures grace >= 2 ==>
              forall id | id in invoices && invoices[id].open && Deserves(invoices[id], now, zone, grace) ::
                KeyOf(id, now, zone) in keys
  {
    hide Deserves, InWarningRange, WithinADay, KeyOf;
    var matching := set id | id in invoices && Picked(invoices, id, now, grace);
    warned, keys := [], stored;
    var after: Option<Id> := None;
    var more := true;
    while more
      invariant Climbs(warned) && keys == stored + Keys(warned, now, zone)
      invariant forall id :: id in warned <==>
          id in matching && !(more && Past(id, after)) && Deserves(invoices[id], now, zone, grace)
          && KeyOf(id, now, zone) !in stored
      decreases more, set id | id in matching && Past(id, after)
    {
      ghost var before := set id | id in matching && Past(id, after);
      var page := PageAfter(matching, after);
      var found;
      found, keys := WarnPage(invoices, page, keys, now, zone, grace);
      NoneStored(stored, warned, page, now, zone);
      assert forall i, j | 0 <= i < |warned| && 0 <= j < |found| :: warned[i] < found[j] by {
        forall i, j | 0 <= i < |warned| && 0 <= j < |found| ensures warned[i] < found[j] {
          assert warned[i] in warned && found[j] in found;
        }
      }
      assert Keys(warned + found, now, zone) == Keys(warned, now, zone) + Keys(found, now, zone);
      warned := warned + found;
      if |page| < PAGE {
        more := false;
      } else {
        after := Some(page[PAGE - 1]);
        assert page[PAGE - 1] in before && page[PAGE - 1] !in (set id | id in matching && Past(id, after));
      }
    }
    if grace >= 2 {
      forall id | id in invoices && invoices[id].open && Deserves(invoices[id], now, zone, grace)
        ensures KeyOf(id, now, zone) in keys
      {
        DeservingArePicked(invoices[id], now, zone, grace);
        assert id in warned || KeyOf(id, now, zone) in stored;
      }
    }
  }

  /** Who is warned: open, active, on the last day before its suspension, not stored yet, and fetched at all. */
  lemma WarnedMeans(invoices: map<Id, Invoice>, stored: set<Key>, id: Id, now: int, zone: Zone, grace: int)
    ensures Warned(invoices, stored, id, now, zone, grace) <==>
      && id in invoices && invoices[id].open && invoices[id].active
      && ZoneDay(now, zone) + 1 == ZoneDay(invoices[id].dueAt, zone) + (grace + 1)
      && now - (grace + 2) * 86_400_000 <= invoices[id].dueAt && invoices[id].dueAt <= now
      && Key(id, ZoneDay(now, zone) + 1) !in stored
  {
    hide ZoneDay;
  }

  /** What earlier pages stored does not stand in the way of a later one. */
  lemma NoneStored(stored: set<Key>, warned: seq<Id>, page: seq<Id>, now: int, zone: Zone)
    requires forall id | id in page :: id !in warned
    ensures forall id | id in page :: KeyOf(id, now, zone) in stored + Keys(warned, now, zone) <==> KeyOf(id, now, zone) in stored
  {
    hide ZoneDay;
  }

  /**
   An invoice is warned at most once, on however many ticks: it deserves its warning on one day only, and on
   that day the key of the first one is stored.
   */
  lemma WarnedOnce(
    invoices: map<Id, Invoice>, later: map<Id, Invoice>, stored: set<Key>, keys: set<Key>, id: Id, now: int, next: int,
    zone: Zone, grace: int)
    requires Warned(invoices, stored, id, now, zone, grace) && KeyOf(id, now, zone) in keys
    requires id in later && later[id].dueAt == invoices[id].dueAt
    ensures !Warned(later, keys, id, next, zone, grace)
  {
    hide ZoneDay, InWarningRange;
  }

  lemma DeservingArePicked(invoice: Invoice, now: int, zone: Zone, grace: int)
    requires WithinADay(zone) && grace >= 2 && Deserves(invoice, now, zone, grace)
    ensures InWarningRange(now, invoice.dueAt, grace)
  {
  }
}
