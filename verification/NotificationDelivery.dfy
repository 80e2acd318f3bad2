/**
 The delivery service as it is written (apps/worker/src/notifications/notification-delivery.service.ts),
 proved to take the steps of the notification protocol.
 */
module NotificationDelivery {
  import opened NotificationDecisions
  import opened Notifications

  class Delivery {
    const config: Config
    var entries: map<Id, Entry>
    var temporary: set<Id>
    ghost var workers: map<Id, Stage>
    ghost var entered: seq<Id>

    constructor (config: Config)
      ensures Contents() == EMPTY && this.config == config
    {
      this.config := config;
      entries, temporary, workers, entered := map[], {}, map[], [];
    }

    ghost function Contents(): State
      reads this
    {
      State(entries, temporary, workers, entered)
    }

    /** The transaction; `submission` is what it leaves to be sent after its commit. */
    method Prepare(id: Id, f: Facts) returns (submission: bool, failed: bool)
      requires id in entries
      modifies this`entries
      ensures entries == old(entries)[id := DeliveredEntry(old(entries)[id], config, id in temporary, f)]
      ensures submission == Claims(old(entries)[id], config, id in temporary, f)
      ensures failed <==> PreviewFails(old(entries)[id], config, id in temporary, f)
    {
      submission, failed := false, false;
      var entry := entries[id];
      if entry.status != Queued
         && !(entry.status == Failed && config.mode == Preview && config.adapter == PreviewAdapter && id in temporary) {
        assert entries[id := entry] == entries;
        return;
      }
      var suppressed := f.unwanted;
      if entry.channel == WhatsApp {
        if config.adapter != PreviewAdapter && config.adapter != Meta { suppressed := true; }
        if config.mode == Preview && config.adapter != PreviewAdapter { suppressed := true; }
      } else if entry.channel != Email {
        suppressed := true;
      }
      if suppressed
         || (config.mode != Preview
             && !(entry.channel == WhatsApp && config.mode == Live && config.liveEnabled && config.adapter == Meta)) {
        entries := entries[id := entry.(status := if suppressed then Suppressed else Disabled)];
        return;
      }
      var attempts := entry.attempts + 1;
      if entry.channel == WhatsApp && config.mode == Live {
        entries := entries[id := entry.(status := Submitting, attempts := attempts)];
        return true, false;
      }
      if f.previewWorks {
        entries := entries[id := entry.(status := Previewed, attempts := attempts)];
      } else {
        failed := true;
        entries := entries[id := entry.(attempts := attempts, status := if attempts >= MAX_PREVIEWS then Failed else Queued)];
      }
    }

    /** updateMany where the status is SUBMITTING. */
    method SettleEntry(id: Id, status: Status)
      modifies this`entries
      ensures entries == SettledEntries(old(entries), id, status)
    {
      if id in entries && entries[id].status == Submitting { entries := entries[id := entries[id].(status := status)]; }
    }

    /** One delivery; true when it throws its temporary error.  The two flags say which settlement is stored. */
    method Deliver(w: Id, id: Id, f: Facts, result: Result, stored: bool, caught: bool)
      returns (failed: bool, ghost trace: seq<Configured>)
      requires w !in workers
      modifies this`entries, this`workers, this`entered
      ensures Contents() == Run(old(Contents()), trace) && Truthful(trace, w, id, f, result, stored, caught) && w !in workers
      ensures trace != [] && trace[0] == Configured(Event.Deliver(w, id, f), config)
      // the adapter is called at most once, and only for an entry that was claimed just before
      ensures entered == old(entered)
              || (entered == old(entered) + [id] && id in old(entries) && Claims(old(entries)[id], config, id in old(temporary), f))
      ensures failed <==> id in old(entries) && PreviewFails(old(entries)[id], config, id in old(temporary), f)
      ensures Contents() == Delivered(old(Contents()), id, config, Answers(f, result, stored, caught))
    {
      hide Run, DeliveredEntry, Claims, SettledEntries, PreviewFails, Delivered;
      ghost var a := Answers(f, result, stored, caught);
      DeliveryOutcome(Contents(), w, id, config, a);
      ghost var before := Contents();
      NoEvents(before);
      trace := Took(before, [], w, id, f, result, stored, caught, Event.Deliver(w, id, f));
      if id !in entries { return false, trace; }
      var submission;
      submission, failed := Prepare(id, f);
      if submission {
        workers := workers[w := Sending(id)];
        trace := Took(before, trace, w, id, f, result, stored, caught, Submit(w, result));
        entered := entered + [id];
        workers := workers[w := Settling(id, Outcome(result), !result.Threw? && !result.WasPreviewed?)];
        trace := SettleRun(w, id, f, result, stored, caught, before, trace);
        assert workers == before.workers;
      }
    }

    /** The settlement, and the one in the catch block when that was not the catch block's already. */
    method SettleRun(w: Id, id: Id, ghost f: Facts, result: Result, stored: bool, caught: bool,
                     ghost before: State, ghost soFar: seq<Configured>)
      returns (ghost trace: seq<Configured>)
      requires Contents() == Run(before, soFar) && Truthful(soFar, w, id, f, result, stored, caught) && soFar != []
      requires w in workers && workers[w] == Settling(id, Outcome(result), !result.Threw? && !result.WasPreviewed?)
      modifies this`entries, this`workers
      ensures Contents() == Run(before, trace) && Truthful(trace, w, id, f, result, stored, caught) && w !in workers
      ensures trace != [] && trace[0] == soFar[0]
      ensures workers == old(workers) - {w}
      ensures entries == if stored then SettledEntries(old(entries), id, Outcome(result))
                         else if caught && !result.Threw? && !result.WasPreviewed? then SettledEntries(old(entries), id, Unknown)
                         else old(entries)
    {
      hide Run, SettledEntries;
      trace := Took(before, soFar, w, id, f, result, stored, caught, Settle(w, stored));
      if stored {
        SettleEntry(id, Outcome(result));
      } else if !result.Threw? && !result.WasPreviewed? {
        workers := workers[w := Settling(id, Unknown, false)];
        trace := Took(before, trace, w, id, f, result, stored, caught, Settle(w, caught));
        if caught { SettleEntry(id, Unknown); }
      }
      workers := workers - {w};
    }

    /** An event of one delivery under this configuration, with the answer it gets. */
    ghost predicate Allowed(e: Configured, w: Id, id: Id, f: Facts, result: Result, stored: bool, caught: bool) {
      && e.config == config
      && match e.event
         case Deliver(v, i, facts) => v == w && i == id && facts == f
         case Submit(v, r) => v == w && r == result
         case Settle(v, kept) => v == w && (kept == stored || kept == caught)
         case _ => false
    }

    ghost predicate Truthful(trace: seq<Configured>, w: Id, id: Id, f: Facts, result: Result, stored: bool, caught: bool) {
      forall i | 0 <= i < |trace| :: Allowed(trace[i], w, id, f, result, stored, caught)
    }

    ghost method Took(before: State, trace: seq<Configured>, w: Id, id: Id, f: Facts, result: Result, stored: bool, caught: bool,
                      e: Event)
      returns (longer: seq<Configured>)
      requires Contents() == Run(before, trace) && Truthful(trace, w, id, f, result, stored, caught)
      requires Allowed(Configured(e, config), w, id, f, result, stored, caught)
      ensures longer == trace + [Configured(e, config)] && Truthful(longer, w, id, f, result, stored, caught)
      ensures Run(before, longer) == Step(Contents(), e, config)
    {
      hide Step;
      longer := trace + [Configured(e, config)];
      RunSnoc(before, trace, Configured(e, config));
    }
  }

  /** What the class makes of an entry, in the terms of the protocol. */
  lemma DeliveryOutcome(s: State, w: Id, id: Id, c: Config, a: Answers)
    requires w !in s.workers
    ensures id !in s.entries ==> Delivered(s, id, c, a) == s
    ensures id in s.entries ==>
      var entry, temporary := s.entries[id], id in s.temporary;
      var claimed := DeliveredEntry(entry, c, temporary, a.facts);
      if !Claims(entry, c, temporary, a.facts) then Delivered(s, id, c, a) == s.(entries := s.entries[id := claimed])
      else
        var once := if a.stored then SettledEntries(s.entries[id := claimed], id, Outcome(a.result)) else s.entries[id := claimed];
        var twice := if !a.stored && a.caught && !a.result.Threw? && !a.result.WasPreviewed?
                     then SettledEntries(once, id, Unknown) else once;
        Delivered(s, id, c, a) == s.(entries := twice, entered := s.entered + [id])
  {
  }
}
