/** What ingestion writes into the event table and reports to its caller, in terms of the columns. */
module IngestionCalls {
  import opened Domain
  import opened Wrappers
  import opened Timestamps
  import opened Listings
  import opened Ingestion
  import Prices
  import Q = DeliveryQueue

  // ---------- Events ----------

  lemma OptionalEventIsStored(store: Store, event: Option<Q.Event>, now: Instant)
    requires AddOptionalEvent(store, event, now).Ok?
    ensures var after := AddOptionalEvent(store, event, now).value.store;
            && after.history == store.history && after.visibility == store.visibility
            && (forall k :: k in store.queue.events ==> k in after.queue.events && after.queue.events[k] == store.queue.events[k])
            && (forall k :: k in after.queue.events && k !in store.queue.events ==> event == Some(after.queue.events[k]))
  {
    AddEventFrame(store, event, now);
    AddEventGrows(store, event, now);
    hide Q.EnsureForChannels;
  }

  /** The event tells of this listing, as this search observed it, and its kind, its key and its prices
      agree: a price drop is one. */
  predicate TellsOf(e: Q.Event, search: nat, id: nat, l: Report) {
    && e.search == search && e.listing == id && e.occurredAt == l.observedAt && e.price == l.price
    && (match e.kind
        case NewListing => e.key == Q.NewListingKey(l.portal, id) && e.previousPrice == None
        case Reappearance => e.key == Q.ReappearanceKey(l.portal, id, l.observedAt) && e.previousPrice == None
        case PriceDrop =>
          && l.price.Some? && e.previousPrice.Some? && l.price.value < e.previousPrice.value
          && e.key == Q.PriceKey(Q.PriceDrop, l.portal, id, l.price.value)
        case PriceIncrease =>
          && l.price.Some? && e.previousPrice.Some? && e.previousPrice.value < l.price.value
          && e.key == Q.PriceKey(Q.PriceIncrease, l.portal, id, l.price.value))
  }

  /** Every event that a listing adds to the table belongs to the search and the listing, carries its
      time and its price, and is of the kind of its key: new for a new match, a reappearance for an
      inactive one, and a drop or an increase from the price the history held before, downwards or
      upwards. */
  lemma CreatedEventsSpelledOut(store: Store, search: nat, id: nat, outcome: MatchOutcome, l: Report, now: Instant, event: nat)
    requires EventsFor(store, search, id, outcome, l, now).Ok?
    requires event in EventsFor(store, search, id, outcome, l, now).value.store.queue.events && event !in store.queue.events
    ensures var e := EventsFor(store, search, id, outcome, l, now).value.store.queue.events[event];
            var previous := Prices.Previous(store.history, id, l.observedAt);
            && e.search == search && e.listing == id && e.occurredAt == l.observedAt && e.price == l.price
            && (|| (e.kind == Q.NewListing && e.key == Q.NewListingKey(l.portal, id) && outcome == New && e.previousPrice == None)
                || (e.kind == Q.Reappearance && e.key == Q.ReappearanceKey(l.portal, id, l.observedAt) && outcome == Reappeared && e.previousPrice == None)
                || (&& e.kind == Q.PriceDrop && l.price.Some? && e.key == Q.PriceKey(Q.PriceDrop, l.portal, id, l.price.value)
                    && e.previousPrice == previous && previous.Some? && l.price.value < previous.value)
                || (&& e.kind == Q.PriceIncrease && l.price.Some? && e.key == Q.PriceKey(Q.PriceIncrease, l.portal, id, l.price.value)
                    && e.previousPrice == previous && previous.Some? && previous.value < l.price.value))
  {
    hide AddOptionalEvent, Prices.Previous;
    var first := VisibilityEvent(search, id, outcome, l);
    OptionalEventIsStored(store, first, now);
    var mid := AddOptionalEvent(store, first, now).value.store;
    if event !in mid.queue.events {
      var (history, r) := Prices.Record(mid.history, id, l.price.value, l.observedAt).value;
      OptionalEventIsStored(mid.(history := history), PriceEvent(search, id, l, r), now);
    } else if l.price.Some? {
      var (history, r) := Prices.Record(mid.history, id, l.price.value, l.observedAt).value;
      OptionalEventIsStored(mid.(history := history), PriceEvent(search, id, l, r), now);
    }
  }

  lemma EventsForGrows(store: Store, search: nat, id: nat, outcome: MatchOutcome, l: Report, now: Instant)
    requires EventsFor(store, search, id, outcome, l, now).Ok?
    ensures var after := EventsFor(store, search, id, outcome, l, now).value.store;
            forall k :: k in store.queue.events ==> k in after.queue.events && after.queue.events[k] == store.queue.events[k]
  {
    hide AddOptionalEvent, Prices.Record;
    var first := VisibilityEvent(search, id, outcome, l);
    OptionalEventIsStored(store, first, now);
    var mid := AddOptionalEvent(store, first, now).value.store;
    if l.price.Some? {
      var (history, r) := Prices.Record(mid.history, id, l.price.value, l.observedAt).value;
      OptionalEventIsStored(mid.(history := history), PriceEvent(search, id, l, r), now);
    }
  }

  /** Every event that a batch adds tells of one of its listings, under the id the batch reports for it,
      and no event of the table before is changed. */
  lemma {:induction false} BatchEventsTellOfItsListings(store: Store, search: nat, items: seq<Listing>, n: nat, now: Instant)
    requires n <= |items| && IngestFirst(store, search, items, n, now).Ok?
    ensures var p := IngestFirst(store, search, items, n, now).value;
            && |p.ids| == n
            && (forall k :: k in store.queue.events ==> k in p.store.queue.events && p.store.queue.events[k] == store.queue.events[k])
            && (forall k :: k in p.store.queue.events && k !in store.queue.events ==>
                  exists i :: 0 <= i < n && TellsOf(p.store.queue.events[k], search, p.ids[i], items[i]))
  {
    hide IngestItem, TellsOf;
    if n > 0 {
      BatchEventsTellOfItsListings(store, search, items, n - 1, now);
      var p := IngestFirst(store, search, items, n - 1, now).value;
      var r := IngestItem(p.store, search, items[n - 1], now).value;
      ItemEventsTellOfIt(p.store, search, items[n - 1], now);
      var ids := p.ids + [r.id];
      forall k | k in r.store.queue.events && k !in store.queue.events
        ensures exists i :: 0 <= i < n && TellsOf(r.store.queue.events[k], search, ids[i], items[i])
      {
        if k in p.store.queue.events {
          var i :| 0 <= i < n - 1 && TellsOf(p.store.queue.events[k], search, p.ids[i], items[i]);
          assert TellsOf(r.store.queue.events[k], search, ids[i], items[i]);
        } else {
          assert TellsOf(r.store.queue.events[k], search, ids[n - 1], items[n - 1]);
        }
      }
    }
  }

  lemma ItemEventsTellOfIt(store: Store, search: nat, l: Listing, now: Instant)
    requires IngestItem(store, search, l, now).Ok?
    ensures var r := IngestItem(store, search, l, now).value;
            && (forall k :: k in store.queue.events ==> k in r.store.queue.events && r.store.queue.events[k] == store.queue.events[k])
            && (forall k :: k in r.store.queue.events && k !in store.queue.events ==> TellsOf(r.store.queue.events[k], search, r.id, l))
  {
    hide IngestOne, EventsFor, TellsOf;
    var one := IngestOne(store.visibility, store.queue.searches, search, l).value;
    var begun := store.(visibility := one.visibility);
    EventsForGrows(begun, search, one.id, one.outcome, l, now);
    var events := EventsFor(begun, search, one.id, one.outcome, l, now).value.store.queue.events;
    forall k | k in events && k !in store.queue.events ensures TellsOf(events[k], search, one.id, l) {
      CreatedTellsOf(begun, search, one.id, one.outcome, l, now, k);
    }
  }

  lemma CreatedTellsOf(store: Store, search: nat, id: nat, outcome: MatchOutcome, l: Report, now: Instant, event: nat)
    requires EventsFor(store, search, id, outcome, l, now).Ok?
    requires event in EventsFor(store, search, id, outcome, l, now).value.store.queue.events && event !in store.queue.events
    ensures TellsOf(EventsFor(store, search, id, outcome, l, now).value.store.queue.events[event], search, id, l)
  {
    CreatedEventsSpelledOut(store, search, id, outcome, l, now, event);
    hide EventsFor;
  }

  // ---------- What the caller is told ----------

  /** What the `i`-th listing of a batch came out as. */
  function ItemAt(store: Store, search: nat, items: seq<Listing>, i: nat, now: Instant): ItemResult
    requires i < |items| && IngestFirst(store, search, items, i + 1, now).Ok?
  {
    IngestItem(IngestFirst(store, search, items, i, now).value.store, search, items[i], now).value
  }

  /** How many of the first `n` listings came out so. */
  function CountOf(store: Store, search: nat, items: seq<Listing>, n: nat, now: Instant, outcome: MatchOutcome): nat
    requires n <= |items| && IngestFirst(store, search, items, n, now).Ok?
  {
    if n == 0 then 0
    else CountOf(store, search, items, n - 1, now, outcome) + if ItemAt(store, search, items, n - 1, now).outcome == outcome then 1 else 0
  }

  /** The tallies count the outcomes, each under its own name. */
  lemma {:induction false} TalliesCountTheOutcomes(store: Store, search: nat, items: seq<Listing>, n: nat, now: Instant)
    requires n <= |items| && IngestFirst(store, search, items, n, now).Ok?
    ensures var p := IngestFirst(store, search, items, n, now).value;
            && p.tally.added == CountOf(store, search, items, n, now, New)
            && p.tally.changed == CountOf(store, search, items, n, now, Changed)
            && p.tally.reappeared == CountOf(store, search, items, n, now, Reappeared)
            && p.tally.same == CountOf(store, search, items, n, now, Unchanged)
  {
    hide IngestItem;
    if n > 0 { TalliesCountTheOutcomes(store, search, items, n - 1, now); }
  }

  /** The ids are those of the listings, in the order of the batch. */
  lemma {:induction false} IdsAreInOrder(store: Store, search: nat, items: seq<Listing>, n: nat, now: Instant, i: nat)
    requires i < n <= |items| && IngestFirst(store, search, items, n, now).Ok?
    ensures var p := IngestFirst(store, search, items, n, now).value;
            && |p.ids| == n
            && IngestFirst(store, search, items, i + 1, now).Ok?
            && p.ids[i] == ItemAt(store, search, items, i, now).id
  {
    hide IngestItem;
    IdsAreCounted(store, search, items, n - 1, now);
    if i < n - 1 { IdsAreInOrder(store, search, items, n - 1, now, i); }
  }

  lemma {:induction false} IdsAreCounted(store: Store, search: nat, items: seq<Listing>, n: nat, now: Instant)
    requires n <= |items| && IngestFirst(store, search, items, n, now).Ok?
    ensures |IngestFirst(store, search, items, n, now).value.ids| == n
  {
    hide IngestItem;
    if n > 0 { IdsAreCounted(store, search, items, n - 1, now); }
  }

  /** An attempt refuses a batch with a listing of another portal before it writes anything; otherwise it
      raises exactly when one of its listings does, and else it reports the batch and what the
      reconciliation with the ids of the batch made disappear. */
  lemma AttemptReportsTheBatch(store: Store, search: nat, portal: Portal, items: seq<Listing>, status: RunStatus, now: Instant)
    ensures var r, batch := Attempt(store, search, portal, items, status, now), IngestFirst(store, search, items, |items|, now);
            if exists i :: 0 <= i < |items| && items[i].portal != portal then r == Raised(ValueError)
            else
              && (r.Raised? <==> batch.Raised?) && (r.Raised? ==> r.error == batch.error)
              && (r.Ok? ==>
                    var (after, outcome) := r.value;
                    && outcome.tally == batch.value.tally && outcome.ids == batch.value.ids && outcome.events == batch.value.events
                    && (after.visibility, outcome.disappearance) ==
                         Reconcile(batch.value.store.visibility, search, portal, (set id | id in batch.value.ids), status)
                    && after == batch.value.store.(visibility := after.visibility))
  {
    hide IngestFirst, Reconcile;
  }
}
