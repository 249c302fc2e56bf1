/** Any sequence of attempts, single ingests, reconciliations and deletions of searches. */
module IngestionRuns {
  import opened Domain
  import opened Wrappers
  import opened Timestamps
  import opened Listings
  import opened Ingestion
  import Prices
  import Q = DeliveryQueue

  datatype Step =
    | IngestAttempt(search: nat, portal: Portal, items: seq<Listing>, status: RunStatus, now: Instant)
    | IngestListing(search: nat, item: Listing)
    | ReconcilePortal(search: nat, portal: Portal, seen: set<nat>, status: RunStatus)
    | DeleteSearch(search: nat)

  /** The deletion cascades to the matches, events, attempts and settings of the search. */
  function WithoutSearchRows(store: Store, search: nat): Store {
    var q := store.queue;
    var events := map id | id in q.events && q.events[id].search != search :: q.events[id];
    Store(
      WithoutSearch(store.visibility, search),
      store.history,
      q.(searches := q.searches - {search},
         assignments := (set a | a in q.assignments && a.0 != search),
         preferences := q.preferences - {search},
         events := events,
         attempts := (map id | id in q.attempts && q.attempts[id].event in events :: q.attempts[id])))
  }

  /** What is left after a search is deleted: listings, prices and channels as they were, and of matches,
      events, attempts, assignments and preferences exactly those of other searches. */
  lemma DeletingSpelledOut(store: Store, search: nat)
    requires forall id :: id in store.queue.attempts ==> store.queue.attempts[id].event in store.queue.events
    ensures var after := WithoutSearchRows(store, search);
            && after.visibility.listings == store.visibility.listings && after.history == store.history
            && after.queue.searches == store.queue.searches - {search} && after.queue.channels == store.queue.channels
            && (forall k :: k in after.visibility.matches <==> k in store.visibility.matches && k.0 != search)
            && (forall k :: k in after.visibility.matches ==> after.visibility.matches[k] == store.visibility.matches[k])
            && (forall id :: id in after.queue.events <==> id in store.queue.events && store.queue.events[id].search != search)
            && (forall id :: id in after.queue.events ==> after.queue.events[id] == store.queue.events[id])
            && (forall id :: id in after.queue.attempts <==>
                  id in store.queue.attempts && store.queue.events[store.queue.attempts[id].event].search != search)
            && (forall id :: id in after.queue.attempts ==> after.queue.attempts[id] == store.queue.attempts[id])
            && (forall a :: a in after.queue.assignments <==> a in store.queue.assignments && a.0 != search)
            && (forall s :: s in after.queue.preferences <==> s in store.queue.preferences && s != search)
            && (forall s :: s in after.queue.preferences ==> after.queue.preferences[s] == store.queue.preferences[s])
  {
  }

  /** A step that raises is rolled back. */
  function Apply(store: Store, step: Step): Store {
    match step
    case IngestAttempt(search, portal, items, status, now) =>
      (match Attempt(store, search, portal, items, status, now)
       case Ok((after, _)) => after
       case Raised(_) => store)
    case IngestListing(search, item) =>
      (match IngestOne(store.visibility, store.queue.searches, search, item)
       case Ok(r) => store.(visibility := r.visibility)
       case Raised(_) => store)
    case ReconcilePortal(search, portal, seen, status) =>
      store.(visibility := Reconcile(store.visibility, search, portal, seen, status).0)
    case DeleteSearch(search) => WithoutSearchRows(store, search)
  }

  function Run(store: Store, steps: seq<Step>): Store
    decreases |steps|
  {
    if steps == [] then store else Run(Apply(store, steps[0]), steps[1..])
  }

  /** At most one event per key: per portal and listing, whichever searches found it. */
  predicate UniqueKeys(events: map<nat, Q.Event>) {
    forall i, j {:trigger events[i].key, events[j].key} ::
      i in events && j in events && events[i].key == events[j].key ==> i == j
  }

  predicate Sound(store: Store) {
    Identity(store.visibility.listings) && ShownImpliesActive(store.visibility) && UniqueKeys(store.queue.events)
  }

  lemma AddEventKeepsKeys(store: Store, event: Option<Q.Event>, now: Instant)
    requires UniqueKeys(store.queue.events)
    ensures match AddOptionalEvent(store, event, now)
            case Ok(a) => UniqueKeys(a.store.queue.events)
            case Raised(_) => true
  {
    hide Q.EnsureForChannels;
  }

  lemma EventsForKeepsKeys(store: Store, search: nat, id: nat, outcome: MatchOutcome, l: Report, now: Instant)
    requires UniqueKeys(store.queue.events)
    ensures match EventsFor(store, search, id, outcome, l, now)
            case Ok(a) => UniqueKeys(a.store.queue.events)
            case Raised(_) => true
  {
    hide AddOptionalEvent, UniqueKeys;
    AddEventKeepsKeys(store, VisibilityEvent(search, id, outcome, l), now);
    var first := AddOptionalEvent(store, VisibilityEvent(search, id, outcome, l), now);
    if first.Ok? && l.price.Some? {
      var recorded := Prices.Record(first.value.store.history, id, l.price.value, l.observedAt);
      if recorded.Ok? {
        AddEventKeepsKeys(first.value.store.(history := recorded.value.0), PriceEvent(search, id, l, recorded.value.1), now);
      }
    }
  }

  lemma IngestItemKeeps(store: Store, search: nat, l: Listing, now: Instant)
    requires Sound(store) && IngestItem(store, search, l, now).Ok?
    ensures var after := IngestItem(store, search, l, now).value.store;
            && Sound(after)
            && (ActiveIffShown(store.visibility) ==> ActiveIffShown(after.visibility))
  {
    hide Identity, ShownImpliesActive, ActiveIffShown, UniqueKeys, IngestOne, EventsFor;
    IngestItemShows(store, search, l, now);
    IngestOneWrites(store.visibility, store.queue.searches, search, l);
    IngestOneKeepsShown(store.visibility, store.queue.searches, search, l);
    var i := IngestOne(store.visibility, store.queue.searches, search, l).value;
    EventsForKeepsKeys(store.(visibility := i.visibility), search, i.id, i.outcome, l, now);
  }

  lemma {:induction false} IngestFirstKeeps(store: Store, search: nat, items: seq<Listing>, n: nat, now: Instant)
    requires n <= |items| && Sound(store) && IngestFirst(store, search, items, n, now).Ok?
    ensures var after := IngestFirst(store, search, items, n, now).value.store;
            && Sound(after)
            && (ActiveIffShown(store.visibility) ==> ActiveIffShown(after.visibility))
  {
    hide Sound, ActiveIffShown, IngestItem;
    if n > 0 {
      IngestFirstKeeps(store, search, items, n - 1, now);
      IngestItemKeeps(IngestFirst(store, search, items, n - 1, now).value.store, search, items[n - 1], now);
    }
  }

  lemma ReconcileKeeps(store: Store, search: nat, portal: Portal, seen: set<nat>, status: RunStatus)
    requires Sound(store)
    ensures var after := store.(visibility := Reconcile(store.visibility, search, portal, seen, status).0);
            && Sound(after)
            && (ActiveIffShown(store.visibility) ==> ActiveIffShown(after.visibility))
  {
    hide Identity, ShownImpliesActive, ActiveIffShown, UniqueKeys, Reconcile;
    ReconcileVisibility(store.visibility, search, portal, seen, status);
    ReconcileKeepsShown(store.visibility, search, portal, seen, status);
  }

  lemma StepKeeps(store: Store, step: Step)
    requires Sound(store)
    ensures Sound(Apply(store, step))
    ensures ActiveIffShown(store.visibility) && !step.DeleteSearch? ==> ActiveIffShown(Apply(store, step).visibility)
  {
    match step {
      case IngestAttempt(search, portal, items, status, now) =>
        if Attempt(store, search, portal, items, status, now).Ok? {
          IngestFirstKeeps(store, search, items, |items|, now);
          var p := IngestFirst(store, search, items, |items|, now).value;
          ReconcileKeeps(p.store, search, portal, Elements(p.ids), status);
        }
      case IngestListing(search, item) =>
        if IngestOne(store.visibility, store.queue.searches, search, item).Ok? {
          IngestOneWrites(store.visibility, store.queue.searches, search, item);
          IngestOneKeepsShown(store.visibility, store.queue.searches, search, item);
        }
      case ReconcilePortal(search, portal, seen, status) =>
        ReconcileKeeps(store, search, portal, seen, status);
      case DeleteSearch(search) =>
        DeletingASearchKeepsExactlyWhen(store.visibility, search);
    }
  }

  /** Over every run identity stays unique, there is one event per key, and a shown listing is
      active; as long as no search was deleted, a listing is active exactly when some search shows it. */
  lemma {:induction false} RunKeeps(store: Store, steps: seq<Step>)
    requires Sound(store)
    ensures Sound(Run(store, steps))
    ensures ActiveIffShown(store.visibility) && (forall step :: step in steps ==> !step.DeleteSearch?) ==>
              ActiveIffShown(Run(store, steps).visibility)
    decreases |steps|
  {
    hide Sound, ActiveIffShown, Apply;
    if steps != [] {
      StepKeeps(store, steps[0]);
      RunKeeps(Apply(store, steps[0]), steps[1..]);
    }
  }

  /** The price the listing moved to, if it moved, has been announced before. */
  predicate PriceIsKnown(store: Store, search: nat, id: nat, l: Report) {
    l.price.Some? ==>
      match Prices.Record(store.history, id, l.price.value, l.observedAt)
      case Ok((_, r)) =>
        var e := PriceEvent(search, id, l, r);
        e.Some? ==> Q.HasKey(store.queue.events, e.value.key)
      case Raised(_) => true
  }

  lemma EventChangesQueueUnlessKnown(store: Store, event: Q.Event, now: Instant)
    requires AddOptionalEvent(store, Some(event), now).Ok?
    ensures AddOptionalEvent(store, Some(event), now).value.store.queue == store.queue <==> Q.HasKey(store.queue.events, event.key)
  {
    AddEventGrows(store, Some(event), now);
  }

  /** A search that meets a listing for the first time leaves the queue as it is exactly when the
      listing has been announced, by whatever search, and so has the price it moved to, if it moved.
      Then nobody is told, the search's own channels included. */
  lemma QueueIsUntouchedExactlyWhenAllIsKnown(store: Store, search: nat, id: nat, l: Report, now: Instant)
    requires EventsFor(store, search, id, New, l, now).Ok?
    ensures EventsFor(store, search, id, New, l, now).value.store.queue == store.queue <==>
              Q.HasKey(store.queue.events, Q.NewListingKey(l.portal, id)) && PriceIsKnown(store, search, id, l)
  {
    hide Q.CreateEvent, Q.HasKey, Prices.Previous;
    var new_ := VisibilityEvent(search, id, New, l);
    EventChangesQueueUnlessKnown(store, new_.value, now);
    AddEventGrows(store, new_, now);
    var first := AddOptionalEvent(store, new_, now).value.store;
    if l.price.Some? {
      var (history, r) := Prices.Record(first.history, id, l.price.value, l.observedAt).value;
      var moved := PriceEvent(search, id, l, r);
      var second := first.(history := history);
      AddEventGrows(second, moved, now);
      if moved.Some? { EventChangesQueueUnlessKnown(second, moved.value, now); }
      if !Q.HasKey(store.queue.events, new_.value.key) {
        var after := AddOptionalEvent(second, moved, now).value.store;
        KeySurvives(first.queue.events, after.queue.events, new_.value.key);
      }
    }
  }

  /** In particular a second search that meets a known listing after its price moved announces the move. */
  lemma MovedPriceIsAnnounced(store: Store, search: nat, id: nat, l: Report, now: Instant)
    requires EventsFor(store, search, id, New, l, now).Ok? && l.price.Some?
    requires var previous := Prices.Previous(store.history, id, l.observedAt);
             && previous.Some? && previous.value != l.price.value
             && var kind := if l.price.value < previous.value then Q.PriceDrop else Q.PriceIncrease;
                !Q.HasKey(store.queue.events, Q.PriceKey(kind, l.portal, id, l.price.value))
    ensures EventsFor(store, search, id, New, l, now).value.store.queue != store.queue
  {
    QueueIsUntouchedExactlyWhenAllIsKnown(store, search, id, l, now);
    AddEventGrows(store, VisibilityEvent(search, id, New, l), now);
    hide Q.CreateEvent, Q.HasKey, Prices.Previous, AddOptionalEvent;
  }

  lemma EmptyStoreIsSound(queue: Q.Queue)
    requires queue.events == map[]
    ensures var store := Store(Visibility(map[], map[]), map[], queue);
            Sound(store) && ActiveIffShown(store.visibility)
  {
  }

  /** From empty tables: over every run, whatever fails in between. */
  lemma RunFromEmptyTables(queue: Q.Queue, steps: seq<Step>)
    requires queue.events == map[]
    ensures var store := Store(Visibility(map[], map[]), map[], queue);
            && Sound(Run(store, steps))
            && ((forall step :: step in steps ==> !step.DeleteSearch?) ==> ActiveIffShown(Run(store, steps).visibility))
  {
    EmptyStoreIsSound(queue);
    RunKeeps(Store(Visibility(map[], map[]), map[], queue), steps);
  }
}
