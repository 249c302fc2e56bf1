/** Ingesting one portal attempt: listings, visibility, prices and events as one transaction. */
module Ingestion {
  import opened Domain
  import opened Wrappers
  import opened Timestamps
  import opened Listings
  import Prices
  import Q = DeliveryQueue

  datatype Store = Store(visibility: Visibility, history: Prices.History, queue: Q.Queue)

  // ---------- One listing ----------

  datatype ItemResult = ItemResult(store: Store, id: nat, outcome: MatchOutcome, events: seq<Q.EventKey>)

  /** `_create_event`: create the event unless its key exists; a created one is queued at once. */
  function AddEvent(store: Store, event: Q.Event, now: Instant): Result<Store, Error> {
    match Q.CreateEvent(store.queue, event, now)
    case Raised(_) => Raised(IntegrityError)
    case Ok(queue) => Ok(store.(queue := queue))
  }

  function VisibilityEvent(search: nat, id: nat, outcome: MatchOutcome, l: Report): Option<Q.Event> {
    match outcome
    case New => Some(Q.Event(search, Q.NewListing, Q.NewListingKey(l.portal, id), id, l.observedAt, None, l.price))
    case Reappeared =>
      Some(Q.Event(search, Q.Reappearance, Q.ReappearanceKey(l.portal, id, l.observedAt), id, l.observedAt, None, l.price))
    case _ => None
  }

  function PriceEvent(search: nat, id: nat, l: Report, r: Prices.PriceResult): Option<Q.Event> {
    match r.change
    case Drop =>
      Some(Q.Event(search, Q.PriceDrop, Q.PriceKey(Q.PriceDrop, l.portal, id, r.price), id, l.observedAt, r.previous, Some(r.price)))
    case Increase =>
      Some(Q.Event(search, Q.PriceIncrease, Q.PriceKey(Q.PriceIncrease, l.portal, id, r.price), id, l.observedAt, r.previous, Some(r.price)))
    case _ => None
  }

  datatype Announced = Announced(store: Store, events: seq<Q.EventKey>)

  function AddOptionalEvent(store: Store, event: Option<Q.Event>, now: Instant): Result<Announced, Error> {
    match event
    case None => Ok(Announced(store, []))
    case Some(e) =>
      match AddEvent(store, e, now)
      case Raised(error) => Raised(error)
      case Ok(s) => Ok(Announced(s, [e.key]))
  }

  /** Record the price, if any, and announce a drop or an increase. */
  function RecordPrice(store: Store, search: nat, id: nat, l: Report, now: Instant): Result<Announced, Error> {
    match l.price
    case None => Ok(Announced(store, []))
    case Some(price) =>
      match Prices.Record(store.history, id, price, l.observedAt)
      case Raised(_) => Raised(PriceConflict)
      case Ok((history, r)) => AddOptionalEvent(store.(history := history), PriceEvent(search, id, l, r), now)
  }

  function EventsFor(store: Store, search: nat, id: nat, outcome: MatchOutcome, l: Report, now: Instant): Result<Announced, Error> {
    match AddOptionalEvent(store, VisibilityEvent(search, id, outcome, l), now)
    case Raised(error) => Raised(error)
    case Ok(first) =>
      match RecordPrice(first.store, search, id, l, now)
      case Raised(error) => Raised(error)
      case Ok(second) => Ok(Announced(second.store, first.events + second.events))
  }

  /** What announcing a listing has written by the time it raises. */
  function LeftByEvents(store: Store, search: nat, id: nat, outcome: MatchOutcome, l: Report, now: Instant): Store {
    match AddOptionalEvent(store, VisibilityEvent(search, id, outcome, l), now)
    case Raised(_) => store
    case Ok(first) =>
      if l.price.None? then first.store
      else
        match Prices.Record(first.store.history, id, l.price.value, l.observedAt)
        case Raised(_) => first.store
        case Ok((history, _)) => first.store.(history := history)
  }

  function LeftByItem(store: Store, search: nat, l: Report, now: Instant): Store {
    match IngestOne(store.visibility, store.queue.searches, search, l)
    case Raised(_) => store.(visibility := LeftByRefusal(store.visibility, l))
    case Ok(i) => LeftByEvents(store.(visibility := i.visibility), search, i.id, i.outcome, l, now)
  }

  function IngestItem(store: Store, search: nat, l: Report, now: Instant): Result<ItemResult, Error> {
    match IngestOne(store.visibility, store.queue.searches, search, l)
    case Raised(error) => Raised(error)
    case Ok(i) =>
      match EventsFor(store.(visibility := i.visibility), search, i.id, i.outcome, l, now)
      case Raised(error) => Raised(error)
      case Ok(a) => Ok(ItemResult(a.store, i.id, i.outcome, a.events))
  }

  /** The events of a listing say what happened: its match was new, or reappeared, or its price is
      below or above the previous one. Each of them exists afterwards. */
  lemma EventsSayWhatHappened(store: Store, search: nat, id: nat, outcome: MatchOutcome, l: Report, now: Instant)
    requires EventsFor(store, search, id, outcome, l, now).Ok?
    ensures var a := EventsFor(store, search, id, outcome, l, now).value;
            var previous := Prices.Previous(store.history, id, l.observedAt);
            && (forall key :: key in a.events <==>
                  || (outcome.New? && key == Q.NewListingKey(l.portal, id))
                  || (outcome.Reappeared? && key == Q.ReappearanceKey(l.portal, id, l.observedAt))
                  || (l.price.Some? && previous.Some? && l.price.value < previous.value && key == Q.PriceKey(Q.PriceDrop, l.portal, id, l.price.value))
                  || (l.price.Some? && previous.Some? && l.price.value > previous.value && key == Q.PriceKey(Q.PriceIncrease, l.portal, id, l.price.value)))
            && (forall key :: key in a.events ==> Q.HasKey(a.store.queue.events, key))
            && a.store.history == (if l.price.Some? then store.history[(id, l.observedAt) := l.price.value] else store.history)
  {
    hide Q.CreateEvent, Prices.Previous;
    var visible := VisibilityEvent(search, id, outcome, l);
    AddEventGrows(store, visible, now);
    var first := AddOptionalEvent(store, visible, now).value;
    if l.price.Some? {
      var (history, r) := Prices.Record(first.store.history, id, l.price.value, l.observedAt).value;
      var moved := PriceEvent(search, id, l, r);
      AddEventGrows(first.store.(history := history), moved, now);
      var second := AddOptionalEvent(first.store.(history := history), moved, now).value;
      if visible.Some? { KeySurvives(first.store.queue.events, second.store.queue.events, visible.value.key); }
    }
  }

  // ---------- One attempt ----------

  datatype Tally = Tally(added: nat, changed: nat, reappeared: nat, same: nat) {
    function Plus(outcome: MatchOutcome): Tally {
      match outcome
      case New => this.(added := added + 1)
      case Changed => this.(changed := changed + 1)
      case Reappeared => this.(reappeared := reappeared + 1)
      case Unchanged => this.(same := same + 1)
    }

    function Total(): nat { added + changed + reappeared + same }
  }

  datatype Progress = Progress(store: Store, tally: Tally, ids: seq<nat>, events: seq<Q.EventKey>)

  /** The first `n` listings of a batch. */
  function IngestFirst(store: Store, search: nat, items: seq<Listing>, n: nat, now: Instant): Result<Progress, Error>
    requires n <= |items|
  {
    if n == 0 then Ok(Progress(store, Tally(0, 0, 0, 0), [], []))
    else
      match IngestFirst(store, search, items, n - 1, now)
      case Raised(error) => Raised(error)
      case Ok(p) =>
        match IngestItem(p.store, search, items[n - 1], now)
        case Raised(error) => Raised(error)
        case Ok(r) => Ok(Progress(r.store, p.tally.Plus(r.outcome), p.ids + [r.id], p.events + r.events))
  }

  datatype IngestionOutcome = IngestionOutcome(tally: Tally, ids: seq<nat>, events: seq<Q.EventKey>, disappearance: Disappearance)

  function Elements(ids: seq<nat>): set<nat> { set id | id in ids }

  predicate AllFrom(items: seq<Listing>, portal: Portal) {
    forall l :: l in items ==> l.portal == portal
  }

  function Attempt(store: Store, search: nat, portal: Portal, items: seq<Listing>, status: RunStatus, now: Instant):
    Result<(Store, IngestionOutcome), Error>
  {
    if !AllFrom(items, portal) then Raised(ValueError)
    else
      match IngestFirst(store, search, items, |items|, now)
      case Raised(error) => Raised(error)
      case Ok(p) =>
        var (visibility, gone) := Reconcile(p.store.visibility, search, portal, Elements(p.ids), status);
        Ok((p.store.(visibility := visibility), IngestionOutcome(p.tally, p.ids, p.events, gone)))
  }

  // ---------- Which tables each part touches ----------

  lemma AddEventFrame(store: Store, event: Option<Q.Event>, now: Instant)
    ensures match AddOptionalEvent(store, event, now)
            case Ok(a) =>
              && a.store.visibility == store.visibility && a.store.history == store.history
              && a.store.queue.searches == store.queue.searches
            case Raised(_) => true
  {
    hide Q.EnsureForChannels, Q.HasKey;
  }

  lemma EventsForFrame(store: Store, search: nat, id: nat, outcome: MatchOutcome, l: Report, now: Instant)
    ensures match EventsFor(store, search, id, outcome, l, now)
            case Ok(a) => a.store.visibility == store.visibility && a.store.queue.searches == store.queue.searches
            case Raised(_) => true
  {
    hide AddOptionalEvent, Prices.Record;
    AddEventFrame(store, VisibilityEvent(search, id, outcome, l), now);
    var first := AddOptionalEvent(store, VisibilityEvent(search, id, outcome, l), now);
    if first.Ok? && l.price.Some? {
      var recorded := Prices.Record(first.value.store.history, id, l.price.value, l.observedAt);
      if recorded.Ok? {
        AddEventFrame(first.value.store.(history := recorded.value.0), PriceEvent(search, id, l, recorded.value.1), now);
      }
    }
  }

  lemma IngestItemShows(store: Store, search: nat, l: Listing, now: Instant)
    requires IngestItem(store, search, l, now).Ok?
    ensures var r := IngestItem(store, search, l, now).value;
            var one := IngestOne(store.visibility, store.queue.searches, search, l);
            one.Ok? && r.store.visibility == one.value.visibility && r.id == one.value.id && r.outcome == one.value.outcome
    ensures IngestItem(store, search, l, now).value.store.queue.searches == store.queue.searches
  {
    var i := IngestOne(store.visibility, store.queue.searches, search, l).value;
    EventsForFrame(store.(visibility := i.visibility), search, i.id, i.outcome, l, now);
  }

  // ---------- What an attempt does to visibility ----------

  /** Nothing about other searches, or about listings of other portals, differs. */
  predicate OthersUntouched(before: Visibility, after: Visibility, search: nat, portal: Portal) {
    && (forall id :: id in before.listings ==> id in after.listings && after.listings[id].portal == before.listings[id].portal)
    && (forall id :: id in before.listings && before.listings[id].portal != portal ==>
          after.listings[id] == before.listings[id])
    && (forall id :: id in after.listings && after.listings[id].portal != portal ==> id in before.listings)
    && (forall k :: k in before.matches ==> k in after.matches)
    && (forall k :: k in after.matches && (k.0 != search || (k.1 in after.listings && after.listings[k.1].portal != portal)) ==>
          k in before.matches && after.matches[k] == before.matches[k])
  }

  lemma IngestOneTouches(v: Visibility, searches: set<nat>, search: nat, portal: Portal, l: Listing)
    requires Identity(v.listings) && l.portal == portal && IngestOne(v, searches, search, l).Ok?
    ensures OthersUntouched(v, IngestOne(v, searches, search, l).value.visibility, search, portal)
  {
    hide Identity, IngestOne;
    IngestOneWrites(v, searches, search, l);
  }

  lemma IngestOneShows(v: Visibility, searches: set<nat>, search: nat, portal: Portal, l: Listing)
    requires Identity(v.listings) && l.portal == portal && IngestOne(v, searches, search, l).Ok?
    ensures var r := IngestOne(v, searches, search, l).value;
            && ActiveOn(r.visibility, search, portal) == ActiveOn(v, search, portal) + {r.id}
            && |r.visibility.matches| == |v.matches| + (if r.outcome.New? then 1 else 0)
  {
    hide Identity, IngestOne;
    IngestOneWrites(v, searches, search, l);
    var r := IngestOne(v, searches, search, l).value;
    var key := (search, r.id);
    assert r.visibility.matches.Keys == v.matches.Keys + {key};
    assert |r.visibility.matches| == |r.visibility.matches.Keys| && |v.matches| == |v.matches.Keys|;
    assert key in v.matches ==> v.matches.Keys + {key} == v.matches.Keys;
    forall id | id in ActiveOn(v, search, portal) ensures id in ActiveOn(r.visibility, search, portal) {
    }
    forall id | id in ActiveOn(r.visibility, search, portal) && id != r.id ensures id in ActiveOn(v, search, portal) {
    }
  }

  lemma UntouchedIsReflexive(v: Visibility, search: nat, portal: Portal)
    ensures OthersUntouched(v, v, search, portal)
  {
  }

  lemma UntouchedIsTransitive(a: Visibility, b: Visibility, c: Visibility, search: nat, portal: Portal)
    requires OthersUntouched(a, b, search, portal) && OthersUntouched(b, c, search, portal)
    ensures OthersUntouched(a, c, search, portal)
  {
  }

  lemma {:induction false} IngestFirstVisibility(store: Store, search: nat, portal: Portal, items: seq<Listing>, n: nat, now: Instant)
    requires n <= |items| && Identity(store.visibility.listings) && AllFrom(items, portal)
    requires IngestFirst(store, search, items, n, now).Ok?
    ensures var p := IngestFirst(store, search, items, n, now).value;
            && Identity(p.store.visibility.listings)
            && OthersUntouched(store.visibility, p.store.visibility, search, portal)
            && ActiveOn(p.store.visibility, search, portal) == ActiveOn(store.visibility, search, portal) + Elements(p.ids)
            && |p.ids| == n == p.tally.Total()
            && |p.store.visibility.matches| == |store.visibility.matches| + p.tally.added
  {
    hide Identity, OthersUntouched, ActiveOn, IngestOne, IngestItem;
    if n == 0 {
      UntouchedIsReflexive(store.visibility, search, portal);
    } else {
      IngestFirstVisibility(store, search, portal, items, n - 1, now);
      var p := IngestFirst(store, search, items, n - 1, now).value;
      var r := IngestItem(p.store, search, items[n - 1], now).value;
      IngestItemShows(p.store, search, items[n - 1], now);
      IngestOneWrites(p.store.visibility, p.store.queue.searches, search, items[n - 1]);
      IngestOneTouches(p.store.visibility, p.store.queue.searches, search, portal, items[n - 1]);
      IngestOneShows(p.store.visibility, p.store.queue.searches, search, portal, items[n - 1]);
      UntouchedIsTransitive(store.visibility, p.store.visibility, r.store.visibility, search, portal);
      assert Elements(p.ids + [r.id]) == Elements(p.ids) + {r.id};
    }
  }

  lemma HidingKeepsIdentity(listings: map<nat, Row>, hidden: set<nat>)
    requires Identity(listings)
    ensures Identity(WithoutListings(listings, hidden))
  {
    var after := WithoutListings(listings, hidden);
    forall i, j | i in after && j in after && SameExternalId(after[i], after[j]) ensures i == j {
      assert SameExternalId(listings[i], listings[j]);
    }
    forall i, j | i in after && j in after && SameUrl(after[i], after[j]) ensures i == j {
      assert SameUrl(listings[i], listings[j]);
    }
  }

  function Hide(v: Visibility, search: nat, missing: set<nat>, hidden: set<nat>): Visibility {
    Visibility(WithoutListings(v.listings, hidden), WithoutMatches(v.matches, search, missing))
  }

  lemma HidingTouches(v: Visibility, search: nat, portal: Portal, missing: set<nat>, hidden: set<nat>)
    requires hidden <= missing <= ActiveOn(v, search, portal)
    ensures OthersUntouched(v, Hide(v, search, missing, hidden), search, portal)
  {
  }

  lemma HidingShows(v: Visibility, search: nat, portal: Portal, missing: set<nat>, hidden: set<nat>)
    ensures ActiveOn(Hide(v, search, missing, hidden), search, portal) == ActiveOn(v, search, portal) - missing
    ensures Hide(v, search, missing, hidden).matches.Keys == v.matches.Keys
  {
  }

  lemma ReconcileVisibility(v: Visibility, search: nat, portal: Portal, seen: set<nat>, status: RunStatus)
    requires Identity(v.listings)
    ensures var v' := Reconcile(v, search, portal, seen, status).0;
            && Identity(v'.listings)
            && OthersUntouched(v, v', search, portal)
            && v'.matches.Keys == v.matches.Keys
            && (status.Conclusive() ==> ActiveOn(v', search, portal) == ActiveOn(v, search, portal) * seen)
            && (!status.Conclusive() ==> v' == v)
  {
    if status.Conclusive() {
      var missing := ActiveOn(v, search, portal) - seen;
      var hidden := NoLongerShown(WithoutMatches(v.matches, search, missing), missing);
      HidingKeepsIdentity(v.listings, hidden);
      HidingTouches(v, search, portal, missing, hidden);
      HidingShows(v, search, portal, missing, hidden);
      hide Identity, Shown, OthersUntouched, ActiveOn, WithoutListings, WithoutMatches;
    } else {
      UntouchedIsReflexive(v, search, portal);
    }
  }

  /** After a committed attempt the tallies add up to the batch, `new` is the growth of the match
      table, nothing of other searches or portals has changed, and the search shows on that portal
      exactly the batch if the attempt was conclusive, and the batch besides what it showed before
      if it was not. */
  lemma AttemptShowsTheBatch(store: Store, search: nat, portal: Portal, items: seq<Listing>, status: RunStatus, now: Instant)
    requires Identity(store.visibility.listings)
    requires Attempt(store, search, portal, items, status, now).Ok?
    ensures var (after, outcome) := Attempt(store, search, portal, items, status, now).value;
            var before, v := store.visibility, after.visibility;
            && Identity(v.listings)
            && |outcome.ids| == |items| == outcome.tally.Total()
            && |v.matches| == |before.matches| + outcome.tally.added
            && OthersUntouched(before, v, search, portal)
            && ActiveOn(v, search, portal) ==
                 (if status.Conclusive() then {} else ActiveOn(before, search, portal)) + Elements(outcome.ids)
  {
    IngestFirstVisibility(store, search, portal, items, |items|, now);
    var p := IngestFirst(store, search, items, |items|, now).value;
    var v := p.store.visibility;
    ReconcileVisibility(v, search, portal, Elements(p.ids), status);
    var v' := Reconcile(v, search, portal, Elements(p.ids), status).0;
    UntouchedIsTransitive(store.visibility, v, v', search, portal);
    assert |v'.matches| == |v'.matches.Keys| && |v.matches| == |v.matches.Keys|;
  }

  // ---------- Replaying a committed batch ----------

  /** Everything one listing of a batch leaves behind. */
  predicate Settled(store: Store, search: nat, l: Report, id: nat) {
    var v := store.visibility;
    && id in v.listings
    && v.listings[id] == Overwritten(v.listings[id], l)
    && StoredAtMost(v.listings[id].firstSeen, l.observedAt)
    && (search, id) in v.matches
    && v.matches[(search, id)] == Match(v.matches[(search, id)].firstSeen, l.observedAt, true)
    && StoredAtMost(v.matches[(search, id)].firstSeen, l.observedAt)
    && (l.price.Some? ==> PriceSettled(store, search, l, id))
  }

  predicate PriceSettled(store: Store, search: nat, l: Report, id: nat)
    requires l.price.Some?
  {
    var r := Prices.Record(store.history, id, l.price.value, l.observedAt);
    && r.Ok? && r.value.0 == store.history
    && var e := PriceEvent(search, id, l, r.value.1);
       e.Some? ==> Q.HasKey(store.queue.events, e.value.key)
  }

  lemma SettledIsFound(store: Store, search: nat, l: Listing, id: nat)
    requires Identity(store.visibility.listings) && Settled(store, search, l, id)
    ensures FindListing(store.visibility.listings, l) == Ok(Some(id))
  {
    var listings := store.visibility.listings;
    assert l.externalId.Some? ==> HasExternalId(listings[id], l);
    assert l.url.Some? ==> HasUrl(listings[id], l);
    FindIsUnique(listings, l, id);
    if l.externalId.None? { assert ExternalIdHolders(listings, l) == {}; }
    if l.url.None? { assert UrlHolders(listings, l) == {}; }
  }

  /** A listing that is settled is ingested again without any effect. */
  lemma SettledItemReplays(store: Store, search: nat, l: Listing, id: nat, now: Instant)
    requires Identity(store.visibility.listings) && Settled(store, search, l, id)
    ensures var r := IngestItem(store, search, l, now);
            r.Ok? && r.value.store == store && r.value.id == id && r.value.outcome == Unchanged
  {
    SettledIsFound(store, search, l, id);
    var v := store.visibility;
    assert v.listings[id := Overwritten(v.listings[id], l)] == v.listings;
    assert v.matches[(search, id) := v.matches[(search, id)]] == v.matches;
    assert IngestOne(v, store.queue.searches, search, l) == Ok(Ingested(v, id, Unchanged, false));
  }

  /** The previous price does not depend on observations of other listings, nor on the observation
      at the same time. */
  lemma PreviousFrame(history: Prices.History, other: nat, at: Instant, price: nat, id: nat, l: Instant)
    requires other != id || at == l
    ensures Prices.Previous(history[(other, at) := price], id, l) == Prices.Previous(history, id, l)
  {
    var after := history[(other, at) := price];
    var keys := Prices.KeysBefore(history, id, l);
    assert Prices.KeysBefore(after, id, l) == keys;
    if keys != {} {
      Prices.LastStoredIsUnique(keys, Prices.PreviousKey(history, id, l).value, Prices.PreviousKey(after, id, l).value);
    }
  }

  lemma AddEventGrows(store: Store, event: Option<Q.Event>, now: Instant)
    ensures match AddOptionalEvent(store, event, now)
            case Ok(a) =>
              && a.store == store.(queue := a.store.queue)
              && (forall id :: id in store.queue.events ==> id in a.store.queue.events && a.store.queue.events[id] == store.queue.events[id])
              && (event.Some? ==> Q.HasKey(a.store.queue.events, event.value.key))
            case Raised(_) => true
  {
    if event.Some? && !Q.HasKey(store.queue.events, event.value.key) && event.value.search in store.queue.searches {
      var id := Ordering.NextId(store.queue.events.Keys);
      var events := store.queue.events[id := event.value];
      assert events[id].key == event.value.key;
    }
  }

  lemma KeySurvives(before: map<nat, Q.Event>, after: map<nat, Q.Event>, key: Q.EventKey)
    requires forall id :: id in before ==> id in after && after[id] == before[id]
    ensures Q.HasKey(before, key) ==> Q.HasKey(after, key)
  {
  }

  /** Announcing and recording one listing settles its price, and disturbs no settled price of another. */
  lemma EventsForSettles(store: Store, search: nat, id: nat, outcome: MatchOutcome, l: Report, now: Instant)
    requires EventsFor(store, search, id, outcome, l, now).Ok?
    ensures var after := EventsFor(store, search, id, outcome, l, now).value.store;
            && after.visibility == store.visibility
            && (l.price.Some? ==> PriceSettled(after, search, l, id))
  {
    AddEventGrows(store, VisibilityEvent(search, id, outcome, l), now);
    var first := AddOptionalEvent(store, VisibilityEvent(search, id, outcome, l), now).value.store;
    if l.price.Some? {
      var (history, r) := Prices.Record(first.history, id, l.price.value, l.observedAt).value;
      AddEventGrows(first.(history := history), PriceEvent(search, id, l, r), now);
      PreviousFrame(first.history, id, l.observedAt, l.price.value, id, l.observedAt);
    }
  }

  lemma EventsForKeepsPrices(store: Store, search: nat, id: nat, outcome: MatchOutcome, l: Report, now: Instant, other: Report, otherId: nat)
    requires EventsFor(store, search, id, outcome, l, now).Ok?
    requires otherId != id && other.price.Some? && PriceSettled(store, search, other, otherId)
    ensures PriceSettled(EventsFor(store, search, id, outcome, l, now).value.store, search, other, otherId)
  {
    AddEventGrows(store, VisibilityEvent(search, id, outcome, l), now);
    var first := AddOptionalEvent(store, VisibilityEvent(search, id, outcome, l), now).value.store;
    var after := EventsFor(store, search, id, outcome, l, now).value.store;
    if l.price.Some? {
      var (history, r) := Prices.Record(first.history, id, l.price.value, l.observedAt).value;
      AddEventGrows(first.(history := history), PriceEvent(search, id, l, r), now);
      PreviousFrame(first.history, id, l.observedAt, l.price.value, otherId, other.observedAt);
    }
    var before := Prices.Record(store.history, otherId, other.price.value, other.observedAt).value.1;
    assert Prices.Record(after.history, otherId, other.price.value, other.observedAt) == Ok((after.history, before));
    var e := PriceEvent(search, otherId, other, before);
    if e.Some? { KeySurvives(store.queue.events, after.queue.events, e.value.key); }
  }

  lemma IngestItemSettles(store: Store, search: nat, l: Listing, now: Instant)
    requires Identity(store.visibility.listings) && IngestItem(store, search, l, now).Ok?
    ensures var r := IngestItem(store, search, l, now).value;
            Settled(r.store, search, l, r.id)
  {
    var i := IngestOne(store.visibility, store.queue.searches, search, l).value;
    EventsForSettles(store.(visibility := i.visibility), search, i.id, i.outcome, l, now);
  }

  lemma IngestItemKeepsSettled(store: Store, search: nat, l: Listing, now: Instant, other: Report, otherId: nat)
    requires Identity(store.visibility.listings) && IngestItem(store, search, l, now).Ok?
    requires Settled(store, search, other, otherId) && IngestItem(store, search, l, now).value.id != otherId
    ensures Settled(IngestItem(store, search, l, now).value.store, search, other, otherId)
  {
    UpsertKeepsIdentity(store.visibility.listings, l);
    var i := IngestOne(store.visibility, store.queue.searches, search, l).value;
    var mid := store.(visibility := i.visibility);
    EventsForFrame(mid, search, i.id, i.outcome, l, now);
    if other.price.Some? {
      assert PriceSettled(mid, search, other, otherId);
      EventsForKeepsPrices(mid, search, i.id, i.outcome, l, now, other, otherId);
    }
  }

  predicate Distinct(ids: seq<nat>) {
    forall i, j :: 0 <= i < j < |ids| ==> ids[i] != ids[j]
  }

  predicate AllSettled(store: Store, search: nat, items: seq<Listing>, ids: seq<nat>)
    requires |ids| <= |items|
  {
    forall i {:trigger Settled(store, search, items[i], ids[i])} :: 0 <= i < |ids| ==> Settled(store, search, items[i], ids[i])
  }

  lemma {:induction false} IngestFirstSettles(store: Store, search: nat, portal: Portal, items: seq<Listing>, n: nat, now: Instant)
    requires n <= |items| && Identity(store.visibility.listings) && AllFrom(items, portal)
    requires IngestFirst(store, search, items, n, now).Ok? && Distinct(IngestFirst(store, search, items, n, now).value.ids)
    ensures var p := IngestFirst(store, search, items, n, now).value;
            |p.ids| == n && AllSettled(p.store, search, items, p.ids)
  {
    hide Identity, Settled, IngestItem;
    if n > 0 {
      var p := IngestFirst(store, search, items, n - 1, now).value;
      var r := IngestItem(p.store, search, items[n - 1], now).value;
      var ids := p.ids + [r.id];
      forall i, j | 0 <= i < j < |p.ids| ensures p.ids[i] != p.ids[j] {
        assert ids[i] != ids[j];
      }
      IngestFirstSettles(store, search, portal, items, n - 1, now);
      IngestFirstVisibility(store, search, portal, items, n - 1, now);
      IngestItemSettles(p.store, search, items[n - 1], now);
      forall i | 0 <= i < |ids| ensures Settled(r.store, search, items[i], ids[i]) {
        if i < n - 1 {
          assert ids[i] != ids[n - 1];
          assert Settled(p.store, search, items[i], p.ids[i]);
          IngestItemKeepsSettled(p.store, search, items[n - 1], now, items[i], ids[i]);
        }
      }
    }
  }

  lemma ReconcileKeepsSettled(store: Store, search: nat, portal: Portal, seen: set<nat>, status: RunStatus, l: Report, id: nat)
    requires Settled(store, search, l, id) && id in seen
    ensures Settled(store.(visibility := Reconcile(store.visibility, search, portal, seen, status).0), search, l, id)
  {
  }

  lemma {:induction false} SettledBatchReplays(store: Store, search: nat, items: seq<Listing>, ids: seq<nat>, n: nat, now: Instant)
    requires n <= |items| == |ids| && Identity(store.visibility.listings) && AllSettled(store, search, items, ids)
    ensures var r := IngestFirst(store, search, items, n, now);
            r.Ok? && r.value.store == store && r.value.ids == ids[..n] && r.value.tally == Tally(0, 0, 0, n)
  {
    hide Identity, Settled, IngestItem;
    if n > 0 {
      SettledBatchReplays(store, search, items, ids, n - 1, now);
      assert Settled(store, search, items[n - 1], ids[n - 1]);
      SettledItemReplays(store, search, items[n - 1], ids[n - 1], now);
      assert ids[..n] == ids[..n - 1] + [ids[n - 1]];
    }
  }

  /** Nothing is left to hide right after a conclusive attempt. */
  lemma NothingLeftToReconcile(v: Visibility, search: nat, portal: Portal, seen: set<nat>, status: RunStatus)
    requires status.Conclusive() ==> ActiveOn(v, search, portal) <= seen
    ensures Reconcile(v, search, portal, seen, status).0 == v
  {
    if status.Conclusive() {
      assert ActiveOn(v, search, portal) - seen == {};
      assert WithoutMatches(v.matches, search, {}) == v.matches;
      assert WithoutListings(v.listings, {}) == v.listings;
    }
  }

  /** Delivering a committed batch again changes no table: listings, matches, price history, events
      and delivery attempts all stay as they are, and every listing comes out unchanged. */
  lemma ReplayChangesNothing(store: Store, search: nat, portal: Portal, items: seq<Listing>, status: RunStatus, now: Instant, later: Instant)
    requires Identity(store.visibility.listings)
    requires Attempt(store, search, portal, items, status, now).Ok?
    requires Distinct(Attempt(store, search, portal, items, status, now).value.1.ids)
    ensures var (after, outcome) := Attempt(store, search, portal, items, status, now).value;
            var replay := Attempt(after, search, portal, items, status, later);
            && replay.Ok? && replay.value.0 == after
            && replay.value.1.ids == outcome.ids
            && replay.value.1.tally == Tally(0, 0, 0, |items|)
  {
    AttemptShowsTheBatch(store, search, portal, items, status, now);
    IngestFirstSettles(store, search, portal, items, |items|, now);
    var p := IngestFirst(store, search, items, |items|, now).value;
    var (after, outcome) := Attempt(store, search, portal, items, status, now).value;
    forall i | 0 <= i < |p.ids| ensures Settled(after, search, items[i], p.ids[i]) {
      assert Settled(p.store, search, items[i], p.ids[i]);
      ReconcileKeepsSettled(p.store, search, portal, Elements(p.ids), status, items[i], p.ids[i]);
    }
    SettledBatchReplays(after, search, items, p.ids, |items|, later);
    assert p.ids[..|items|] == p.ids;
    NothingLeftToReconcile(after.visibility, search, portal, Elements(p.ids), status);
  }
}
