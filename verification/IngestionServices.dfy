/** The repositories and the ingestion service as objects that update their tables in place. */
module IngestionServices {
  import opened Domain
  import opened Wrappers
  import opened Timestamps
  import opened Listings
  import opened Ingestion
  import Prices
  import Ordering
  import Q = DeliveryQueue
  import opened NotificationDelivery

  class ListingMatchRepository {
    var listings: map<nat, Row>
    var matches: map<(nat, nat), Match>

    function Tables(): Visibility
      reads this
    {
      Visibility(listings, matches)
    }

    constructor ()
      ensures Tables() == Visibility(map[], map[])
    {
      listings, matches := map[], map[];
    }

    method IngestLocked(searches: set<nat>, search: nat, l: Listing) returns (r: Result<(nat, MatchOutcome, bool), Error>)
      modifies this
      ensures match IngestOne(old(Tables()), searches, search, l)
              case Ok(i) => r == Ok((i.id, i.outcome, i.created)) && Tables() == i.visibility
              case Raised(error) => r == Raised(error) && Tables() == LeftByRefusal(old(Tables()), l)
    {
      var found := FindListing(listings, l);
      if found.Raised? { return Raised(found.error); }
      var id := 0;
      var changed := false;
      if found.value.None? {
        id := Ordering.NextId(listings.Keys);
        listings := listings[id := Row(l.portal, l.externalId, l.url, l.price, l.details, l.source, l.observedAt, l.observedAt, true)];
      } else {
        id := found.value.value;
        changed := !MaterialEqual(listings[id], l);
        if !StoredAtMost(listings[id].firstSeen, l.observedAt) { return Raised(IntegrityError); }
        listings := listings[id := Overwritten(listings[id], l)];
      }
      var key := (search, id);
      var outcome := New;
      if key !in matches {
        if search !in searches { return Raised(IntegrityError); }
        matches := matches[key := Match(l.observedAt, l.observedAt, true)];
      } else {
        var m := matches[key];
        if !StoredAtMost(m.firstSeen, l.observedAt) { return Raised(IntegrityError); }
        matches := matches[key := Match(m.firstSeen, l.observedAt, true)];
        outcome := if !m.active then Reappeared else if changed then Changed else Unchanged;
      }
      return Ok((id, outcome, found.value.None?));
    }

    method ReconcilePortalLocked(search: nat, portal: Portal, seen: set<nat>, status: RunStatus) returns (gone: Disappearance)
      modifies this
      ensures (Tables(), gone) == Reconcile(old(Tables()), search, portal, seen, status)
    {
      if !status.Conclusive() { return Disappearance(false, {}, {}); }
      var missing := ActiveOn(Tables(), search, portal) - seen;
      matches := WithoutMatches(matches, search, missing);
      var remaining := missing;
      var hidden: set<nat> := {};
      while remaining != {}
        invariant remaining <= missing
        invariant hidden == NoLongerShown(matches, missing - remaining)
        invariant matches == WithoutMatches(old(matches), search, missing)
        invariant listings == WithoutListings(old(listings), hidden)
        decreases remaining
      {
        var id :| id in remaining;
        remaining := remaining - {id};
        if !Shown(matches, id) {
          listings := listings[id := listings[id].(active := false)];
          hidden := hidden + {id};
        }
      }
      assert missing - remaining == missing;
      return Disappearance(true, missing, hidden);
    }
  }

  class PriceHistoryRepository {
    var history: Prices.History

    constructor ()
      ensures history == map[]
    {
      history := map[];
    }

    method Record(listing: nat, price: nat, at: Instant) returns (r: Result<Prices.PriceResult, Prices.PriceError>)
      modifies this
      ensures match Prices.Record(old(history), listing, price, at)
              case Ok((after, result)) => r == Ok(result) && history == after
              case Raised(error) => r == Raised(error) && history == old(history)
    {
      var previous := Prices.Previous(history, listing, at);
      if (listing, at) in history {
        if history[(listing, at)] != price { return Raised(Prices.ConflictingObservation); }
        return Ok(Prices.PriceResult(Prices.Change(previous, price), previous, price, false));
      }
      history := history[(listing, at) := price];
      return Ok(Prices.PriceResult(Prices.Change(previous, price), previous, price, true));
    }
  }

  class IngestionService {
    const listings: ListingMatchRepository
    const prices: PriceHistoryRepository
    const notifications: NotificationRepository

    constructor (listings: ListingMatchRepository, prices: PriceHistoryRepository, notifications: NotificationRepository)
      ensures this.listings == listings && this.prices == prices && this.notifications == notifications
    {
      this.listings, this.prices, this.notifications := listings, prices, notifications;
    }

    function Tables(): Store
      reads listings, prices, notifications
    {
      Store(listings.Tables(), prices.history, notifications.Tables())
    }

    method AddEvent(event: Option<Q.Event>, now: Instant) returns (r: Result<seq<Q.EventKey>, Error>)
      modifies notifications`events, notifications`attempts
      ensures match AddOptionalEvent(old(Tables()), event, now)
              case Ok(a) => r == Ok(a.events) && Tables() == a.store
              case Raised(error) => r == Raised(error) && Tables() == old(Tables())
    {
      match event {
        case None => return Ok([]);
        case Some(e) =>
          var created := notifications.CreateEvent(e, now);
          match created {
            case Raised(_) => return Raised(IntegrityError);
            case Ok(_) => return Ok([e.key]);
          }
      }
    }

    method EventsFor(search: nat, id: nat, outcome: MatchOutcome, l: Listing, now: Instant) returns (r: Result<seq<Q.EventKey>, Error>)
      modifies prices, notifications`events, notifications`attempts
      ensures match Ingestion.EventsFor(old(Tables()), search, id, outcome, l, now)
              case Ok(a) => r == Ok(a.events) && Tables() == a.store
              case Raised(error) => r == Raised(error) && Tables() == LeftByEvents(old(Tables()), search, id, outcome, l, now)
    {
      hide AddOptionalEvent;
      var first := AddEvent(VisibilityEvent(search, id, outcome, l), now);
      if first.Raised? { return first; }
      if l.price.None? { return Ok(first.value + []); }
      var recorded := prices.Record(id, l.price.value, l.observedAt);
      if recorded.Raised? { return Raised(PriceConflict); }
      var second := AddEvent(PriceEvent(search, id, l, recorded.value), now);
      if second.Raised? { return second; }
      return Ok(first.value + second.value);
    }

    /** The body of the batch loop. */
    method IngestItem(search: nat, l: Listing, now: Instant) returns (r: Result<(nat, MatchOutcome, seq<Q.EventKey>), Error>)
      modifies listings, prices, notifications`events, notifications`attempts
      ensures match Ingestion.IngestItem(old(Tables()), search, l, now)
              case Ok(i) => r == Ok((i.id, i.outcome, i.events)) && Tables() == i.store
              case Raised(error) => r == Raised(error) && Tables() == LeftByItem(old(Tables()), search, l, now)
    {
      hide Ingestion.EventsFor, IngestOne, LeftByRefusal, LeftByEvents;
      var one := listings.IngestLocked(notifications.searches, search, l);
      if one.Raised? { return Raised(one.error); }
      var (id, outcome, _) := one.value;
      var announced := EventsFor(search, id, outcome, l, now);
      if announced.Raised? { return Raised(announced.error); }
      return Ok((id, outcome, announced.value));
    }

    /** Put every table back to what it was when the transaction began. */
    method Rollback(before: Store)
      requires before.queue == notifications.Tables().(events := before.queue.events, attempts := before.queue.attempts)
      modifies listings, prices, notifications`events, notifications`attempts
      ensures Tables() == before
    {
      listings.listings, listings.matches := before.visibility.listings, before.visibility.matches;
      prices.history := before.history;
      notifications.events, notifications.attempts := before.queue.events, before.queue.attempts;
    }

    /** Ingest a batch in one transaction: it commits as `Attempt` says, or it raises and every
        table is as before. */
    method IngestAttempt(search: nat, portal: Portal, items: seq<Listing>, status: RunStatus, now: Instant)
      returns (r: Result<IngestionOutcome, Error>)
      modifies listings, prices, notifications`events, notifications`attempts
      ensures match Attempt(old(Tables()), search, portal, items, status, now)
              case Ok((after, outcome)) => r == Ok(outcome) && Tables() == after
              case Raised(error) => r == Raised(error) && Tables() == old(Tables())
    {
      hide Ingestion.IngestItem, LeftByItem, Reconcile, Elements;
      if exists l :: l in items && l.portal != portal { return Raised(ValueError); }
      var before := Tables();
      var tally := Tally(0, 0, 0, 0);
      var ids: seq<nat> := [];
      var events: seq<Q.EventKey> := [];
      for i := 0 to |items|
        invariant notifications.Tables() ==
                    before.queue.(events := notifications.events, attempts := notifications.attempts)
        invariant IngestFirst(before, search, items, i, now) == Ok(Progress(Tables(), tally, ids, events))
      {
        var ingested := IngestItem(search, items[i], now);
        if ingested.Raised? {
          RaisedStaysRaised(before, search, items, i + 1, now);
          Rollback(before);
          return Raised(ingested.error);
        }
        var (id, outcome, announced) := ingested.value;
        tally := tally.Plus(outcome);
        ids := ids + [id];
        events := events + announced;
      }
      var gone := listings.ReconcilePortalLocked(search, portal, Elements(ids), status);
      return Ok(IngestionOutcome(tally, ids, events, gone));
    }
  }

  lemma {:induction false} RaisedStaysRaised(store: Store, search: nat, items: seq<Listing>, n: nat, now: Instant)
    requires n <= |items| && IngestFirst(store, search, items, n, now).Raised?
    ensures IngestFirst(store, search, items, |items|, now) == IngestFirst(store, search, items, n, now)
    decreases |items| - n
  {
    hide IngestItem;
    if n < |items| { RaisedStaysRaised(store, search, items, n + 1, now); }
  }
}
