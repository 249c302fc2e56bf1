/** Ingestion meets the delivery queue: a committed attempt is, for the queue, a run of event
    creations, so everything proved of delivery runs holds with ingestion among the actions. */
module IngestionDelivery {
  import opened Domain
  import opened Wrappers
  import opened Timestamps
  import opened Listings
  import opened Ingestion
  import Prices
  import Q = DeliveryQueue
  import D = DeliveryRuns

  predicate OnlyCreates(actions: seq<D.Action>) { forall i :: 0 <= i < |actions| ==> actions[i].Create? }

  /** Some sequence of event creations takes the tables from `w` to `queue`; it completes and claims nothing. */
  ghost predicate CreatesLeadTo(rules: D.Rules, w: D.World, queue: Q.Queue) {
    exists actions {:trigger OnlyCreates(actions)} :: OnlyCreates(actions) && Reaches(rules, w, actions, queue)
  }

  predicate Reaches(rules: D.Rules, w: D.World, actions: seq<D.Action>, queue: Q.Queue) {
    var after := D.Run(rules, w, actions);
    after.queue == queue && after.ledger == w.ledger && after.claims == w.claims && D.AllowedRun(rules, w, actions)
  }

  lemma {:induction false} OneMoreAction(rules: D.Rules, w: D.World, actions: seq<D.Action>, last: D.Action)
    requires D.AllowedRun(rules, w, actions) && D.Allowed(D.Run(rules, w, actions), last)
    ensures D.Run(rules, w, actions + [last]) == D.Apply(rules, D.Run(rules, w, actions), last)
    ensures D.AllowedRun(rules, w, actions + [last])
    decreases |actions|
  {
    hide D.Apply, D.Allowed;
    var all := actions + [last];
    if actions == [] {
      assert all[1..] == [];
      assert D.Run(rules, D.Apply(rules, w, last), []) == D.Apply(rules, w, last);
    } else {
      assert all[0] == actions[0] && all[1..] == actions[1..] + [last];
      OneMoreAction(rules, D.Apply(rules, w, actions[0]), actions[1..], last);
    }
  }

  lemma NothingLeadsTo(rules: D.Rules, w: D.World)
    ensures CreatesLeadTo(rules, w, w.queue)
  {
    var none: seq<D.Action> := [];
    assert OnlyCreates(none) && Reaches(rules, w, none, w.queue);
  }

  lemma EventIsACreate(rules: D.Rules, w: D.World, store: Store, event: Option<Q.Event>, now: Instant)
    requires CreatesLeadTo(rules, w, store.queue) && AddOptionalEvent(store, event, now).Ok?
    ensures CreatesLeadTo(rules, w, AddOptionalEvent(store, event, now).value.store.queue)
  {
    hide Q.CreateEvent;
    if event.Some? {
      var actions :| OnlyCreates(actions) && Reaches(rules, w, actions, store.queue);
      var last := D.Create(event.value, now);
      OneMoreAction(rules, w, actions, last);
      assert OnlyCreates(actions + [last]);
      assert Reaches(rules, w, actions + [last], AddOptionalEvent(store, event, now).value.store.queue);
    }
  }

  lemma EventsAreCreates(rules: D.Rules, w: D.World, store: Store, search: nat, id: nat, outcome: MatchOutcome, l: Report, now: Instant)
    requires CreatesLeadTo(rules, w, store.queue) && EventsFor(store, search, id, outcome, l, now).Ok?
    ensures CreatesLeadTo(rules, w, EventsFor(store, search, id, outcome, l, now).value.store.queue)
  {
    hide CreatesLeadTo, AddOptionalEvent, Prices.Record;
    EventIsACreate(rules, w, store, VisibilityEvent(search, id, outcome, l), now);
    var first := AddOptionalEvent(store, VisibilityEvent(search, id, outcome, l), now).value.store;
    if l.price.Some? {
      var (history, r) := Prices.Record(first.history, id, l.price.value, l.observedAt).value;
      EventIsACreate(rules, w, first.(history := history), PriceEvent(search, id, l, r), now);
    }
  }

  lemma {:induction false} ItemsAreCreates(rules: D.Rules, w: D.World, store: Store, search: nat, items: seq<Listing>, n: nat, now: Instant)
    requires n <= |items| && w.queue == store.queue && IngestFirst(store, search, items, n, now).Ok?
    ensures CreatesLeadTo(rules, w, IngestFirst(store, search, items, n, now).value.store.queue)
  {
    hide CreatesLeadTo, EventsFor, IngestOne;
    if n == 0 {
      NothingLeadsTo(rules, w);
    } else {
      ItemsAreCreates(rules, w, store, search, items, n - 1, now);
      var p := IngestFirst(store, search, items, n - 1, now).value.store;
      var i := IngestOne(p.visibility, p.queue.searches, search, items[n - 1]).value;
      EventsAreCreates(rules, w, p.(visibility := i.visibility), search, i.id, i.outcome, items[n - 1], now);
    }
  }

  /** What a committed attempt leaves in the queue is reached by creating events, and nothing else;
      so the delivery invariant holds of it with the same history of completions and claims. */
  lemma AttemptIsARunOfCreates(rules: D.Rules, w: D.World, store: Store, search: nat, portal: Portal, items: seq<Listing>,
                               status: RunStatus, now: Instant)
    requires w.queue == store.queue && Attempt(store, search, portal, items, status, now).Ok?
    ensures var queue := Attempt(store, search, portal, items, status, now).value.0.queue;
            && CreatesLeadTo(rules, w, queue)
            && (rules.policy.Valid() && D.Invariant(rules, w) ==>
                  exists enqueued {:trigger D.World(queue, w.ledger, w.claims, enqueued)} ::
                    D.Invariant(rules, D.World(queue, w.ledger, w.claims, enqueued)))
  {
    ItemsAreCreates(rules, w, store, search, items, |items|, now);
    var queue := Attempt(store, search, portal, items, status, now).value.0.queue;
    assert queue == IngestFirst(store, search, items, |items|, now).value.store.queue by { hide IngestFirst, Reconcile; }
    hide Attempt, D.Invariant;
    if rules.policy.Valid() && D.Invariant(rules, w) {
      var actions :| OnlyCreates(actions) && Reaches(rules, w, actions, queue);
      D.RunKeeps(rules, w, actions);
      var after := D.Run(rules, w, actions);
      assert after == D.World(queue, w.ledger, w.claims, after.enqueued);
    }
  }
}
