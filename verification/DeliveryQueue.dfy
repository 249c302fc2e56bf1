/** The notification tables and what each repository call does to them. */
module DeliveryQueue {
  import opened Domain
  import opened Wrappers
  import opened Timestamps
  import opened Ordering

  type Token = nat
  type Duration = int  // microseconds

  datatype Kind = NewListing | PriceDrop | PriceIncrease | Reappearance

  /** The deduplication key. It names the portal and the listing, and never the search. */
  datatype EventKey =
    | NewListingKey(portal: Portal, listing: nat)
    | ReappearanceKey(portal: Portal, listing: nat, observedAt: Instant)
    | PriceKey(kind: Kind, portal: Portal, listing: nat, price: nat)

  datatype Event = Event(
    search: nat, kind: Kind, key: EventKey, listing: nat, occurredAt: Instant,
    previousPrice: Option<nat>, price: Option<nat>)

  /** The status column with the columns the schema ties to it. */
  datatype State =
    | Pending
    | Claimed(claimedAt: Instant, token: Token, leaseExpiresAt: Instant)
    | Done(success: bool, claimedAt: Instant, completedAt: Instant)

  datatype Attempt = Attempt(event: nat, channel: nat, number: nat, availableAt: Instant, state: State) {
    function Pair(): (nat, nat) { (event, channel) }

    predicate Live() { !state.Done? }

    predicate Succeeded() { state.Done? && state.success }
  }

  datatype Channel = Channel(id: nat, enabled: bool)

  datatype Preferences = Preferences(newListing: bool, priceDrop: bool, priceIncrease: bool, reappearance: bool) {
    predicate Enables(kind: Kind) {
      match kind
      case NewListing => newListing
      case PriceDrop => priceDrop
      case PriceIncrease => priceIncrease
      case Reappearance => reappearance
    }
  }

  const DEFAULT_PREFERENCES := Preferences(true, true, false, false)

  /** `channels` lists the channel rows in the order `ORDER BY name, id` returns them. */
  datatype Queue = Queue(
    searches: set<nat>,
    channels: seq<Channel>,
    assignments: set<(nat, nat)>,
    preferences: map<nat, Preferences>,
    events: map<nat, Event>,
    attempts: map<nat, Attempt>)

  datatype Error = ValueError | LookupError | IntegrityError | StaleClaim

  // ---------- Retry policy ----------

  datatype RetryPolicy = RetryPolicy(maxAttempts: int, baseBackoff: Duration, maxBackoff: Duration) {
    predicate Valid() {
      1 <= maxAttempts <= 10 && 0 < baseBackoff <= maxBackoff
    }
  }

  function Power2(n: nat): (p: nat)
    ensures p > 0
  {
    if n == 0 then 1 else 2 * Power2(n - 1)
  }

  /** The wait after the failure of attempt `n`. */
  function Delay(policy: RetryPolicy, n: nat): Duration
    requires n >= 1
  {
    var backoff := policy.baseBackoff * Power2(n - 1);
    if backoff < policy.maxBackoff then backoff else policy.maxBackoff
  }

  /** Delays stay between the base and the maximum, and each is twice the one before until the
      maximum is reached. */
  lemma {:induction false} DelayDoublesUntilSaturated(policy: RetryPolicy, n: nat)
    requires policy.Valid() && n >= 1
    ensures Delay(policy, 1) == policy.baseBackoff
    ensures policy.baseBackoff <= Delay(policy, n) <= policy.maxBackoff
    ensures Delay(policy, n) <= Delay(policy, n + 1)
    ensures Delay(policy, n + 1) == if 2 * Delay(policy, n) < policy.maxBackoff then 2 * Delay(policy, n) else policy.maxBackoff
  {
    var p := Power2(n - 1);
    assert Power2(n) == 2 * p;
    assert policy.baseBackoff * Power2(n) == 2 * (policy.baseBackoff * p);
    assert policy.baseBackoff * p >= policy.baseBackoff;
  }

  // ---------- Creating attempts ----------

  predicate HasAttempt(attempts: map<nat, Attempt>, event: nat, channel: nat, number: nat) {
    exists id :: id in attempts && attempts[id].event == event && attempts[id].channel == channel && attempts[id].number == number
  }

  /** `INSERT … ON CONFLICT DO NOTHING` under the unique key (event, channel, number). */
  function EnsureAttempt(attempts: map<nat, Attempt>, event: nat, channel: nat, number: nat, availableAt: Instant): map<nat, Attempt> {
    if HasAttempt(attempts, event, channel, number) then attempts
    else attempts[NextId(attempts.Keys) := Attempt(event, channel, number, availableAt, Pending)]
  }

  predicate Receives(assignments: set<(nat, nat)>, search: nat, channel: Channel) {
    channel.enabled && (search, channel.id) in assignments
  }

  /** First attempts for the enabled channels assigned to `search`, in row order. */
  function EnsureForChannels(attempts: map<nat, Attempt>, event: nat, search: nat, assignments: set<(nat, nat)>,
                             channels: seq<Channel>, availableAt: Instant): map<nat, Attempt>
    decreases |channels|
  {
    if channels == [] then attempts
    else
      var c := channels[0];
      var next := if Receives(assignments, search, c) then EnsureAttempt(attempts, event, c.id, 1, availableAt) else attempts;
      EnsureForChannels(next, event, search, assignments, channels[1..], availableAt)
  }

  function PreferencesFor(q: Queue, search: nat): Preferences {
    if search in q.preferences then q.preferences[search] else DEFAULT_PREFERENCES
  }

  function EnsureEventDeliveries(q: Queue, event: nat, availableAt: Instant): Result<Queue, Error> {
    if event !in q.events then Raised(LookupError)
    else
      var e := q.events[event];
      if e.search !in q.searches then Raised(LookupError)
      else if !PreferencesFor(q, e.search).Enables(e.kind) then Ok(q)
      else Ok(q.(attempts := EnsureForChannels(q.attempts, event, e.search, q.assignments, q.channels, availableAt)))
  }

  predicate HasKey(events: map<nat, Event>, key: EventKey) {
    exists id :: id in events && events[id].key == key
  }

  /** Create an event unless its key exists, and queue first attempts for a created one. */
  function CreateEvent(q: Queue, event: Event, now: Instant): Result<Queue, Error> {
    if HasKey(q.events, event.key) then Ok(q)
    else if event.search !in q.searches then Raised(IntegrityError)
    else
      var id := NextId(q.events.Keys);
      EnsureEventDeliveries(q.(events := q.events[id := event]), id, now)
  }

  /** One more attempt after the greatest number on record for the pair. */
  function NextNumber(attempts: map<nat, Attempt>, event: nat, channel: nat): nat {
    NextId(set id | id in attempts && attempts[id].Pair() == (event, channel) :: attempts[id].number)
  }

  function CreateRetry(q: Queue, event: nat, channel: nat, now: Instant): Result<Queue, Error> {
    if event !in q.events || !exists c :: c in q.channels && c.id == channel then Raised(IntegrityError)
    else Ok(q.(attempts := EnsureAttempt(q.attempts, event, channel, NextNumber(q.attempts, event, channel), now)))
  }

  // ---------- Claiming ----------

  predicate ChannelEnabled(q: Queue, channel: nat) {
    exists c :: c in q.channels && c.id == channel && c.enabled
  }

  predicate HasSuccess(attempts: map<nat, Attempt>, event: nat, channel: nat) {
    exists id :: id in attempts && attempts[id].Pair() == (event, channel) && attempts[id].Succeeded()
  }

  predicate Due(a: Attempt, now: Instant) {
    match a.state
    case Pending => Second(a.availableAt) <= Second(now)
    case Claimed(_, _, leaseExpiresAt) => Second(leaseExpiresAt) <= Second(now)
    case Done(_, _, _) => false
  }

  predicate Eligible(q: Queue, id: nat, now: Instant)
    requires id in q.attempts
  {
    var a := q.attempts[id];
    && Due(a, now)
    && a.event in q.events
    && ChannelEnabled(q, a.channel)
    && (q.events[a.event].search, a.channel) in q.assignments
    && !HasSuccess(q.attempts, a.event, a.channel)
  }

  function EligibleIds(q: Queue, now: Instant): set<nat> {
    set id | id in q.attempts && Eligible(q, id, now)
  }

  function AvailableSeconds(attempts: map<nat, Attempt>): map<nat, int> {
    map id | id in attempts :: Second(attempts[id].availableAt)
  }

  predicate HoldsToken(attempts: map<nat, Attempt>, id: nat, token: Token)
    requires id in attempts
  {
    attempts[id].state.Claimed? && attempts[id].state.token == token
  }

  datatype ClaimedDelivery = ClaimedDelivery(id: nat, token: Token, at: Instant, lease: Duration)

  const MAX_LEASE: Duration := 3600 * SECOND

  /** Claim the eligible attempt that is first by (available second, id). The unique index on
      claim tokens rejects a token that another row still holds. */
  function Claim(q: Queue, now: Instant, lease: Duration, token: Token): (Queue, Result<Option<ClaimedDelivery>, Error>) {
    if !(0 < lease <= MAX_LEASE) then (q, Raised(ValueError))
    else
      var eligible := EligibleIds(q, now);
      if eligible == {} then (q, Ok(None))
      else
        var id := Least(eligible, AvailableSeconds(q.attempts));
        if exists other :: other in q.attempts && other != id && HoldsToken(q.attempts, other, token) then
          (q, Raised(IntegrityError))
        else
          (q.(attempts := q.attempts[id := q.attempts[id].(state := Claimed(now, token, now + lease))]),
           Ok(Some(ClaimedDelivery(id, token, now, lease))))
  }

  // ---------- Completing ----------

  predicate Owns(attempts: map<nat, Attempt>, claim: ClaimedDelivery) {
    claim.id in attempts && HoldsToken(attempts, claim.id, claim.token)
  }

  /** Record the outcome of a claim. Ownership is the token alone: an expired lease does not make
      the claim stale. The schema rejects a completion whose text sorts before the claim's. */
  function Complete(q: Queue, policy: RetryPolicy, claim: ClaimedDelivery, success: bool, at: Instant): Result<Queue, Error> {
    if !policy.Valid() then Raised(ValueError)
    else if !Owns(q.attempts, claim) then Raised(StaleClaim)
    else
      var row := q.attempts[claim.id];
      if !StoredAtMost(row.state.claimedAt, at) then Raised(IntegrityError)
      else
        var done := q.attempts[claim.id := row.(state := Done(success, row.state.claimedAt, at))];
        if !success && 1 <= row.number < policy.maxAttempts then
          Ok(q.(attempts := EnsureAttempt(done, row.event, row.channel, row.number + 1, at + Delay(policy, row.number))))
        else
          Ok(q.(attempts := done))
  }

  // ---------- Retention ----------

  datatype Retention = Retention(days: nat, maxTerminal: nat)

  function TerminalIds(attempts: map<nat, Attempt>): set<nat> {
    set id | id in attempts && !attempts[id].Live()
  }

  function CompletionSeconds(attempts: map<nat, Attempt>): (key: map<nat, int>)
    ensures key.Keys == TerminalIds(attempts)
  {
    map id | id in attempts && !attempts[id].Live() :: Second(attempts[id].state.completedAt)
  }

  function AgedIds(attempts: map<nat, Attempt>, cutoff: Instant): set<nat> {
    set id | id in attempts && !attempts[id].Live() && Second(attempts[id].state.completedAt) < Second(cutoff)
  }

  function Cutoff(retention: Retention, now: Instant): Instant { now - retention.days * DAY_SECONDS * SECOND }

  function Prune(attempts: map<nat, Attempt>, retention: Retention, now: Instant): map<nat, Attempt> {
    var young := attempts - AgedIds(attempts, Cutoff(retention, now));
    young - BeyondLimit(TerminalIds(young), CompletionSeconds(young), retention.maxTerminal)
  }

  /** Pruning keeps every live attempt, and the terminal attempts that survive are exactly the
      greatest `maxTerminal` by (completion second, id) among those not older than the cutoff. */
  lemma PruneKeepsTheNewest(attempts: map<nat, Attempt>, retention: Retention, now: Instant)
    ensures var kept := Prune(attempts, retention, now);
            var young := TerminalIds(attempts) - AgedIds(attempts, Cutoff(retention, now));
            var survivors := TerminalIds(kept);
            && (forall id :: id in kept ==> id in attempts && kept[id] == attempts[id])
            && (forall id :: id in attempts && attempts[id].Live() ==> id in kept)
            && survivors <= young
            && |survivors| == (if |young| < retention.maxTerminal then |young| else retention.maxTerminal)
            && (forall s, d :: s in survivors && d in young - survivors ==> Before(CompletionSeconds(attempts), d, s))
  {
    var aged := AgedIds(attempts, Cutoff(retention, now));
    var young := attempts - aged;
    var ids := TerminalIds(young);
    assert ids == TerminalIds(attempts) - aged;
    var beyond := BeyondLimit(ids, CompletionSeconds(young), retention.maxTerminal);
    assert TerminalIds(Prune(attempts, retention, now)) == ids - beyond;
    forall d, s | d in beyond && s in ids - beyond ensures Before(CompletionSeconds(attempts), d, s) {
      assert Before(CompletionSeconds(young), d, s);
    }
  }
}
